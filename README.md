# Macro store: categories, version history and template seeding

This project models the data core of a small web service that stores
generated spreadsheet macros (automation scripts) with a version history.

- `models.dfy` (module `Models`, from `models.py`): the closed category
  enumeration and its Japanese display labels; the immutable `MacroVersion`
  snapshot and its dictionary projection; the `Macro` record as a class whose
  `versions` list grows in place, newest first, through `AddVersion`; the
  latest-version query and the record's dictionary projection. The class
  invariant `Valid()` says that the history is numbered N, N-1, ..., 1 from the
  head and that every version belongs to its macro.
- `database.dfy` (module `Database`, from `database.py`): the macro table as
  the class `MacroTable`: the stored macros in insertion order and the next
  value of the identifier sequence of each table. `SaveMacro` inserts a record
  with a fresh identifier and the source's defaults (category `AI_GENERATED`,
  public), `GetMacroById` looks a record up by primary key, `GetAllMacros`
  lists every record newest first by creation time. `SaveVersion` is the
  persistence half of `add_version`: it issues the version identifier and
  keeps the table invariant.
- `app.dfy` (module `App`, from `app.py`): `InitTemplates`, the guarded
  start-up step that stores the two template macros, each public, of category
  `TEMPLATE`, and holding one version whose content is its script, unless a
  `TEMPLATE` macro is already stored.

Clock readings are parameters (`now`) of type `Timestamp`, an integer whose
order is all that matters. The identifiers the database would assign come
from the two counters of `MacroTable`.

Modelling choices, each stated against the code:
- `get_latest_version` returns the head of the `versions` relationship, which
  the mapping orders by descending version number (models.py:41-42); it does not
  compute a maximum. The model returns the head too and proves, under the
  class invariant, that the head carries the greatest number.
- A new macro is public by default, as the `save_macro` parameter default
  (database.py:14) and the `is_public` column default (models.py:38) say.
- The `description` column is only declared non-null (models.py:35), so an
  empty description is accepted.
- The browser script asks the server for a public-only listing
  (`/macros?public=...`, static/js/main.js:218), to change a macro's
  visibility (`/macros/<id>/share`, static/js/main.js:58) and for a macro's
  versions (`/macros/<id>/versions`, static/js/main.js:31). No server handler
  for the share or versions requests exists, and the `/macros` handler
  (main.py:55-61) ignores the `public` parameter, so none of these is
  modelled. The `/generate-macro` handler (main.py:29-53) writes a placeholder
  spreadsheet and is left out with the rest of the HTTP layer.

## Model

| member | source | states |
|---|---|---|
| `Models.ParseCategory` | models.py:5-13 | a string names a category exactly when it equals that member's value; no other string does |
| `Models.JapaneseName` | models.py:15-27 | each of the eight category values maps to its fixed Japanese label; every other value is returned unchanged |
| `Models.MacroVersion.ToDict` | models.py:86-94 | the version dictionary has exactly the keys id, macro_id, version_number, content, created_at and loses nothing: the version is read back from it |
| `Models.HistoryNumbersOneToN` | models.py:41-60 | in a valid history of N versions the version numbers are exactly 1..N and no number is used twice |
| `Models.Macro.constructor` | models.py:29-38 | a new record carries the given columns and no version, and satisfies the history invariant |
| `Models.Macro.LatestVersion` | models.py:44-46 | nothing exactly when the macro has no versions; otherwise a version of the macro, which under the invariant is numbered N and is not below any other version's number |
| `Models.Macro.AddVersion` | models.py:48-60 | the new version is numbered 1 on an empty history and latest + 1 otherwise, belongs to the macro and holds the content; it becomes the head and the latest, every earlier version is kept as it was, and the history invariant is preserved |
| `Models.Macro.ToDict` | models.py:62-74 | the dictionary copies id, title, description, category, created_at and is_public; latest_version and content are null exactly when there are no versions, otherwise they are N and the content of the version numbered N |
| `Database.FindById` | database.py:20-21 | the result, if any, is a stored macro with that identifier; nothing is returned only when no stored macro has it |
| `Database.FindByIdLocates` | database.py:20-21 | when identifiers are unique, looking up a stored macro's identifier returns that very macro |
| `Database.InsertByCreation` | database.py:23-24 | inserting into a newest-first listing keeps it newest first and adds exactly that macro |
| `Database.SortNewestFirst` | database.py:23-24 | the listing is ordered by creation time, newest first, and is a permutation of the stored macros |
| `Database.DistinctIdsOccurOnce` | models.py:33 | a sequence of macros with unique primary keys holds no macro twice |
| `Database.ListingHasEachOnce` | database.py:23-24 | with unique primary keys the listing names every stored macro and none of them twice |
| `Database.MacroTable.constructor` | database.py:9-12 | the tables start empty, both identifier sequences start at 1, and the table invariant holds |
| `Database.MacroTable.Insert` | database.py:15-17 | a fresh macro with the next identifier, the given columns and no versions is appended; the identifier is used by no earlier macro; the macro identifier counter advances by one and the version counter is unchanged; the invariant is kept |
| `Database.MacroTable.SaveMacro` | database.py:14-18 | stores one macro with the given title, description, category and visibility (defaults AI_GENERATED and public), returns its identifier, which no earlier macro uses and under which the lookup finds it; earlier macros and their versions are unchanged; the macro identifier counter advances by one and the version counter is unchanged |
| `Database.MacroTable.SaveVersion` | models.py:53-59 | the version gets the next version identifier, is numbered one past the macro's history and heads it; the table and the other macros are unchanged and the table invariant is kept |
| `Database.MacroTable.TemplatesExist` | app.py:23-25 | true exactly when some stored macro's category is "TEMPLATE" |
| `Database.MacroTable.GetMacroById` | database.py:20-21 | the stored macro with that identifier, unique under the invariant, or nothing exactly when no stored macro has it |
| `Database.MacroTable.GetAllMacros` | database.py:23-24 | every stored macro, as many times as it is stored, ordered by creation time newest first |
| `App.InitTemplates` | app.py:18-78 | when a TEMPLATE macro is stored nothing changes; otherwise exactly two macros are appended, titled as the two templates, each fresh, public, of category TEMPLATE and holding one version numbered 1 whose content is its description, and each identifier counter advances by two; earlier macros are untouched; afterwards a TEMPLATE macro exists, so a second call is a no-op |

## Left out

- HTTP routing, page templates, spreadsheet file writing (`main.py`), the browser script (`static/js/main.js`) and server process settings (`gunicorn_config.py`): presentation and deployment, not the data model.
- Sessions, flushing, connection pooling and failing commits: the store is an in-memory table that always accepts a write, so persistence failures are not modelled.
- ISO-8601 rendering of `created_at`: a dictionary holds the timestamp itself (`Json.Time`).
- Concurrent appends from several server processes: the model is sequential.
- Cascading delete: no delete operation exists; the invariant only states that every version belongs to the macro holding it.
- The nullable `title` column: titles are strings, as every shown caller passes one.
- Columns other than `versions` are constants of `Macro`, since no modelled operation changes them (there is no visibility update in the code).
- Version identifiers: the table invariant keeps every stored version identifier below the next one to issue, so each new identifier is unused; pairwise distinctness of all stored version identifiers is not stated as an invariant.
- Database.SortNewestFirst: the code orders by creation time only and leaves the order of equal timestamps to the database; the model lists the later-inserted macro first and its contract states only the creation-time order.
- App.InitTemplates: both template macros and their versions receive the single clock reading `now`.
- `add_version` reads `self.id` for the new version's owner; the model gives the version the identifier of the macro it is added to.
- `save_macro`, `get_macro_by_id` and `get_all_macros` (database.py:14-24) use `Macro`, which database.py imports only inside `init_db` (database.py:11), so as written each call raises NameError; the model gives the three operations their evident meaning (`Database.MacroTable.SaveMacro`, `Database.MacroTable.GetMacroById`, `Database.MacroTable.GetAllMacros`).
