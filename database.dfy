/** The macro table as an in-memory store (database.py): insertion, lookup by
    primary key, and the newest-first listing. */
module Database {
  import opened Models

  /** No two macros of `ms` share an identifier (the primary key). */
  ghost predicate DistinctIds(ms: seq<Macro>) {
    forall i, j :: 0 <= i < j < |ms| ==> ms[i].id != ms[j].id
  }

  /** The macro of `ms` whose identifier is `macroId`, if there is one. */
  function FindById(ms: seq<Macro>, macroId: int): (r: Option<Macro>)
    ensures r.Some? ==> r.value in ms && r.value.id == macroId
    ensures r.None? <==> forall m :: m in ms ==> m.id != macroId
  {
    if ms == [] then None
    else if ms[0].id == macroId then Some(ms[0])
    else FindById(ms[1..], macroId)
  }

  /** With identifiers unique, looking up a stored macro's identifier yields that macro. */
  lemma {:induction false} FindByIdLocates(ms: seq<Macro>, i: int)
    requires DistinctIds(ms) && 0 <= i < |ms|
    ensures FindById(ms, ms[i].id) == Some(ms[i])
  {
    if i > 0 {
      assert ms[0].id != ms[i].id;
      FindByIdLocates(ms[1..], i - 1);
    }
  }

  /** `ms` lists newer macros before older ones (`ORDER BY created_at DESC`). */
  ghost predicate NewestFirst(ms: seq<Macro>) {
    forall i, j :: 0 <= i < j < |ms| ==> ms[i].createdAt >= ms[j].createdAt
  }

  /** Places `m` into a newest-first listing, after every entry at least as new. */
  function InsertByCreation(m: Macro, ms: seq<Macro>): (r: seq<Macro>)
    requires NewestFirst(ms)
    ensures NewestFirst(r)
    ensures multiset(r) == multiset(ms) + multiset{m}
    ensures forall x :: x in r ==> x == m || x in ms
  {
    if ms == [] || ms[0].createdAt < m.createdAt then [m] + ms
    else
      var rest := InsertByCreation(m, ms[1..]);
      assert ms == [ms[0]] + ms[1..];
      assert forall k :: 0 <= k < |rest| ==> ms[0].createdAt >= rest[k].createdAt by {
        forall k | 0 <= k < |rest| ensures ms[0].createdAt >= rest[k].createdAt {
          assert rest[k] in rest;
        }
      }
      [ms[0]] + rest
  }

  /** The macros of `ms` ordered newest first. Macros created at the same time
      come out with the later-inserted one first. */
  function SortNewestFirst(ms: seq<Macro>): (r: seq<Macro>)
    ensures NewestFirst(r)
    ensures multiset(r) == multiset(ms)
  {
    if ms == [] then []
    else
      assert ms == [ms[0]] + ms[1..];
      InsertByCreation(ms[0], SortNewestFirst(ms[1..]))
  }

  /** With identifiers unique, no macro occurs twice in `ms`. */
  lemma {:induction false} DistinctIdsOccurOnce(ms: seq<Macro>)
    requires DistinctIds(ms)
    ensures forall x :: multiset(ms)[x] <= 1
  {
    if ms != [] {
      DistinctIdsOccurOnce(ms[1..]);
      assert ms == [ms[0]] + ms[1..];
      assert ms[0] !in ms[1..] by {
        forall k | 0 <= k < |ms[1..]| ensures ms[1..][k] != ms[0] {
          assert ms[1..][k].id == ms[k + 1].id != ms[0].id;
        }
      }
    }
  }

  /** An entry that appears at two positions of `r` is counted twice. */
  lemma RepeatCountsTwice(r: seq<Macro>, i: int, j: int)
    requires 0 <= i < j < |r| && r[i] == r[j]
    ensures multiset(r)[r[i]] >= 2
  {
    assert r == r[..j] + r[j..];
    assert r[i] in r[..j];
    assert r[j] in r[j..];
  }

  /** With identifiers unique, the newest-first listing names every macro of
      `ms` and names none of them twice. */
  lemma ListingHasEachOnce(ms: seq<Macro>)
    requires DistinctIds(ms)
    ensures forall m :: m in ms ==> m in SortNewestFirst(ms)
    ensures var r := SortNewestFirst(ms);
              forall i, j :: 0 <= i < j < |r| ==> r[i] != r[j]
  {
    var r := SortNewestFirst(ms);
    assert forall m :: m in ms <==> m in multiset(r);
    DistinctIdsOccurOnce(ms);
    forall i, j | 0 <= i < j < |r| ensures r[i] != r[j] {
      if r[i] == r[j] {
        RepeatCountsTwice(r, i, j);
      }
    }
  }

  /** The `macros` and `macro_versions` tables: the stored macros in insertion
      order, each holding its own versions, and the next value of each table's
      identifier sequence. */
  class MacroTable {
    var macros: seq<Macro>
    var nextMacroId: int
    var nextVersionId: int

    ghost predicate Valid()
      reads this, macros
    {
      && 1 <= nextMacroId && 1 <= nextVersionId
      && DistinctIds(macros)
      && (forall i :: 0 <= i < |macros| ==> 1 <= macros[i].id < nextMacroId)
      && (forall i :: 0 <= i < |macros| ==> macros[i].Valid())
      && (forall i, k :: 0 <= i < |macros| && 0 <= k < |macros[i].versions| ==>
            1 <= macros[i].versions[k].id < nextVersionId)
    }

    /** `init_db`: empty tables whose identifiers start at 1. */
    constructor ()
      ensures Valid()
      ensures macros == [] && nextMacroId == 1 && nextVersionId == 1
    {
      macros := [];
      nextMacroId := 1;
      nextVersionId := 1;
    }

    /** Builds a macro with the next identifier and the given columns, and
        stores it (`Macro(...)`, `session.add`, `commit`). */
    method Insert(title: string, description: string, category: string, isPublic: bool,
                  now: Timestamp) returns (m: Macro)
      requires Valid()
      modifies this
      ensures Valid() && fresh(m)
      ensures macros == old(macros) + [m]
      ensures m.id == old(nextMacroId) && forall n :: n in old(macros) ==> n.id != m.id
      ensures m.title == title && m.description == description && m.category == category
      ensures m.isPublic == isPublic && m.createdAt == now && m.versions == []
      ensures nextMacroId == old(nextMacroId) + 1 && nextVersionId == old(nextVersionId)
    {
      m := new Macro(nextMacroId, title, description, category, isPublic, now);
      macros := macros + [m];
      nextMacroId := nextMacroId + 1;
    }

    /** `save_macro`: stores a new macro and returns its fresh identifier; the
        category defaults to AI_GENERATED and the macro is public by default. */
    method SaveMacro(now: Timestamp, title: string, description: string,
                     category: string := "AI_GENERATED", isPublic: bool := true)
      returns (macroId: int)
      requires Valid()
      modifies this
      ensures Valid()
      ensures |macros| == |old(macros)| + 1 && macros[..|old(macros)|] == old(macros)
      ensures forall m :: m in old(macros) ==> m.id != macroId && m.versions == old(m.versions)
      ensures GetMacroById(macroId) == Some(macros[|old(macros)|])
      ensures var m := macros[|old(macros)|];
                && fresh(m) && m.id == macroId
                && m.title == title && m.description == description && m.category == category
                && m.isPublic == isPublic && m.createdAt == now && m.versions == []
      ensures nextMacroId == old(nextMacroId) + 1 && nextVersionId == old(nextVersionId)
    {
      var m := Insert(title, description, category, isPublic, now);
      macroId := m.id;
      FindByIdLocates(macros, |macros| - 1);
    }

    /** The persistence half of `add_version` (`session.add(version)`, `commit`):
        the version gets the next version identifier and is appended to `m`. */
    method SaveVersion(m: Macro, content: string, now: Timestamp) returns (v: MacroVersion)
      requires Valid() && m in macros
      modifies this`nextVersionId, m`versions
      ensures Valid()
      ensures macros == old(macros) && nextMacroId == old(nextMacroId)
      ensures v.id == old(nextVersionId) && nextVersionId == old(nextVersionId) + 1
      ensures v == MacroVersion(v.id, m.id, |old(m.versions)| + 1, content, now)
      ensures m.versions == [v] + old(m.versions)
    {
      v := m.AddVersion(content, nextVersionId, now);
      nextVersionId := nextVersionId + 1;
    }

    /** `get_macro_by_id`: the stored macro with that identifier, or nothing. */
    function GetMacroById(macroId: int): (r: Option<Macro>)
      reads this
      ensures r.Some? ==> r.value in macros && r.value.id == macroId
      ensures r.None? <==> forall m :: m in macros ==> m.id != macroId
      ensures Valid() ==> forall m :: m in macros && m.id == macroId ==> r == Some(m)
    {
      FindById(macros, macroId)
    }

    /** `get_all_macros`: every stored macro, as often as it is stored, newest first. */
    function GetAllMacros(): (r: seq<Macro>)
      reads this
      ensures multiset(r) == multiset(macros)
      ensures NewestFirst(r)
    {
      SortNewestFirst(macros)
    }

    /** The seeding guard: whether some stored macro has category TEMPLATE. */
    predicate TemplatesExist()
      reads this
      ensures TemplatesExist() <==> exists m :: m in macros && m.category == "TEMPLATE"
    {
      exists i | 0 <= i < |macros| :: macros[i].category == MacroCategory.Template.Value()
    }
  }
}
