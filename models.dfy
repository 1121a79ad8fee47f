/** The macro data model: the category enumeration with its display names,
    the immutable version snapshot, and the macro record that owns its
    version history (models.py). */
module Models {

  datatype Option<T> = None | Some(value: T)

  /** A clock reading. Only its order matters; its ISO-8601 text is not modelled. */
  type Timestamp = int

  /** A value of the dictionaries that the `to_dict` projections build. */
  datatype Json = Null | Int(i: int) | Str(s: string) | Bool(b: bool) | Time(t: Timestamp)

  /** The closed set of macro categories. */
  datatype MacroCategory =
    | Template | AiGenerated | DataProcessing | Formatting
    | Calculation | Automation | Reporting | Custom
  {
    /** The string the member stands for; the `category` column stores this text. */
    function Value(): string {
      match this
      case Template => "TEMPLATE"
      case AiGenerated => "AI_GENERATED"
      case DataProcessing => "DATA_PROCESSING"
      case Formatting => "FORMATTING"
      case Calculation => "CALCULATION"
      case Automation => "AUTOMATION"
      case Reporting => "REPORTING"
      case Custom => "CUSTOM"
    }

    /** The Japanese display label of the category. */
    function JapaneseLabel(): string {
      match this
      case Template => "テンプレート"
      case AiGenerated => "AI生成"
      case DataProcessing => "データ処理"
      case Formatting => "フォーマット"
      case Calculation => "計算"
      case Automation => "自動化"
      case Reporting => "レポート"
      case Custom => "カスタム"
    }
  }

  /** The category whose value is `s`, if any: a string-valued enumeration
      member compares equal to its text. */
  function ParseCategory(s: string): (r: Option<MacroCategory>)
    ensures r.Some? ==> r.value.Value() == s
    ensures r.None? <==> forall c: MacroCategory :: c.Value() != s
  {
    if s == "TEMPLATE" then Some(Template)
    else if s == "AI_GENERATED" then Some(AiGenerated)
    else if s == "DATA_PROCESSING" then Some(DataProcessing)
    else if s == "FORMATTING" then Some(Formatting)
    else if s == "CALCULATION" then Some(Calculation)
    else if s == "AUTOMATION" then Some(Automation)
    else if s == "REPORTING" then Some(Reporting)
    else if s == "CUSTOM" then Some(Custom)
    else None
  }

  /** `MacroCategory.get_japanese_name`: the label of a known category,
      any other value unchanged. */
  function JapaneseName(category: string): (name: string)
    ensures forall c: MacroCategory :: c.Value() == category ==> name == c.JapaneseLabel()
    ensures (forall c: MacroCategory :: c.Value() != category) ==> name == category
  {
    match ParseCategory(category)
    case Some(c) => c.JapaneseLabel()
    case None => category
  }

  /** One immutable snapshot of a macro's content. */
  datatype MacroVersion = MacroVersion(
    id: int,
    macroId: int,
    versionNumber: int,
    content: string,
    createdAt: Timestamp)
  {
    /** `MacroVersion.to_dict`: a projection that loses nothing. */
    function ToDict(): (d: map<string, Json>)
      ensures d.Keys == {"id", "macro_id", "version_number", "content", "created_at"}
      ensures VersionFromDict(d) == Some(this)
    {
      map["id" := Int(id),
          "macro_id" := Int(macroId),
          "version_number" := Int(versionNumber),
          "content" := Str(content),
          "created_at" := Time(createdAt)]
    }
  }

  /** Reads a version back from its dictionary; the inverse of `MacroVersion.ToDict`. */
  ghost function VersionFromDict(d: map<string, Json>): Option<MacroVersion> {
    if && "id" in d && d["id"].Int?
       && "macro_id" in d && d["macro_id"].Int?
       && "version_number" in d && d["version_number"].Int?
       && "content" in d && d["content"].Str?
       && "created_at" in d && d["created_at"].Time?
    then Some(MacroVersion(d["id"].i, d["macro_id"].i, d["version_number"].i,
                           d["content"].s, d["created_at"].t))
    else None
  }

  /** The version history of macro `macroId`, newest first: the k-th entry
      from the head carries number |vs| - k, so the numbers run N, N-1, ..., 1,
      and every entry belongs to the macro. */
  ghost predicate History(vs: seq<MacroVersion>, macroId: int) {
    forall k :: 0 <= k < |vs| ==> vs[k].versionNumber == |vs| - k && vs[k].macroId == macroId
  }

  /** The set of version numbers used in `vs`. */
  ghost function VersionNumbers(vs: seq<MacroVersion>): set<int> {
    set v | v in vs :: v.versionNumber
  }

  /** The version numbers of a history are exactly 1..N, each used once. */
  lemma {:induction false} HistoryNumbersOneToN(vs: seq<MacroVersion>, macroId: int)
    requires History(vs, macroId)
    ensures forall n :: n in VersionNumbers(vs) <==> 1 <= n <= |vs|
    ensures forall i, j :: 0 <= i < |vs| && 0 <= j < |vs| && vs[i].versionNumber == vs[j].versionNumber ==> i == j
  {
    forall n | 1 <= n <= |vs| ensures n in VersionNumbers(vs) {
      assert vs[|vs| - n] in vs;
    }
    forall n | n in VersionNumbers(vs) ensures 1 <= n <= |vs| {
      var v :| v in vs && v.versionNumber == n;
      var k :| 0 <= k < |vs| && vs[k] == v;
    }
  }

  /** A macro: a categorised automation script that owns its versions. */
  class Macro {
    const id: int
    const title: string
    const description: string
    const category: string
    const createdAt: Timestamp
    const isPublic: bool
    /** The `versions` relationship, ordered by descending version number. */
    var versions: seq<MacroVersion>

    ghost predicate Valid()
      reads this
    {
      History(versions, id)
    }

    /** A new record, not yet holding any version. */
    constructor (id: int, title: string, description: string, category: string,
                 isPublic: bool, createdAt: Timestamp)
      ensures this.id == id && this.title == title && this.description == description
      ensures this.category == category && this.isPublic == isPublic && this.createdAt == createdAt
      ensures versions == [] && Valid()
    {
      this.id := id;
      this.title := title;
      this.description := description;
      this.category := category;
      this.isPublic := isPublic;
      this.createdAt := createdAt;
      versions := [];
    }

    /** `get_latest_version`: nothing for a macro without versions, otherwise
        the version with the greatest number. */
    function LatestVersion(): (latest: Option<MacroVersion>)
      reads this
      ensures latest.None? <==> versions == []
      ensures latest.Some? ==> latest.value in versions
      ensures latest.Some? && Valid() ==>
                latest.value.versionNumber == |versions|
                && forall v :: v in versions ==> v.versionNumber <= latest.value.versionNumber
    {
      if versions == [] then None else Some(versions[0])
    }

    /** `add_version`: numbers the new version one past the latest (1 when there
        is none) and puts it at the head of the history. The version's id and
        creation time come from the store and its clock. */
    method AddVersion(content: string, versionId: int, now: Timestamp) returns (v: MacroVersion)
      requires Valid()
      modifies this`versions
      ensures Valid()
      ensures v == MacroVersion(versionId, id, |old(versions)| + 1, content, now)
      ensures versions == [v] + old(versions)
      ensures LatestVersion() == Some(v)
    {
      var latest := LatestVersion();
      var next := if latest.None? then 1 else latest.value.versionNumber + 1;
      v := MacroVersion(versionId, id, next, content, now);
      versions := [v] + versions;
    }

    /** `Macro.to_dict`: the record's columns together with the number and the
        content of its latest version, both null when there is none. */
    function ToDict(): (d: map<string, Json>)
      reads this
      ensures d.Keys == {"id", "title", "description", "category", "created_at",
                         "is_public", "latest_version", "content"}
      ensures d["id"] == Int(id) && d["title"] == Str(title)
      ensures d["description"] == Str(description) && d["category"] == Str(category)
      ensures d["created_at"] == Time(createdAt) && d["is_public"] == Bool(isPublic)
      ensures d["latest_version"] == Null <==> versions == []
      ensures d["content"] == Null <==> versions == []
      ensures Valid() && versions != [] ==>
                d["latest_version"] == Int(|versions|)
                && forall v :: v in versions && v.versionNumber == |versions| ==> d["content"] == Str(v.content)
    {
      var latest := LatestVersion();
      map["id" := Int(id),
          "title" := Str(title),
          "description" := Str(description),
          "category" := Str(category),
          "created_at" := Time(createdAt),
          "is_public" := Bool(isPublic),
          "latest_version" := if latest.Some? then Int(latest.value.versionNumber) else Null,
          "content" := if latest.Some? then Str(latest.value.content) else Null]
    }
  }
}
