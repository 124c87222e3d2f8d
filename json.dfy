/** JSON.stringify / JSON.parse for the three persisted documents. A stored
    text is either a well-formed JSON document, kept as its tree, or a string
    that JSON.parse rejects. Encoding a record and decoding it again gives the
    record back (the lemmas at the end). */
module Json {
  import opened Wrappers
  import opened Types
  import opened Strings

  datatype Json =
    | JNull
    | JBool(b: bool)
    | JNum(n: real)
    | JStr(s: string)
    | JArr(items: seq<Json>)
    | JObj(members: seq<(string, Json)>)

  /** What a file or a localStorage entry holds. `Raw` stands for text that
      is not valid JSON; the empty string is `Raw("")`. */
  datatype Text = Doc(json: Json) | Raw(chars: string)

  /** JSON.parse: fails exactly on text that is not valid JSON. */
  function Parse(t: Text): (r: Option<Json>)
    ensures r.Some? <==> t.Doc?
  {
    match t
    case Doc(j) => Some(j)
    case Raw(_) => None
  }

  /** Property access on a parsed object: when a key is repeated, JSON.parse
      keeps the last value. */
  function Member(ms: seq<(string, Json)>, k: string): (r: Option<Json>)
    ensures r.Some? ==> exists i :: 0 <= i < |ms| && ms[i] == (k, r.value)
    ensures r.None? ==> forall i :: 0 <= i < |ms| ==> ms[i].0 != k
  {
    if ms == [] then None
    else if ms[|ms| - 1].0 == k then Some(ms[|ms| - 1].1)
    else Member(ms[..|ms| - 1], k)
  }

  function Field(j: Json, k: string): Option<Json> {
    if j.JObj? then Member(j.members, k) else None
  }

  /** Optional chaining `value?.ui?.<k>` on a parsed value. */
  function UiField(j: Json, k: string): (r: Option<Json>)
    ensures r.Some? ==> j.JObj? && Field(j, "ui").Some? && Field(Field(j, "ui").value, k) == r
  {
    var ui := Field(j, "ui");
    if ui.Some? then Field(ui.value, k) else None
  }

  /** JavaScript truthiness of a parsed value: null, false, 0 and "" are falsy. */
  predicate JsTruthy(j: Json) {
    match j
    case JNull => false
    case JBool(b) => b
    case JNum(n) => n != 0.0
    case JStr(s) => s != ""
    case _ => true
  }

  // ---- object spread ----

  /** Every member named k takes the value v; keys and order are kept. */
  function Replace(ms: seq<(string, Json)>, k: string, v: Json): (r: seq<(string, Json)>)
    ensures |r| == |ms|
  {
    seq(|ms|, i requires 0 <= i < |ms| => if ms[i].0 == k then (k, v) else ms[i])
  }

  lemma {:induction false} MemberReplace(ms: seq<(string, Json)>, k: string, v: Json)
    ensures forall k' :: Member(Replace(ms, k, v), k') == if k' == k && Member(ms, k).Some? then Some(v) else Member(ms, k')
  {
    if ms != [] {
      var init := ms[..|ms| - 1];
      MemberReplace(init, k, v);
      assert Replace(ms, k, v)[..|ms| - 1] == Replace(init, k, v);
    }
  }

  /** `{...o, k: v}` on the members of o: k takes the value v, in its old
      place when o has it and last otherwise; every other key keeps its value. */
  function Put(ms: seq<(string, Json)>, k: string, v: Json): (r: seq<(string, Json)>)
    ensures Member(r, k) == Some(v)
    ensures forall k' :: k' != k ==> Member(r, k') == Member(ms, k')
  {
    if Member(ms, k).Some? then
      MemberReplace(ms, k, v);
      Replace(ms, k, v)
    else
      assert forall k' :: k' != k ==> Member(ms + [(k, v)], k') == Member(ms, k') by {
        assert (ms + [(k, v)])[..|ms|] == ms;
      }
      ms + [(k, v)]
  }

  /** The members `{...x}` copies out of a value: an object's own members,
      an array's elements and a string's characters under their decimal
      indices, and nothing from undefined, null, booleans or numbers. */
  function Spread(x: Option<Json>): (r: seq<(string, Json)>)
    ensures x.Some? && x.value.JObj? ==> r == x.value.members
    ensures x.Some? && x.value.JArr? ==> |r| == |x.value.items|
    ensures x.Some? && x.value.JStr? ==> |r| == |x.value.s|
    ensures x.None? || !(x.value.JObj? || x.value.JArr? || x.value.JStr?) ==> r == []
  {
    if x.None? then []
    else
      match x.value
      case JObj(ms) => ms
      case JArr(items) => seq(|items|, i requires 0 <= i < |items| => (IntToString(i), items[i]))
      case JStr(chars) => seq(|chars|, i requires 0 <= i < |chars| => (IntToString(i), JStr([chars[i]])))
      case _ => []
  }

  function AsInt(j: Option<Json>): (r: Option<int>)
    ensures r.Some? ==> j == Some(JNum(r.value as real))
  {
    if j.Some? && j.value.JNum? && j.value.n == j.value.n.Floor as real then Some(j.value.n.Floor) else None
  }

  function AsReal(j: Option<Json>): Option<real> {
    if j.Some? && j.value.JNum? then Some(j.value.n) else None
  }

  function AsBool(j: Option<Json>): Option<bool> {
    if j.Some? && j.value.JBool? then Some(j.value.b) else None
  }

  function AsString(j: Option<Json>): Option<string> {
    if j.Some? && j.value.JStr? then Some(j.value.s) else None
  }

  function AsStrings(items: seq<Json>): (r: Option<seq<string>>)
    ensures r.Some? ==> |r.value| == |items|
  {
    if items == [] then Some([])
    else
      match (AsStrings(items[..|items| - 1]), items[|items| - 1])
      case (Some(init), JStr(last)) => Some(init + [last])
      case _ => None
  }

  function StringsJson(xs: seq<string>): (r: seq<Json>)
    ensures |r| == |xs|
  {
    if xs == [] then [] else StringsJson(xs[..|xs| - 1]) + [JStr(xs[|xs| - 1])]
  }

  function ThemeName(m: ThemeMode): string {
    match m
    case Light => "light"
    case Dark => "dark"
    case System => "system"
  }

  function ThemeOf(s: Option<string>): (r: Option<ThemeMode>)
    ensures r.Some? ==> s == Some(ThemeName(r.value))
  {
    if s == Some("light") then Some(Light)
    else if s == Some("dark") then Some(Dark)
    else if s == Some("system") then Some(System)
    else None
  }

  // ---- AppSettings ----

  function SearchJson(s: SearchSettings): Json {
    JObj([
      ("resultsPerPage", JNum(s.resultsPerPage as real)),
      ("matchPrecision", JNum(s.matchPrecision)),
      ("enableHighlighting", JBool(s.enableHighlighting))])
  }

  function IndexingJson(s: IndexingSettings): Json {
    JObj([
      ("autoUpdate", JBool(s.autoUpdate)),
      ("updateInterval", JNum(s.updateInterval as real)),
      ("excludePatterns", JArr(StringsJson(s.excludePatterns))),
      ("maxFileSize", JNum(s.maxFileSize as real))])
  }

  function UiJson(s: UiSettings): Json {
    JObj([
      ("theme", JStr(ThemeName(s.theme))),
      ("language", JStr(s.language)),
      ("showThumbnails", JBool(s.showThumbnails))])
  }

  function SettingsJson(s: AppSettings): Json {
    JObj([("search", SearchJson(s.search)), ("indexing", IndexingJson(s.indexing)), ("ui", UiJson(s.ui))])
  }

  function EncodeSettings(s: AppSettings): (t: Text)
    ensures t.Doc?
  {
    Doc(SettingsJson(s))
  }

  function SearchOf(j: Option<Json>): Option<SearchSettings> {
    if j.None? then None
    else
      var perPage := AsInt(Field(j.value, "resultsPerPage"));
      var precision := AsReal(Field(j.value, "matchPrecision"));
      var highlight := AsBool(Field(j.value, "enableHighlighting"));
      if perPage.None? || precision.None? || highlight.None? then None
      else Some(SearchSettings(perPage.value, precision.value, highlight.value))
  }

  function IndexingOf(j: Option<Json>): Option<IndexingSettings> {
    if j.None? then None
    else
      var auto := AsBool(Field(j.value, "autoUpdate"));
      var interval := AsInt(Field(j.value, "updateInterval"));
      var patterns := Field(j.value, "excludePatterns");
      var maxSize := AsInt(Field(j.value, "maxFileSize"));
      if auto.None? || interval.None? || patterns.None? || !patterns.value.JArr?
         || AsStrings(patterns.value.items).None? || maxSize.None?
      then None
      else Some(IndexingSettings(auto.value, interval.value, AsStrings(patterns.value.items).value, maxSize.value))
  }

  function UiOf(j: Option<Json>): Option<UiSettings> {
    if j.None? then None
    else
      var theme := ThemeOf(AsString(Field(j.value, "theme")));
      var language := AsString(Field(j.value, "language"));
      var thumbs := AsBool(Field(j.value, "showThumbnails"));
      if theme.None? || language.None? || thumbs.None? then None
      else Some(UiSettings(theme.value, language.value, thumbs.value))
  }

  /** Only a JSON object holding all three sections decodes. */
  function DecodeSettings(t: Text): (r: Option<AppSettings>)
    ensures r.Some? ==> t.Doc? && t.json.JObj?
    ensures r.Some? ==> Field(t.json, "search").Some? && Field(t.json, "indexing").Some? && Field(t.json, "ui").Some?
  {
    match Parse(t)
    case None => None
    case Some(j) =>
      var search := SearchOf(Field(j, "search"));
      var indexing := IndexingOf(Field(j, "indexing"));
      var ui := UiOf(Field(j, "ui"));
      if search.None? || indexing.None? || ui.None? then None
      else Some(AppSettings(search.value, indexing.value, ui.value))
  }

  // ---- DirectoryConfig[] ----

  function DirectoryJson(d: DirectoryConfig): Json {
    JObj([
      ("path", JStr(d.path)),
      ("enabled", JBool(d.enabled)),
      ("recursive", JBool(d.recursive)),
      ("lastIndexed", JNum(d.lastIndexed as real))])
  }

  function DirectoryOf(j: Json): Option<DirectoryConfig> {
    var path := AsString(Field(j, "path"));
    var enabled := AsBool(Field(j, "enabled"));
    var recursive := AsBool(Field(j, "recursive"));
    var last := AsInt(Field(j, "lastIndexed"));
    if path.None? || enabled.None? || recursive.None? || last.None? then None
    else Some(DirectoryConfig(path.value, enabled.value, recursive.value, last.value))
  }

  function DirectoriesJson(ds: seq<DirectoryConfig>): (r: seq<Json>)
    ensures |r| == |ds|
  {
    if ds == [] then [] else DirectoriesJson(ds[..|ds| - 1]) + [DirectoryJson(ds[|ds| - 1])]
  }

  function DirectoriesOf(items: seq<Json>): (r: Option<seq<DirectoryConfig>>)
    ensures r.Some? ==> |r.value| == |items|
  {
    if items == [] then Some([])
    else
      match (DirectoriesOf(items[..|items| - 1]), DirectoryOf(items[|items| - 1]))
      case (Some(init), Some(last)) => Some(init + [last])
      case _ => None
  }

  function EncodeDirectories(ds: seq<DirectoryConfig>): (t: Text)
    ensures t.Doc?
  {
    Doc(JArr(DirectoriesJson(ds)))
  }

  /** Only a JSON array decodes, one directory per element. */
  function DecodeDirectories(t: Text): (r: Option<seq<DirectoryConfig>>)
    ensures r.Some? ==> t.Doc? && t.json.JArr? && |r.value| == |t.json.items|
  {
    match Parse(t)
    case Some(JArr(items)) => DirectoriesOf(items)
    case _ => None
  }

  // ---- IndexStatus ----

  function StatusJson(s: IndexStatus): Json {
    JObj([
      ("isIndexing", JBool(s.isIndexing)),
      ("progress", JNum(s.progress as real)),
      ("totalFiles", JNum(s.totalFiles as real)),
      ("indexedFiles", JNum(s.indexedFiles as real)),
      ("indexSize", JNum(s.indexSize as real)),
      ("lastUpdated", JNum(s.lastUpdated as real))])
  }

  function EncodeIndexStatus(s: IndexStatus): (t: Text)
    ensures t.Doc?
  {
    Doc(StatusJson(s))
  }

  /** Only a JSON object decodes, and each field is the number or flag stored
      under its name. */
  function DecodeIndexStatus(t: Text): (r: Option<IndexStatus>)
    ensures r.Some? ==> t.Doc? && t.json.JObj?
    ensures r.Some? ==>
      && Field(t.json, "isIndexing") == Some(JBool(r.value.isIndexing))
      && Field(t.json, "progress") == Some(JNum(r.value.progress as real))
      && Field(t.json, "totalFiles") == Some(JNum(r.value.totalFiles as real))
      && Field(t.json, "indexedFiles") == Some(JNum(r.value.indexedFiles as real))
      && Field(t.json, "indexSize") == Some(JNum(r.value.indexSize as real))
      && Field(t.json, "lastUpdated") == Some(JNum(r.value.lastUpdated as real))
  {
    match Parse(t)
    case None => None
    case Some(j) =>
      var indexing := AsBool(Field(j, "isIndexing"));
      var progress := AsInt(Field(j, "progress"));
      var total := AsInt(Field(j, "totalFiles"));
      var indexed := AsInt(Field(j, "indexedFiles"));
      var size := AsInt(Field(j, "indexSize"));
      var updated := AsInt(Field(j, "lastUpdated"));
      if indexing.None? || progress.None? || total.None? || indexed.None? || size.None? || updated.None?
      then None
      else Some(IndexStatus(indexing.value, progress.value, total.value, indexed.value, size.value, updated.value))
  }

  // ---- round trips ----

  /** A value that decodes to a settings record holds that record's theme
      name and language under `ui`. */
  lemma DecodedUiFields(j: Json, s: AppSettings)
    requires DecodeSettings(Doc(j)) == Some(s)
    ensures UiField(j, "theme") == Some(JStr(ThemeName(s.ui.theme)))
    ensures UiField(j, "language") == Some(JStr(s.ui.language))
  {
  }

  lemma {:induction false} StringsRoundTrip(xs: seq<string>)
    ensures AsStrings(StringsJson(xs)) == Some(xs)
  {
    if xs != [] {
      var init := xs[..|xs| - 1];
      StringsRoundTrip(init);
      assert StringsJson(xs)[..|xs| - 1] == StringsJson(init);
      assert xs == init + [xs[|xs| - 1]];
    }
  }

  predicate DistinctKeys(ms: seq<(string, Json)>) {
    forall i, j :: 0 <= i < j < |ms| ==> ms[i].0 != ms[j].0
  }

  /** In an object whose keys are distinct, every member is found by its key. */
  lemma {:induction false} MembersFound(ms: seq<(string, Json)>)
    requires DistinctKeys(ms)
    ensures forall i :: 0 <= i < |ms| ==> Member(ms, ms[i].0) == Some(ms[i].1)
  {
    if ms != [] {
      var init := ms[..|ms| - 1];
      MembersFound(init);
      forall i | 0 <= i < |ms| ensures Member(ms, ms[i].0) == Some(ms[i].1) {
        if i < |ms| - 1 {
          assert init[i] == ms[i];
        }
      }
    }
  }

  lemma SearchRoundTrip(s: SearchSettings)
    ensures SearchOf(Some(SearchJson(s))) == Some(s)
  {
    var ms := SearchJson(s).members;
    assert DistinctKeys(ms);
    MembersFound(ms);
    assert ms[0].0 == "resultsPerPage" && ms[1].0 == "matchPrecision" && ms[2].0 == "enableHighlighting";
  }

  lemma IndexingRoundTrip(s: IndexingSettings)
    ensures IndexingOf(Some(IndexingJson(s))) == Some(s)
  {
    var ms := IndexingJson(s).members;
    assert DistinctKeys(ms);
    MembersFound(ms);
    assert ms[0].0 == "autoUpdate" && ms[1].0 == "updateInterval"
      && ms[2].0 == "excludePatterns" && ms[3].0 == "maxFileSize";
    StringsRoundTrip(s.excludePatterns);
  }

  lemma UiRoundTrip(s: UiSettings)
    ensures UiOf(Some(UiJson(s))) == Some(s)
  {
    var ms := UiJson(s).members;
    assert DistinctKeys(ms);
    MembersFound(ms);
    assert ms[0].0 == "theme" && ms[1].0 == "language" && ms[2].0 == "showThumbnails";
  }

  lemma SettingsRoundTrip(s: AppSettings)
    ensures DecodeSettings(EncodeSettings(s)) == Some(s)
  {
    var ms := SettingsJson(s).members;
    assert DistinctKeys(ms);
    MembersFound(ms);
    assert ms[0].0 == "search" && ms[1].0 == "indexing" && ms[2].0 == "ui";
    SearchRoundTrip(s.search);
    IndexingRoundTrip(s.indexing);
    UiRoundTrip(s.ui);
  }

  lemma DirectoryRoundTrip(d: DirectoryConfig)
    ensures DirectoryOf(DirectoryJson(d)) == Some(d)
  {
    var ms := DirectoryJson(d).members;
    assert DistinctKeys(ms);
    MembersFound(ms);
    assert ms[0].0 == "path" && ms[1].0 == "enabled" && ms[2].0 == "recursive" && ms[3].0 == "lastIndexed";
  }

  lemma {:induction false} DirectoryListRoundTrip(ds: seq<DirectoryConfig>)
    ensures DirectoriesOf(DirectoriesJson(ds)) == Some(ds)
  {
    if ds != [] {
      var init, last := ds[..|ds| - 1], ds[|ds| - 1];
      var js := DirectoriesJson(ds);
      assert js == DirectoriesJson(init) + [DirectoryJson(last)];
      assert js[..|js| - 1] == DirectoriesJson(init);
      DirectoryListRoundTrip(init);
      DirectoryRoundTrip(last);
      assert DirectoriesOf(js) == Some(init + [last]);
      assert init + [last] == ds;
    }
  }

  lemma DirectoriesRoundTrip(ds: seq<DirectoryConfig>)
    ensures DecodeDirectories(EncodeDirectories(ds)) == Some(ds)
  {
    DirectoryListRoundTrip(ds);
  }

  lemma IndexStatusRoundTrip(s: IndexStatus)
    ensures DecodeIndexStatus(EncodeIndexStatus(s)) == Some(s)
  {
    var ms := StatusJson(s).members;
    assert DistinctKeys(ms);
    MembersFound(ms);
    assert ms[0].0 == "isIndexing" && ms[1].0 == "progress" && ms[2].0 == "totalFiles"
      && ms[3].0 == "indexedFiles" && ms[4].0 == "indexSize" && ms[5].0 == "lastUpdated";
  }
}
