/** The two storage backends behind settingsStorage.ts, directoriesStorage.ts
    and indexStatusStorage.ts, and the one save/load protocol the three share:
    try a JSON file under the app-config directory, and on any failure use a
    flat localStorage key instead. */
module ConfigStore {
  import opened Wrappers
  import opened Json

  /** A file-system path, as its segments. */
  type Path = seq<string>

  /** Everything the two backends hold, as one value.
      configDir: what appConfigDir() resolves to, None when it rejects;
      fsAllowed: false when every plugin-fs call rejects (a plain browser);
      dirs, files: the directories and text files under the file system;
      local: the browser's localStorage. */
  datatype Backends = Backends(
    configDir: Option<Path>,
    fsAllowed: bool,
    dirs: set<Path>,
    files: map<Path, Text>,
    local: map<string, Text>)

  /** The outcome of a load promise: it resolves to the parsed value, which
      the `as T` cast passes on unchecked (null included), or it rejects. */
  datatype Loaded = Resolved(json: Json) | Rejected

  function Parent(p: Path): Path
    requires |p| >= 1
  {
    p[..|p| - 1]
  }

  /** Every file sits in an existing directory and no path is both a file and a directory. */
  ghost predicate WellFormed(b: Backends) {
    forall p :: p in b.files ==> |p| >= 1 && Parent(p) in b.dirs && p !in b.dirs
  }

  predicate PrimaryUsable(b: Backends) {
    b.configDir.Some? && b.fsAllowed
  }

  /** `exists(p)`: true for a directory and for a file. */
  predicate PathExists(b: Backends, p: Path) {
    p in b.dirs || p in b.files
  }

  /** The path and all its non-empty prefixes, which mkdir(p, { recursive: true }) creates. */
  function Ancestors(p: Path): (r: set<Path>)
    ensures p != [] ==> p in r
    ensures forall i :: 1 <= i <= |p| ==> p[..i] in r
    ensures forall q :: q in r ==> 1 <= |q| <= |p| && q == p[..|q|]
  {
    assert p != [] ==> p[..|p|] == p;
    set i | 1 <= i <= |p| :: p[..i]
  }

  /** mkdir(p, { recursive: true }): fails without file-system access or when
      the path or one of its prefixes is a file; None is the rejection. */
  function Mkdir(b: Backends, p: Path): (r: Option<Backends>)
    ensures r.Some? ==> r.value == b.(dirs := b.dirs + Ancestors(p))
    ensures r.None? <==> !b.fsAllowed || exists i :: 1 <= i <= |p| && p[..i] in b.files
  {
    if !b.fsAllowed || exists i :: 1 <= i <= |p| && p[..i] in b.files then None
    else Some(b.(dirs := b.dirs + Ancestors(p)))
  }

  /** writeTextFile(p, _) succeeds exactly when its directory exists and p is not a directory. */
  predicate CanWrite(b: Backends, p: Path) {
    b.fsAllowed && |p| >= 1 && Parent(p) in b.dirs && p !in b.dirs
  }

  function SetItem(b: Backends, key: string, t: Text): Backends {
    b.(local := b.local[key := t])
  }

  /** The state after a save of text `t` to `<configDir>/<folder>/<name>`, with
      `key` as the localStorage fallback: resolve the directory; create the
      folder when it does not exist; write the file. Any rejection along the
      way leaves the effects of the earlier steps and writes `key` instead. */
  function SaveSpec(b: Backends, folder: Path, name: string, key: string, t: Text): (r: Backends)
    ensures r.configDir == b.configDir && r.fsAllowed == b.fsAllowed
    ensures b.dirs <= r.dirs && b.files.Keys <= r.files.Keys
    ensures (key in r.local && r.local[key] == t)
            || (PrimaryUsable(b) && b.configDir.value + folder + [name] in r.files && r.files[b.configDir.value + folder + [name]] == t)
  {
    if !PrimaryUsable(b) then SetItem(b, key, t)
    else
      var base := b.configDir.value + folder;
      var made := if PathExists(b, base) then Some(b) else Mkdir(b, base);
      if made.None? then SetItem(b, key, t)
      else if CanWrite(made.value, base + [name]) then made.value.(files := made.value.files[base + [name] := t])
      else SetItem(made.value, key, t)
  }

  /** Whether a save takes the primary path, i.e. ends by writing the file. */
  predicate PrimarySaveSucceeds(b: Backends, folder: Path, name: string) {
    PrimaryUsable(b) &&
    var base := b.configDir.value + folder;
    var made := if PathExists(b, base) then Some(b) else Mkdir(b, base);
    made.Some? && CanWrite(made.value, base + [name])
  }

  /** The outcome of a load of `<configDir>/<rel>` with fallback `key`: the
      parsed file whenever it can be read and parsed, whatever its shape;
      otherwise null when the fallback entry is absent or empty, the parsed
      entry when it is JSON, and a rejection when it is not (that JSON.parse
      is outside the try). */
  function LoadSpec(b: Backends, rel: Path, key: string): (r: Loaded)
    ensures r.Rejected? <==> !(PrimaryUsable(b) && b.configDir.value + rel in b.files && b.files[b.configDir.value + rel].Doc?)
                             && key in b.local && b.local[key].Raw? && b.local[key] != Raw("")
  {
    if PrimaryUsable(b) && b.configDir.value + rel in b.files && b.files[b.configDir.value + rel].Doc? then
      Resolved(b.files[b.configDir.value + rel].json)
    else if key !in b.local || b.local[key] == Raw("") then
      Resolved(JNull)
    else if b.local[key].Doc? then
      Resolved(b.local[key].json)
    else
      Rejected
  }

  /** The file system and localStorage that the storage utilities talk to. */
  class Store {
    var configDir: Option<Path>
    var fsAllowed: bool
    var dirs: set<Path>
    var files: map<Path, Text>
    var local: map<string, Text>

    function State(): Backends
      reads this
    {
      Backends(configDir, fsAllowed, dirs, files, local)
    }

    ghost predicate Valid()
      reads this
    {
      WellFormed(State())
    }

    constructor (b: Backends)
      requires WellFormed(b)
      ensures Valid() && State() == b
    {
      configDir, fsAllowed, dirs, files, local := b.configDir, b.fsAllowed, b.dirs, b.files, b.local;
    }

    method AppConfigDir() returns (r: Option<Path>)
      ensures r == configDir
    {
      r := configDir;
    }

    /** `exists(p)`; None is the rejection. */
    method Exists(p: Path) returns (r: Option<bool>)
      ensures r == if fsAllowed then Some(PathExists(State(), p)) else None
    {
      r := if fsAllowed then Some(p in dirs || p in files) else None;
    }

    method MakeDir(p: Path) returns (ok: bool)
      requires Valid()
      modifies this
      ensures Valid()
      ensures ok == Mkdir(old(State()), p).Some?
      ensures State() == if ok then Mkdir(old(State()), p).value else old(State())
    {
      ok := Mkdir(State(), p).Some?;
      if ok {
        dirs := dirs + Ancestors(p);
      }
    }

    method WriteTextFile(p: Path, t: Text) returns (ok: bool)
      requires Valid()
      modifies this
      ensures Valid()
      ensures ok == CanWrite(old(State()), p)
      ensures State() == if ok then old(State()).(files := old(files)[p := t]) else old(State())
    {
      ok := CanWrite(State(), p);
      if ok {
        files := files[p := t];
      }
    }

    /** `readTextFile(p)`; None is the rejection. */
    method ReadTextFile(p: Path) returns (r: Option<Text>)
      ensures r == if fsAllowed && p in files then Some(files[p]) else None
    {
      r := if fsAllowed && p in files then Some(files[p]) else None;
    }

    method SetLocal(key: string, t: Text)
      requires Valid()
      modifies this
      ensures Valid()
      ensures State() == SetItem(old(State()), key, t)
    {
      local := local[key := t];
    }

    /** `localStorage.getItem(key)`; None is null. */
    method GetLocal(key: string) returns (r: Option<Text>)
      ensures r == if key in local then Some(local[key]) else None
    {
      r := if key in local then Some(local[key]) else None;
    }

    /** The try/catch of every save: never rejects. */
    method Save(folder: Path, name: string, key: string, t: Text)
      requires Valid()
      modifies this
      ensures Valid()
      ensures State() == SaveSpec(old(State()), folder, name, key, t)
    {
      var dir := AppConfigDir();
      if dir.None? {
        SetLocal(key, t);
        return;
      }
      var base := dir.value + folder;
      var there := Exists(base);
      if there.None? {
        SetLocal(key, t);
        return;
      }
      if !there.value {
        var made := MakeDir(base);
        if !made {
          SetLocal(key, t);
          return;
        }
      }
      var written := WriteTextFile(base + [name], t);
      if !written {
        SetLocal(key, t);
      }
    }

    /** The try/catch of every load: the file first, then the fallback key. */
    method Load(rel: Path, key: string) returns (r: Loaded)
      ensures r == LoadSpec(State(), rel, key)
    {
      var dir := AppConfigDir();
      if dir.Some? {
        var content := ReadTextFile(dir.value + rel);
        if content.Some? && content.value.Doc? {
          return Resolved(content.value.json);
        }
      }
      var ls := GetLocal(key);
      if ls.None? || ls.value == Raw("") {
        return Resolved(JNull);
      }
      if ls.value.Doc? {
        return Resolved(ls.value.json);
      }
      return Rejected;
    }
  }

  // ---- properties of the protocol ----

  /** A save keeps the backends well formed. */
  lemma {:induction false} SaveKeepsWellFormed(b: Backends, folder: Path, name: string, key: string, t: Text)
    requires WellFormed(b)
    ensures WellFormed(SaveSpec(b, folder, name, key, t))
  {
    if PrimaryUsable(b) {
      var base := b.configDir.value + folder;
      if !PathExists(b, base) && Mkdir(b, base).Some? {
        var m := Mkdir(b, base).value;
        assert forall p :: p in m.files ==> p !in Ancestors(base);
      }
    }
  }

  /** A save stores exactly the given text: in the file when the primary path
      succeeds, and otherwise under the fallback key. */
  lemma SaveStoresText(b: Backends, folder: Path, name: string, key: string, t: Text)
    ensures var after := SaveSpec(b, folder, name, key, t);
      if PrimarySaveSucceeds(b, folder, name) then
        after.files == b.files[b.configDir.value + folder + [name] := t] && after.local == b.local
      else
        after.local == b.local[key := t] && after.files == b.files
  {
    if PrimaryUsable(b) {
      var base := b.configDir.value + folder;
      var made := if PathExists(b, base) then Some(b) else Mkdir(b, base);
      if made.Some? {
        assert made.value.files == b.files && made.value.local == b.local;
      }
    }
  }

  /** The folder is created only when nothing exists at its path, and then with all its ancestors. */
  lemma SaveCreatesFolderOnlyWhenMissing(b: Backends, folder: Path, name: string, key: string, t: Text)
    requires PrimaryUsable(b)
    ensures var base := b.configDir.value + folder;
      var after := SaveSpec(b, folder, name, key, t);
      (PathExists(b, base) ==> after.dirs == b.dirs)
      && (!PathExists(b, base) && b.fsAllowed && (forall i :: 1 <= i <= |base| ==> base[..i] !in b.files)
          ==> after.dirs == b.dirs + Ancestors(base))
  {
  }

  /** Round trip: with unchanged backend availability, a load after a save
      gives back the saved document, whichever backend took it. */
  lemma {:induction false} SaveThenLoad(b: Backends, folder: Path, name: string, key: string, t: Text)
    requires WellFormed(b)
    requires t.Doc?
    ensures LoadSpec(SaveSpec(b, folder, name, key, t), folder + [name], key) == Resolved(t.json)
  {
    var after := SaveSpec(b, folder, name, key, t);
    if PrimaryUsable(b) {
      var dir := b.configDir.value;
      var base := dir + folder;
      var file := base + [name];
      assert dir + (folder + [name]) == file;
      assert Parent(file) == base;
      var made := if PathExists(b, base) then Some(b) else Mkdir(b, base);
      if made.None? {
        // a file there would put `base` among the directories, so `base` would exist
        assert after == SetItem(b, key, t);
        assert file !in b.files;
      } else if !CanWrite(made.value, file) {
        SaveKeepsWellFormed(b, folder, name, key, t);
        assert after == SetItem(made.value, key, t);
        assert made.value.files == after.files;
        assert file !in after.files;
      } else {
        assert after.files[file] == t;
      }
    }
  }

  /** A successful primary save leaves localStorage as it was, so once the
      file system becomes unavailable a load serves whatever older value the
      fallback key still holds, not the value just saved. */
  lemma PrimarySaveLeavesFallbackStale(b: Backends, folder: Path, name: string, key: string, t: Text)
    requires PrimarySaveSucceeds(b, folder, name)
    ensures SaveSpec(b, folder, name, key, t).local == b.local
    ensures LoadSpec(SaveSpec(b, folder, name, key, t).(fsAllowed := false), folder + [name], key)
         == LoadSpec(b.(fsAllowed := false), folder + [name], key)
  {
    SaveStoresText(b, folder, name, key, t);
  }
}
