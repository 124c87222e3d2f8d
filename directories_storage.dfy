/** src/utils/directoriesStorage.ts: the watched-directory list in
    `<configDir>/directories.json`, with the localStorage key
    `lunary.directories` as fallback. */
module DirectoriesStorage {
  import opened Wrappers
  import opened Types
  import opened Json
  import opened ConfigStore

  const LsKey := "lunary.directories"
  const FileName := "directories.json"

  function SaveDirectoriesSpec(b: Backends, dirs: seq<DirectoryConfig>): Backends {
    SaveSpec(b, [], FileName, LsKey, EncodeDirectories(dirs))
  }

  function LoadDirectoriesSpec(b: Backends): Loaded {
    LoadSpec(b, [FileName], LsKey)
  }

  /** The value a load yields, when the loaded value has its shape. */
  function LoadedDirectories(l: Loaded): (r: Option<seq<DirectoryConfig>>)
    ensures r.Some? ==> l.Resolved? && l.json != JNull
  {
    if l.Resolved? then DecodeDirectories(Doc(l.json)) else None
  }

  method SaveDirectories(store: Store, dirs: seq<DirectoryConfig>)
    requires store.Valid()
    modifies store
    ensures store.Valid()
    ensures store.State() == SaveDirectoriesSpec(old(store.State()), dirs)
  {
    store.Save([], FileName, LsKey, EncodeDirectories(dirs));
  }

  method LoadDirectories(store: Store) returns (r: Loaded)
    ensures r == LoadDirectoriesSpec(store.State())
  {
    r := store.Load([FileName], LsKey);
  }

  /** A successful primary save writes `<configDir>/directories.json` and does
      not update the fallback key; otherwise the list goes under
      `lunary.directories`. */
  lemma SaveDirectoriesTarget(b: Backends, dirs: seq<DirectoryConfig>)
    ensures var after := SaveDirectoriesSpec(b, dirs);
      if PrimarySaveSucceeds(b, [], FileName) then
        after.files == b.files[b.configDir.value + [FileName] := EncodeDirectories(dirs)] && after.local == b.local
      else
        after.local == b.local[LsKey := EncodeDirectories(dirs)] && after.files == b.files
  {
    SaveStoresText(b, [], FileName, LsKey, EncodeDirectories(dirs));
    if PrimaryUsable(b) {
      assert b.configDir.value + [] == b.configDir.value;
    }
  }

  /** save-then-load under unchanged availability returns the same list, in order. */
  lemma DirectoriesSaveThenLoad(b: Backends, dirs: seq<DirectoryConfig>)
    requires WellFormed(b)
    ensures LoadDirectoriesSpec(SaveDirectoriesSpec(b, dirs)) == Resolved(EncodeDirectories(dirs).json)
    ensures LoadedDirectories(LoadDirectoriesSpec(SaveDirectoriesSpec(b, dirs))) == Some(dirs)
  {
    var t := EncodeDirectories(dirs);
    DirectoriesRoundTrip(dirs);
    SaveThenLoad(b, [], FileName, LsKey, t);
    assert [] + [FileName] == [FileName];
  }

  /** Without a readable file, an absent or empty fallback entry, or one
      holding JSON null, loads as null. */
  lemma MissingFallbackIsNull(b: Backends)
    requires !PrimaryUsable(b)
    requires LsKey !in b.local || b.local[LsKey] == Raw("") || b.local[LsKey] == Doc(JNull)
    ensures LoadDirectoriesSpec(b) == Resolved(JNull)
    ensures LoadedDirectories(LoadDirectoriesSpec(b)).None?
  {
  }
}
