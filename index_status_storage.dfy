/** src/utils/indexStatusStorage.ts: the index status in
    `<configDir>/indexes/default/meta.json`, with the localStorage key
    `lunary.indexStatus` as fallback. */
module IndexStatusStorage {
  import opened Wrappers
  import opened Types
  import opened Json
  import opened ConfigStore

  const LsKey := "lunary.indexStatus"
  const Folder: Path := ["indexes", "default"]
  const FileName := "meta.json"

  function SaveIndexStatusSpec(b: Backends, status: IndexStatus): Backends {
    SaveSpec(b, Folder, FileName, LsKey, EncodeIndexStatus(status))
  }

  function LoadIndexStatusSpec(b: Backends): Loaded {
    LoadSpec(b, ["indexes", "default", FileName], LsKey)
  }

  /** The value a load yields, when the loaded value has its shape. */
  function LoadedIndexStatus(l: Loaded): (r: Option<IndexStatus>)
    ensures r.Some? ==> l.Resolved? && l.json != JNull
  {
    if l.Resolved? then DecodeIndexStatus(Doc(l.json)) else None
  }

  method SaveIndexStatus(store: Store, status: IndexStatus)
    requires store.Valid()
    modifies store
    ensures store.Valid()
    ensures store.State() == SaveIndexStatusSpec(old(store.State()), status)
  {
    store.Save(Folder, FileName, LsKey, EncodeIndexStatus(status));
  }

  method LoadIndexStatus(store: Store) returns (r: Loaded)
    ensures r == LoadIndexStatusSpec(store.State())
  {
    r := store.Load(["indexes", "default", FileName], LsKey);
  }

  /** A successful primary save writes `<configDir>/indexes/default/meta.json`,
      creating `indexes/default` and its ancestors when nothing is at that
      path; otherwise the status goes under `lunary.indexStatus`. */
  lemma SaveIndexStatusTarget(b: Backends, status: IndexStatus)
    ensures var after := SaveIndexStatusSpec(b, status);
      if PrimarySaveSucceeds(b, Folder, FileName) then
        after.files == b.files[b.configDir.value + ["indexes", "default", "meta.json"] := EncodeIndexStatus(status)]
        && after.local == b.local
        && (!PathExists(b, b.configDir.value + Folder) ==> after.dirs == b.dirs + Ancestors(b.configDir.value + Folder))
      else
        after.local == b.local[LsKey := EncodeIndexStatus(status)] && after.files == b.files
  {
    SaveStoresText(b, Folder, FileName, LsKey, EncodeIndexStatus(status));
    if PrimaryUsable(b) {
      assert b.configDir.value + Folder + [FileName] == b.configDir.value + ["indexes", "default", "meta.json"];
    }
  }

  /** save-then-load under unchanged availability returns the saved status. */
  lemma IndexStatusSaveThenLoad(b: Backends, status: IndexStatus)
    requires WellFormed(b)
    ensures LoadIndexStatusSpec(SaveIndexStatusSpec(b, status)) == Resolved(EncodeIndexStatus(status).json)
    ensures LoadedIndexStatus(LoadIndexStatusSpec(SaveIndexStatusSpec(b, status))) == Some(status)
  {
    var t := EncodeIndexStatus(status);
    IndexStatusRoundTrip(status);
    SaveThenLoad(b, Folder, FileName, LsKey, t);
    assert Folder + [FileName] == ["indexes", "default", FileName];
  }

  /** Without a readable file, an absent or empty fallback entry, or one
      holding JSON null, loads as null. */
  lemma MissingFallbackIsNull(b: Backends)
    requires !PrimaryUsable(b)
    requires LsKey !in b.local || b.local[LsKey] == Raw("") || b.local[LsKey] == Doc(JNull)
    ensures LoadIndexStatusSpec(b) == Resolved(JNull)
    ensures LoadedIndexStatus(LoadIndexStatusSpec(b)).None?
  {
  }
}
