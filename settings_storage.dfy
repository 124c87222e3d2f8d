/** src/utils/settingsStorage.ts: AppSettings in `<configDir>/settings.json`,
    with the localStorage key `lunary.settings` as fallback. */
module SettingsStorage {
  import opened Wrappers
  import opened Types
  import opened Json
  import opened ConfigStore

  const LsKey := "lunary.settings"
  const FileName := "settings.json"

  /** saveSettings stores `JSON.stringify` of whatever value it is handed:
      a settings record from the settings page, a spread copy of the stored
      value from the theme hook. */
  function SaveSettingsSpec(b: Backends, value: Json): Backends {
    SaveSpec(b, [], FileName, LsKey, Doc(value))
  }

  function LoadSettingsSpec(b: Backends): Loaded {
    LoadSpec(b, [FileName], LsKey)
  }

  /** The settings record a load yields, when the loaded value has its shape. */
  function LoadedSettings(l: Loaded): (r: Option<AppSettings>)
    ensures r.Some? ==> l.Resolved? && l.json.JObj?
  {
    if l.Resolved? then DecodeSettings(Doc(l.json)) else None
  }

  method SaveSettings(store: Store, value: Json)
    requires store.Valid()
    modifies store
    ensures store.Valid()
    ensures store.State() == SaveSettingsSpec(old(store.State()), value)
  {
    store.Save([], FileName, LsKey, Doc(value));
  }

  method LoadSettings(store: Store) returns (r: Loaded)
    ensures r == LoadSettingsSpec(store.State())
  {
    r := store.Load([FileName], LsKey);
  }

  /** A successful primary save writes the stringified value to
      `<configDir>/settings.json` and leaves localStorage alone; otherwise the
      same text goes under `lunary.settings`. */
  lemma SaveSettingsTarget(b: Backends, value: Json)
    ensures var after := SaveSettingsSpec(b, value);
      if PrimarySaveSucceeds(b, [], FileName) then
        after.files == b.files[b.configDir.value + [FileName] := Doc(value)] && after.local == b.local
      else
        after.local == b.local[LsKey := Doc(value)] && after.files == b.files
  {
    SaveStoresText(b, [], FileName, LsKey, Doc(value));
    if PrimaryUsable(b) {
      assert b.configDir.value + [] == b.configDir.value;
    }
  }

  /** save-then-load under unchanged availability returns the saved value,
      and a saved settings record decodes to itself. */
  lemma SettingsSaveThenLoad(b: Backends, settings: AppSettings)
    requires WellFormed(b)
    ensures LoadSettingsSpec(SaveSettingsSpec(b, SettingsJson(settings))) == Resolved(SettingsJson(settings))
    ensures LoadedSettings(LoadSettingsSpec(SaveSettingsSpec(b, SettingsJson(settings)))) == Some(settings)
  {
    SettingsRoundTrip(settings);
    SaveThenLoad(b, [], FileName, LsKey, Doc(SettingsJson(settings)));
    assert [] + [FileName] == [FileName];
  }

  /** A fallback entry that is not valid JSON makes the load reject when the file cannot serve. */
  lemma CorruptFallbackRejects(b: Backends, chars: string)
    requires !PrimaryUsable(b) && chars != ""
    requires LsKey in b.local && b.local[LsKey] == Raw(chars)
    ensures LoadSettingsSpec(b) == Rejected
  {
  }

  /** Without a readable file, an absent or empty fallback entry, or one
      holding JSON null, loads as null, which holds no settings. */
  lemma MissingFallbackIsNull(b: Backends)
    requires !PrimaryUsable(b)
    requires LsKey !in b.local || b.local[LsKey] == Raw("") || b.local[LsKey] == Doc(JNull)
    ensures LoadSettingsSpec(b) == Resolved(JNull)
    ensures LoadedSettings(LoadSettingsSpec(b)).None?
  {
  }

  /** A readable settings file that parses decides the load, whatever
      localStorage holds: its value is handed on as it is, null and values of
      another shape included, and the load does not reject. */
  lemma ParsedFileDecides(b: Backends, j: Json, local: map<string, Text>)
    requires PrimaryUsable(b) && b.configDir.value + [FileName] in b.files
    requires b.files[b.configDir.value + [FileName]] == Doc(j)
    ensures LoadSettingsSpec(b) == Resolved(j)
    ensures LoadSettingsSpec(b.(local := local)) == Resolved(j)
  {
  }
}
