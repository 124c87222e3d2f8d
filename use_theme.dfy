/** src/hooks/useTheme.ts: the theme state, the `dark` class on the document
    root, the write-back of ui.theme into the stored settings, and the
    listener for the operating system's colour-scheme preference. The
    preference (`prefers-color-scheme: dark`) is a parameter of each step. */
module UseTheme {
  import opened Wrappers
  import opened Types
  import opened Json
  import opened ConfigStore
  import opened SettingsStorage
  import opened SettingsPage

  /** Dark exactly for `dark`, or for `system` when the OS prefers dark. */
  predicate IsDark(mode: ThemeMode, osDark: bool) {
    mode == Dark || (mode == System && osDark)
  }

  /** Only `system` follows the OS preference; `dark` and `light` are fixed. */
  lemma OnlySystemFollowsOs(mode: ThemeMode)
    ensures mode != System ==> (IsDark(mode, true) <==> IsDark(mode, false))
    ensures mode == System ==> IsDark(mode, true) && !IsDark(mode, false)
    ensures IsDark(Dark, true) && IsDark(Dark, false) && !IsDark(Light, true) && !IsDark(Light, false)
  {
  }

  /** `{...settings, ui: {...settings.ui, theme: mode}}`: the loaded value
      with ui.theme set and every other member copied. */
  function WithTheme(j: Json, mode: ThemeMode): (r: Json)
    ensures r.JObj?
    ensures UiField(r, "theme") == Some(JStr(ThemeName(mode)))
    ensures j.JObj? ==> forall k :: k != "ui" ==> Field(r, k) == Field(j, k)
    ensures Field(j, "ui").Some? && Field(j, "ui").value.JObj? ==>
              forall k :: k != "theme" ==> UiField(r, k) == UiField(j, k)
  {
    var ui := JObj(Put(Spread(Field(j, "ui")), "theme", JStr(ThemeName(mode))));
    JObj(Put(Spread(Some(j)), "ui", ui))
  }

  /** The ui section after the theme change decodes to the old section with
      the new theme. */
  lemma UiWithTheme(ui: Json, ui': Json, mode: ThemeMode, u: UiSettings)
    requires UiOf(Some(ui)) == Some(u)
    requires Field(ui', "theme") == Some(JStr(ThemeName(mode)))
    requires Field(ui', "language") == Field(ui, "language")
    requires Field(ui', "showThumbnails") == Field(ui, "showThumbnails")
    ensures UiOf(Some(ui')) == Some(u.(theme := mode))
  {
    assert ThemeOf(Some(ThemeName(mode))) == Some(mode) by {
      match mode
      case Light =>
      case Dark =>
      case System =>
    }
  }

  lemma WithThemeKeeps(j: Json, mode: ThemeMode, k: string)
    requires k != "theme" && Field(j, "ui").Some? && Field(j, "ui").value.JObj?
    ensures var r := WithTheme(j, mode);
      Field(r, "ui").Some? && Field(Field(r, "ui").value, k) == Field(Field(j, "ui").value, k)
      && Field(Field(r, "ui").value, "theme") == Some(JStr(ThemeName(mode)))
  {
    assert UiField(WithTheme(j, mode), k) == UiField(j, k);
  }

  lemma WithThemeKeepsTop(j: Json, mode: ThemeMode, k: string)
    requires k != "ui" && j.JObj?
    ensures Field(WithTheme(j, mode), k) == Field(j, k)
  {
  }

  /** A value that decodes to a settings record is an object whose ui
      section is an object. */
  lemma DecodedUiIsObject(j: Json, s: AppSettings)
    requires DecodeSettings(Doc(j)) == Some(s)
    ensures j.JObj? && Field(j, "ui").Some? && Field(j, "ui").value.JObj?
    ensures UiOf(Field(j, "ui")) == Some(s.ui)
  {
  }

  /** Decoding reads only the three sections: a value with the same search
      and indexing sections, and a ui section with the same language and
      thumbnail flag but the theme `mode`, decodes to the old record with the
      new theme. */
  lemma DecodeBySections(j: Json, r: Json, s: AppSettings, mode: ThemeMode)
    requires DecodeSettings(Doc(j)) == Some(s)
    requires Field(j, "ui").Some? && Field(r, "ui").Some?
    requires Field(r, "search") == Field(j, "search") && Field(r, "indexing") == Field(j, "indexing")
    requires Field(Field(r, "ui").value, "theme") == Some(JStr(ThemeName(mode)))
    requires Field(Field(r, "ui").value, "language") == Field(Field(j, "ui").value, "language")
    requires Field(Field(r, "ui").value, "showThumbnails") == Field(Field(j, "ui").value, "showThumbnails")
    ensures DecodeSettings(Doc(r)) == Some(Apply(s, Theme(mode)))
  {
    DecodedUiIsObject(j, s);
    UiWithTheme(Field(j, "ui").value, Field(r, "ui").value, mode, s.ui);
    assert SearchOf(Field(r, "search")) == Some(s.search);
    assert IndexingOf(Field(r, "indexing")) == Some(s.indexing);
    assert Apply(s, Theme(mode)) == AppSettings(s.search, s.indexing, s.ui.(theme := mode));
  }

  /** A stored value that decodes to a settings record still decodes after
      the theme change, to the record with only its theme replaced. */
  lemma WithThemeDecodes(j: Json, mode: ThemeMode, s: AppSettings)
    requires DecodeSettings(Doc(j)) == Some(s)
    ensures DecodeSettings(Doc(WithTheme(j, mode))) == Some(Apply(s, Theme(mode)))
  {
    DecodedUiIsObject(j, s);
    WithThemeKeeps(j, mode, "language");
    WithThemeKeeps(j, mode, "showThumbnails");
    WithThemeKeepsTop(j, mode, "search");
    WithThemeKeepsTop(j, mode, "indexing");
    DecodeBySections(j, WithTheme(j, mode), s, mode);
  }

  /** The storage after setTheme's write-back: a truthy loaded value is
      written back with the new theme; null, another falsy value or a
      rejecting load writes nothing. */
  ghost function PersistTheme(b: Backends, mode: ThemeMode): (r: Backends)
    ensures var loaded := LoadSettingsSpec(b);
      loaded.Rejected? || !JsTruthy(loaded.json) ==> r == b
    ensures var loaded := LoadSettingsSpec(b);
      WellFormed(b) && loaded.Resolved? && JsTruthy(loaded.json) ==>
        LoadSettingsSpec(r) == Resolved(WithTheme(loaded.json, mode))
  {
    var loaded := LoadSettingsSpec(b);
    if loaded.Resolved? && JsTruthy(loaded.json) then
      var updated := WithTheme(loaded.json, mode);
      if WellFormed(b) then
        SaveThenLoad(b, [], FileName, LsKey, Doc(updated));
        assert [] + [FileName] == [FileName];
        SaveSettingsSpec(b, updated)
      else
        SaveSettingsSpec(b, updated)
    else b
  }

  /** After the write-back, loading gives the stored value with ui.theme
      replaced and every other member, known to the record or not, as before;
      a stored settings record becomes that record with only its theme changed. */
  lemma PersistThemeChangesOnlyTheme(b: Backends, mode: ThemeMode, j: Json)
    requires WellFormed(b) && LoadSettingsSpec(b) == Resolved(j) && JsTruthy(j)
    ensures LoadSettingsSpec(PersistTheme(b, mode)) == Resolved(WithTheme(j, mode))
    ensures LoadedSettings(LoadSettingsSpec(b)).Some? ==>
              LoadedSettings(LoadSettingsSpec(PersistTheme(b, mode))) == Some(Apply(LoadedSettings(LoadSettingsSpec(b)).value, Theme(mode)))
  {
    if LoadedSettings(LoadSettingsSpec(b)).Some? {
      WithThemeDecodes(j, mode, LoadedSettings(LoadSettingsSpec(b)).value);
    }
  }

  /** The hook's state: the theme, the root's `dark` class, and whether the
      OS-change listener is attached. */
  class ThemeController {
    var theme: ThemeMode
    var rootDark: bool
    var listening: bool

    /** The hook starts at `system`; the root's class is whatever the page had. */
    constructor (rootDarkBefore: bool)
      ensures theme == System && rootDark == rootDarkBefore && !listening
    {
      theme := System;
      rootDark := rootDarkBefore;
      listening := false;
    }

    /** applyTheme: the class is set to the effective darkness, whatever it
        was before, so applying the same mode twice is the same as once. */
    method ApplyTheme(mode: ThemeMode, osDark: bool)
      modifies this`rootDark
      ensures rootDark == IsDark(mode, osDark)
    {
      if mode == Dark || (mode == System && osDark) {
        rootDark := true;
      } else {
        rootDark := false;
      }
    }

    /** setTheme: the state and the class change at once; then the stored
        settings, if any, are written back with the new theme. */
    method SetTheme(mode: ThemeMode, osDark: bool, store: Store)
      requires store.Valid()
      modifies this`theme, this`rootDark, store
      ensures store.Valid()
      ensures theme == mode && rootDark == IsDark(mode, osDark)
      ensures store.State() == PersistTheme(old(store.State()), mode)
    {
      theme := mode;
      ApplyTheme(mode, osDark);
      var loaded := LoadSettings(store);
      if loaded.Resolved? && JsTruthy(loaded.json) {
        SaveSettings(store, WithTheme(loaded.json, mode));
      }
    }

    /** The initialising effect reads `settings?.ui?.theme`: a stored mode
        is adopted and applied; another truthy theme is applied as a mode
        that is never dark; without one `system` is applied and the state is
        left; a rejected load does nothing. */
    method Init(osDark: bool, store: Store)
      modifies this`theme, this`rootDark
      ensures var loaded := LoadSettingsSpec(store.State());
        var stored := if loaded.Resolved? then UiField(loaded.json, "theme") else None;
        if loaded.Rejected? then
          theme == old(theme) && rootDark == old(rootDark)
        else if ThemeOf(AsString(stored)).Some? then
          theme == ThemeOf(AsString(stored)).value && rootDark == IsDark(theme, osDark)
        else if stored.Some? && JsTruthy(stored.value) then
          theme == old(theme) && !rootDark
        else
          theme == old(theme) && rootDark == IsDark(System, osDark)
    {
      var loaded := LoadSettings(store);
      if loaded.Resolved? {
        var stored := UiField(loaded.json, "theme");
        var mode := ThemeOf(AsString(stored));
        if mode.Some? {
          theme := mode.value;
          ApplyTheme(theme, osDark);
        } else if stored.Some? && JsTruthy(stored.value) {
          rootDark := false;
        } else {
          ApplyTheme(System, osDark);
        }
      }
    }

    /** The listener effect attaches the handler; its cleanup detaches it. */
    method Listen()
      modifies this`listening
      ensures listening
    {
      listening := true;
    }

    method StopListening()
      modifies this`listening
      ensures !listening
    {
      listening := false;
    }

    /** An OS colour-scheme change re-applies only while attached and only under `system`. */
    method OsChanged(osDark: bool)
      modifies this`rootDark
      ensures rootDark == if listening && theme == System then IsDark(System, osDark) else old(rootDark)
    {
      if listening && theme == System {
        ApplyTheme(System, osDark);
      }
    }
  }
}
