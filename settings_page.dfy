/** src/pages/SettingsPage.tsx: the settings editor. The page holds the
    edited AppSettings and a hasChanges flag; each control replaces one
    key of one section, the exclude-pattern list is kept free of repeats,
    and save and load go through the settings storage. */
module SettingsPage {
  import opened Wrappers
  import opened Strings
  import opened Types
  import opened Json
  import opened ConfigStore
  import opened SettingsStorage

  const MiB := 1024 * 1024

  /** The settings the page starts from and that reset restores. */
  const Defaults := AppSettings(
    SearchSettings(20, 0.8, true),
    IndexingSettings(true, 3600, ["*.tmp", "*.log", "node_modules/*"], 50 * MiB),
    UiSettings(System, "zh-CN", true))

  /** The keys `handleSettingChange(section, key, value)` is called with. */
  datatype Key =
    | ResultsPerPageKey | MatchPrecisionKey | EnableHighlightingKey
    | AutoUpdateKey | UpdateIntervalKey | ExcludePatternsKey | MaxFileSizeKey
    | ThemeKey | LanguageKey | ShowThumbnailsKey

  /** One call of `handleSettingChange`: the section and key, with the new value. */
  datatype Change =
    | ResultsPerPage(n: int) | MatchPrecision(p: real) | EnableHighlighting(on: bool)
    | AutoUpdate(on: bool) | UpdateInterval(n: int) | ExcludePatterns(patterns: seq<string>) | MaxFileSize(n: int)
    | Theme(mode: ThemeMode) | Language(lang: string) | ShowThumbnails(on: bool)

  function KeyOf(c: Change): Key {
    match c
    case ResultsPerPage(_) => ResultsPerPageKey
    case MatchPrecision(_) => MatchPrecisionKey
    case EnableHighlighting(_) => EnableHighlightingKey
    case AutoUpdate(_) => AutoUpdateKey
    case UpdateInterval(_) => UpdateIntervalKey
    case ExcludePatterns(_) => ExcludePatternsKey
    case MaxFileSize(_) => MaxFileSizeKey
    case Theme(_) => ThemeKey
    case Language(_) => LanguageKey
    case ShowThumbnails(_) => ShowThumbnailsKey
  }

  /** The current value under a key, as the change that would set it. */
  function Get(s: AppSettings, k: Key): (c: Change)
    ensures KeyOf(c) == k
  {
    match k
    case ResultsPerPageKey => ResultsPerPage(s.search.resultsPerPage)
    case MatchPrecisionKey => MatchPrecision(s.search.matchPrecision)
    case EnableHighlightingKey => EnableHighlighting(s.search.enableHighlighting)
    case AutoUpdateKey => AutoUpdate(s.indexing.autoUpdate)
    case UpdateIntervalKey => UpdateInterval(s.indexing.updateInterval)
    case ExcludePatternsKey => ExcludePatterns(s.indexing.excludePatterns)
    case MaxFileSizeKey => MaxFileSize(s.indexing.maxFileSize)
    case ThemeKey => Theme(s.ui.theme)
    case LanguageKey => Language(s.ui.language)
    case ShowThumbnailsKey => ShowThumbnails(s.ui.showThumbnails)
  }

  /** `{...prev, [section]: {...prev[section], [key]: value}}`. */
  function Apply(s: AppSettings, c: Change): (r: AppSettings)
    ensures forall k: Key :: Get(r, k) == if k == KeyOf(c) then c else Get(s, k)
  {
    match c
    case ResultsPerPage(n) => s.(search := s.search.(resultsPerPage := n))
    case MatchPrecision(p) => s.(search := s.search.(matchPrecision := p))
    case EnableHighlighting(on) => s.(search := s.search.(enableHighlighting := on))
    case AutoUpdate(on) => s.(indexing := s.indexing.(autoUpdate := on))
    case UpdateInterval(n) => s.(indexing := s.indexing.(updateInterval := n))
    case ExcludePatterns(ps) => s.(indexing := s.indexing.(excludePatterns := ps))
    case MaxFileSize(n) => s.(indexing := s.indexing.(maxFileSize := n))
    case Theme(m) => s.(ui := s.ui.(theme := m))
    case Language(l) => s.(ui := s.ui.(language := l))
    case ShowThumbnails(on) => s.(ui := s.ui.(showThumbnails := on))
  }

  /** The ten keys determine the settings: two records that agree on every
      key are equal, so "every other key is unchanged" means nothing else changed. */
  lemma KeysDetermineSettings(a: AppSettings, b: AppSettings)
    requires forall k: Key :: Get(a, k) == Get(b, k)
    ensures a == b
  {
    assert Get(a, ResultsPerPageKey) == Get(b, ResultsPerPageKey);
    assert Get(a, MatchPrecisionKey) == Get(b, MatchPrecisionKey);
    assert Get(a, EnableHighlightingKey) == Get(b, EnableHighlightingKey);
    assert Get(a, AutoUpdateKey) == Get(b, AutoUpdateKey);
    assert Get(a, UpdateIntervalKey) == Get(b, UpdateIntervalKey);
    assert Get(a, ExcludePatternsKey) == Get(b, ExcludePatternsKey);
    assert Get(a, MaxFileSizeKey) == Get(b, MaxFileSizeKey);
    assert Get(a, ThemeKey) == Get(b, ThemeKey);
    assert Get(a, LanguageKey) == Get(b, LanguageKey);
    assert Get(a, ShowThumbnailsKey) == Get(b, ShowThumbnailsKey);
  }

  /** Setting a key to the value it already holds changes nothing. */
  lemma ApplyCurrentValueIsIdentity(s: AppSettings, k: Key)
    ensures Apply(s, Get(s, k)) == s
  {
  }

  /** The pattern list after `handleAddExcludePattern` with the prompt's answer
      (None when the prompt is cancelled). */
  function AddedPatterns(ps: seq<string>, answer: Option<string>): (r: seq<string>)
    ensures answer.Some? && answer.value != "" && answer.value !in ps ==> r == ps + [answer.value]
    ensures !(answer.Some? && answer.value != "" && answer.value !in ps) ==> r == ps
    ensures NoDup(ps) ==> NoDup(r)
  {
    if answer.Some? && answer.value != "" && answer.value !in ps then ps + [answer.value] else ps
  }

  /** The shown size: bytes over 1048576, a fraction when the size is not whole megabytes. */
  function MbShown(bytes: int): real {
    bytes as real / MiB as real
  }

  /** `parseInt` of a decimal numeral truncates towards zero. */
  function Trunc(x: real): int {
    if x >= 0.0 then x.Floor else -((-x).Floor)
  }

  /** The stored size for an entered whole number of megabytes. */
  function StoredBytes(n: int): (b: int)
    ensures b % MiB == 0
    ensures MbShown(b) == n as real
  {
    n * MiB
  }

  /** The size that results when the shown value is entered back: it is the
      stored one exactly when the stored size is whole megabytes. */
  lemma ReenteringShownSize(bytes: int)
    ensures StoredBytes(Trunc(MbShown(bytes))) == bytes <==> bytes % MiB == 0
  {
    var q, r := bytes / MiB, bytes % MiB;
    assert bytes == q * MiB + r;
    if bytes >= 0 {
      assert MbShown(bytes) == q as real + r as real / MiB as real;
      assert Trunc(MbShown(bytes)) == q;
    } else if r == 0 {
      assert MbShown(bytes) == q as real;
      assert Trunc(MbShown(bytes)) == q;
    } else {
      assert MbShown(bytes) == (q + 1) as real - (MiB - r) as real / MiB as real;
      assert Trunc(MbShown(bytes)) == q + 1;
    }
  }

  /** The page. */
  class SettingsPageState {
    var settings: AppSettings
    var hasChanges: bool

    constructor ()
      ensures settings == Defaults && !hasChanges
      ensures NoDup(settings.indexing.excludePatterns)
    {
      settings := Defaults;
      hasChanges := false;
    }

    /** handleSettingChange. */
    method ChangeSetting(c: Change)
      modifies this
      ensures settings == Apply(old(settings), c) && hasChanges
    {
      settings := Apply(settings, c);
      hasChanges := true;
    }

    /** The language select sets ui.language and the interface language. */
    method ChooseLanguage(l: string) returns (lang: string)
      modifies this
      ensures settings == Apply(old(settings), Language(l)) && hasChanges && lang == l
    {
      ChangeSetting(Language(l));
      lang := l;
    }

    /** handleAddExcludePattern with the prompt's answer: an empty, cancelled or
        repeated answer changes nothing at all. */
    method AddExcludePattern(answer: Option<string>)
      modifies this
      ensures settings == Apply(old(settings), ExcludePatterns(AddedPatterns(old(settings).indexing.excludePatterns, answer)))
      ensures hasChanges == (old(hasChanges) || settings.indexing.excludePatterns != old(settings).indexing.excludePatterns)
      ensures NoDup(old(settings).indexing.excludePatterns) ==> NoDup(settings.indexing.excludePatterns)
    {
      var ps := settings.indexing.excludePatterns;
      if answer.Some? && answer.value != "" && answer.value !in ps {
        ChangeSetting(ExcludePatterns(ps + [answer.value]));
        assert answer.value in settings.indexing.excludePatterns;
      } else {
        ApplyCurrentValueIsIdentity(settings, ExcludePatternsKey);
      }
    }

    /** handleRemoveExcludePattern: every equal entry goes, the rest keep their order. */
    method RemoveExcludePattern(pattern: string)
      modifies this
      ensures settings == Apply(old(settings), ExcludePatterns(RemoveAll(old(settings).indexing.excludePatterns, pattern)))
      ensures hasChanges
      ensures NoDup(old(settings).indexing.excludePatterns) ==> NoDup(settings.indexing.excludePatterns)
    {
      var ps := settings.indexing.excludePatterns;
      ChangeSetting(ExcludePatterns(RemoveAll(ps, pattern)));
      if NoDup(ps) {
        RemoveAllKeepsNoDup(ps, pattern);
      }
    }

    /** handleResetSettings. */
    method Reset()
      modifies this
      ensures settings == Defaults && hasChanges
    {
      settings := Defaults;
      hasChanges := true;
    }

    /** handleSaveSettings. */
    method Save(store: Store)
      requires store.Valid()
      modifies this, store
      ensures store.Valid()
      ensures store.State() == SaveSettingsSpec(old(store.State()), SettingsJson(old(settings)))
      ensures settings == old(settings) && !hasChanges
    {
      SaveSettings(store, SettingsJson(settings));
      hasChanges := false;
    }

    /** The load on mount: a loaded value of the record's shape replaces the
        settings wholesale; any truthy `ui.language` in the loaded value is
        handed to the interface; null, another value, or a load that
        rejects leaves the settings as they are. */
    method LoadOnMount(store: Store) returns (lang: Option<Json>)
      modifies this
      ensures var loaded := LoadSettingsSpec(store.State());
        var record := LoadedSettings(loaded);
        var stored := if loaded.Resolved? then UiField(loaded.json, "language") else None;
        settings == (if record.Some? then record.value else old(settings))
        && hasChanges == old(hasChanges)
        && lang == (if stored.Some? && JsTruthy(stored.value) then stored else None)
    {
      var loaded := LoadSettings(store);
      lang := None;
      if loaded.Resolved? {
        var record := DecodeSettings(Doc(loaded.json));
        if record.Some? {
          settings := record.value;
        }
        var stored := UiField(loaded.json, "language");
        if stored.Some? && JsTruthy(stored.value) {
          lang := stored;
        }
      }
    }
  }
}
