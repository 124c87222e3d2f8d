/** src/components/SearchFilters.tsx: the handlers of the filter panel. Each
    builds a new filters record and hands it to the page; the component keeps
    no state. `Date.now()` is read twice by a preset handler, once for the
    start and once for the end; both readings are parameters. */
module SearchFiltersComponent {
  import opened Wrappers
  import opened Strings
  import opened Types

  const DayMs := 86400000
  const WeekMs := 604800000
  const MonthMs := 2592000000

  /** The file types currently selected; a missing list counts as empty. */
  function CurrentTypes(f: SearchFilters): seq<string> {
    f.fileTypes.GetOr([])
  }

  /** An empty list is stored as undefined, never as []. */
  function StoredTypes(types: seq<string>): (r: Option<seq<string>>)
    ensures r.Some? <==> types != []
    ensures r.Some? ==> r.value == types
  {
    if |types| > 0 then Some(types) else None
  }

  /** handleFileTypeChange: checking appends the type at the end, unchecking
      removes every occurrence of it; the other fields are kept. */
  function FileTypeChange(f: SearchFilters, fileType: string, checked: bool): (r: SearchFilters)
    ensures r.dateRange == f.dateRange && r.datePreset == f.datePreset && r.fileSizeRange == f.fileSizeRange
    ensures r.fileTypes != Some([])
    ensures checked ==> r.fileTypes == Some(CurrentTypes(f) + [fileType])
    ensures !checked ==> CurrentTypes(r) == RemoveAll(CurrentTypes(f), fileType)
    ensures !checked ==> fileType !in CurrentTypes(r)
  {
    var current := CurrentTypes(f);
    var types := if checked then current + [fileType] else RemoveAll(current, fileType);
    f.(fileTypes := StoredTypes(types))
  }

  /** The "any" radio: no date range; the other fields are kept. */
  function AnyDate(f: SearchFilters): (r: SearchFilters)
    ensures r.dateRange.None?
    ensures r.fileTypes == f.fileTypes && r.datePreset == f.datePreset && r.fileSizeRange == f.fileSizeRange
  {
    f.(dateRange := None)
  }

  function PresetSpan(p: DatePreset): (ms: int)
    ensures p == LastDay ==> ms == 86400000
    ensures p == LastWeek ==> ms == 604800000
    ensures p == LastMonth ==> ms == 2592000000
  {
    match p
    case Any => 0
    case LastDay => DayMs
    case LastWeek => WeekMs
    case LastMonth => MonthMs
  }

  /** A preset radio (last day, week or month): start is the first clock
      reading minus the span, end the second reading; only dateRange changes.
      The handlers never set `datePreset`. */
  function PresetRange(f: SearchFilters, preset: DatePreset, startClock: int, endClock: int): (r: SearchFilters)
    requires preset != Any
    ensures r.dateRange == Some(DateRange(Some(startClock - PresetSpan(preset)), Some(endClock)))
    ensures r.fileTypes == f.fileTypes && r.datePreset == f.datePreset && r.fileSizeRange == f.fileSizeRange
  {
    f.(dateRange := Some(DateRange(Some(startClock - PresetSpan(preset)), Some(endClock))))
  }

  /** "Clear all" hands back the empty record. */
  function ClearAll(): (r: SearchFilters)
    ensures r.fileTypes.None? && r.dateRange.None? && r.datePreset.None? && r.fileSizeRange.None?
  {
    NoFilters
  }

  /** With a clock that does not run backwards, a preset range is at least as
      long as its span and ends no earlier than it starts. */
  lemma PresetRangeCoversSpan(f: SearchFilters, preset: DatePreset, startClock: int, endClock: int)
    requires preset != Any && startClock <= endClock
    ensures var range := PresetRange(f, preset, startClock, endClock).dateRange.value;
      range.end.value - range.start.value >= PresetSpan(preset) > 0
  {
  }

  /** Checking a type that is not selected and then unchecking it gives back
      the filters, unless they held an explicit empty list, which comes back
      as undefined. */
  lemma {:induction false} CheckThenUncheck(f: SearchFilters, fileType: string)
    requires fileType !in CurrentTypes(f)
    ensures f.fileTypes != Some([]) ==> FileTypeChange(FileTypeChange(f, fileType, true), fileType, false) == f
    ensures f.fileTypes == Some([]) ==> FileTypeChange(FileTypeChange(f, fileType, true), fileType, false) == f.(fileTypes := None)
  {
    var current := CurrentTypes(f);
    RemoveAllAppended(current, fileType);
  }

  lemma {:induction false} RemoveAllAppended(s: seq<string>, x: string)
    requires x !in s
    ensures RemoveAll(s + [x], x) == s
  {
    assert (s + [x])[..|s + [x]| - 1] == s;
  }

  /** Unchecking keeps the other selected types in their order. */
  lemma {:induction false} UncheckKeepsOrder(s: seq<string>, x: string, i: nat, j: nat)
    requires i < j < |s| && s[i] != x && s[j] != x
    ensures exists k, l :: 0 <= k < l < |RemoveAll(s, x)| && RemoveAll(s, x)[k] == s[i] && RemoveAll(s, x)[l] == s[j]
  {
    var init := s[..|s| - 1];
    if j < |s| - 1 {
      UncheckKeepsOrder(init, x, i, j);
      var k, l :| 0 <= k < l < |RemoveAll(init, x)| && RemoveAll(init, x)[k] == init[i] && RemoveAll(init, x)[l] == init[j];
      assert RemoveAll(s, x)[k] == s[i] && RemoveAll(s, x)[l] == s[j];
    } else {
      assert s[i] in RemoveAll(init, x) by { assert init[i] == s[i]; }
      var k :| 0 <= k < |RemoveAll(init, x)| && RemoveAll(init, x)[k] == s[i];
      var l := |RemoveAll(init, x)|;
      assert RemoveAll(s, x) == RemoveAll(init, x) + [s[j]];
      assert RemoveAll(s, x)[k] == s[i] && RemoveAll(s, x)[l] == s[j];
    }
  }
}
