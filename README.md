# Lunary core, modelled in Dafny

Lunary is a desktop full-text search tool. It has a React frontend and a
Rust backend built on Tauri. This project models its core:

- **Persistence.** Settings, directory lists and index status are saved and
  loaded as JSON. Each store tries a file under the app-config directory
  first and falls back to a flat localStorage key. A load resolves to the
  raw JSON value it reads, null and values of another shape included,
  because the `as T` cast checks nothing; each consumer decodes what it
  needs from that value.
- **Search page.** The query, the paging, the search history and the
  filters.
- **Settings page.** Editing, adding and removing exclude patterns, the
  megabyte size field, and resetting, saving and loading.
- **Index-management page.** The directory list and the simulated rebuild
  timer.
- **Theme hook** and **i18n** (dotted-key lookup and `{param}` formatting).
- **Result list view.** The date buckets, file icons, render branches and
  the context menu.
- **Rust search.** Snippet extraction with byte and char offsets, and the
  assembly of search results.
- **Rust indexer.** File collection, document construction, directory size
  and the rebuild event stream.

Each source file is one module. Pure code becomes datatypes, functions and
lemmas. Code that changes state becomes a class:

- React component state becomes class fields, and each handler becomes a
  method with a `modifies` frame.
- The two storage backends are one class, `ConfigStore.Store`, whose
  state is the `Backends` value.
- The Rust loops become methods with loop invariants, each proved equal
  to a specification function.

| module | file | models |
|---|---|---|
| `Wrappers` | wrappers.dfy | `Option`, `Result` |
| `Strings` | strings.dfy | ASCII lower-casing, JavaScript `trim` blankness, `filter(x => x !== v)`, decimal rendering, `Math.min` |
| `Types` | types.dfy | src/types/index.ts, src-tauri/src/types.rs |
| `Json` | json.dfy | `JSON.stringify` / `JSON.parse` of the three persisted records |
| `ConfigStore` | config_store.dfy | the shared save/load protocol of the three storage files |
| `SettingsStorage`, `DirectoriesStorage`, `IndexStatusStorage` | *_storage.dfy | src/utils/*.ts |
| `SearchFiltersComponent` | search_filters.dfy | src/components/SearchFilters.tsx |
| `SearchPage` | search_page.dfy | src/pages/SearchPage.tsx |
| `SettingsPage` | settings_page.dfy | src/pages/SettingsPage.tsx |
| `IndexManagementPage` | index_management_page.dfy | src/pages/IndexManagementPage.tsx |
| `UseTheme` | use_theme.dfy | src/hooks/useTheme.ts |
| `I18n` | i18n.dfy | src/i18n/index.tsx |
| `SearchResultsView` | search_results.dfy | src/components/SearchResults.tsx |
| `Search` | search_rs.dfy | src-tauri/src/search.rs |
| `Indexer` | indexer.dfy | src-tauri/src/indexer.rs |

Where the written requirements and the code differ, the model follows the
code:

- The search page has no debounce and no cancellation of a running search.
  A search is refused only while one is already running.
- A query that is already in the history keeps its position. It is not
  moved to the front.
- The date presets set `dateRange` but never `datePreset`.
- `compute_dir_size` sums only the immediate children: the length of a
  file entry, and the directory-entry length of a subdirectory. It does not
  recurse, although its doc comment says it does.

## Model

| member | source | states |
|---|---|---|
| ConfigStore.Ancestors | src/utils/settingsStorage.ts:13-15 | the directories `mkdir(dir, {recursive: true})` creates: the path and every one of its non-empty prefixes, and nothing else |
| ConfigStore.Mkdir | src/utils/settingsStorage.ts:13-15 | recursive mkdir adds exactly the ancestors of the path. It rejects exactly when the file system is unavailable or a prefix is a file |
| ConfigStore.Store.constructor | src/utils/settingsStorage.ts:9-21 | a store over any well-formed backend state |
| ConfigStore.Store.AppConfigDir | src/utils/settingsStorage.ts:11 | `appConfigDir()` yields the configured directory or rejects |
| ConfigStore.Store.Exists | src/utils/settingsStorage.ts:13 | `exists` is true for files and directories, and rejects without file-system access |
| ConfigStore.Store.MakeDir | src/utils/settingsStorage.ts:14 | the state after mkdir is `Mkdir` of the old state, or unchanged when it rejects; well-formedness is kept |
| ConfigStore.Store.WriteTextFile | src/utils/settingsStorage.ts:16 | the write succeeds exactly when the parent directory exists and the path is not a directory, and then replaces only that file |
| ConfigStore.Store.ReadTextFile | src/utils/settingsStorage.ts:27 | the read yields the stored text, or rejects when the file is missing or the file system is unavailable |
| ConfigStore.Store.SetLocal | src/utils/settingsStorage.ts:19 | `localStorage.setItem` replaces one key and nothing else |
| ConfigStore.Store.GetLocal | src/utils/settingsStorage.ts:31 | `localStorage.getItem` returns the stored text or null |
| ConfigStore.Store.Save | src/utils/settingsStorage.ts:9-21 | one save attempt ends in the state `SaveSpec` gives: the file under the config directory, or on any failure the localStorage key |
| ConfigStore.SaveSpec | src/utils/settingsStorage.ts:9-21 | a save never changes the configuration, never removes a directory or a file, and leaves the text either under the fallback key or in the file under the config directory |
| ConfigStore.LoadSpec | src/utils/settingsStorage.ts:23-34 | the load rejects exactly when the file cannot be read as JSON and the fallback key holds non-empty text that is not JSON; the readable file wins whatever its shape, a missing or empty key gives null |
| ConfigStore.Store.Load | src/utils/settingsStorage.ts:23-34 | one load resolves or rejects as `LoadSpec` says, handing on the parsed JSON value unchanged |
| ConfigStore.SaveKeepsWellFormed | src/utils/settingsStorage.ts:9-21 | saving never leaves a file without its parent directory |
| ConfigStore.SaveStoresText | src/utils/settingsStorage.ts:16-19 | after a save, the text is in the file when the primary path works, and under the fallback key otherwise |
| ConfigStore.SaveCreatesFolderOnlyWhenMissing | src/utils/settingsStorage.ts:13-15 | an existing folder leaves the directories unchanged. A missing one is created together with all its ancestors |
| ConfigStore.SaveThenLoad | src/utils/settingsStorage.ts:9-34 | round trip: loading after a save resolves to the saved JSON value, on either backend |
| ConfigStore.PrimarySaveLeavesFallbackStale | src/utils/settingsStorage.ts:16-20 | a successful file save leaves localStorage untouched, so a later fallback load reads the old value |
| DirectoriesStorage.SaveDirectories | src/utils/directoriesStorage.ts:7-18 | the save is the shared protocol on `directories.json` and key `lunary.directories` |
| DirectoriesStorage.LoadDirectories | src/utils/directoriesStorage.ts:20-30 | the load is the shared protocol on `directories.json` and key `lunary.directories` |
| DirectoriesStorage.LoadedDirectories | src/utils/directoriesStorage.ts:25 | a resolved value is read as a directory list only when it is not null and decodes as one; a rejection gives none |
| DirectoriesStorage.SaveDirectoriesTarget | src/utils/directoriesStorage.ts:10-16 | the list lands in `<config>/directories.json`, or under the fallback key |
| DirectoriesStorage.DirectoriesSaveThenLoad | src/utils/directoriesStorage.ts:7-30 | loading after saving resolves to the saved JSON and reads back as the same list |
| DirectoriesStorage.MissingFallbackIsNull | src/utils/directoriesStorage.ts:26-28 | with no file access and a missing, empty or `null` key, the load resolves to null and yields no list |
| IndexStatusStorage.SaveIndexStatus | src/utils/indexStatusStorage.ts:7-19 | the save is the shared protocol on `indexes/default/meta.json` and key `lunary.indexStatus` |
| IndexStatusStorage.LoadIndexStatus | src/utils/indexStatusStorage.ts:21-31 | the load is the shared protocol on `indexes/default/meta.json` and key `lunary.indexStatus` |
| IndexStatusStorage.LoadedIndexStatus | src/utils/indexStatusStorage.ts:26 | a resolved value is read as a status only when it is not null and decodes as one; a rejection gives none |
| IndexStatusStorage.SaveIndexStatusTarget | src/utils/indexStatusStorage.ts:10-17 | the status lands in `<config>/indexes/default/meta.json`, creating the folder when needed, or under the fallback key |
| IndexStatusStorage.IndexStatusSaveThenLoad | src/utils/indexStatusStorage.ts:7-31 | loading after saving resolves to the saved JSON and reads back as the same status |
| IndexStatusStorage.MissingFallbackIsNull | src/utils/indexStatusStorage.ts:27-29 | with no file access and a missing, empty or `null` key, the load resolves to null and yields no status |
| SettingsStorage.SaveSettings | src/utils/settingsStorage.ts:9-21 | the save of a JSON value is the shared protocol on `settings.json` and key `lunary.settings` |
| SettingsStorage.LoadSettings | src/utils/settingsStorage.ts:23-34 | the load is the shared protocol on the same file and key, handing on the raw JSON value |
| SettingsStorage.LoadedSettings | src/utils/settingsStorage.ts:28 | a resolved value is read as a settings record only when it is an object that decodes as one; a rejection gives none |
| SettingsStorage.SaveSettingsTarget | src/utils/settingsStorage.ts:11-19 | the settings land in `<config>/settings.json`, or under the fallback key |
| SettingsStorage.SettingsSaveThenLoad | src/utils/settingsStorage.ts:9-34 | loading after saving settings resolves to the saved JSON and reads back as the same settings |
| SettingsStorage.CorruptFallbackRejects | src/utils/settingsStorage.ts:32 | a non-empty fallback value that is not JSON makes the load reject, because `JSON.parse` throws inside the catch |
| SettingsStorage.MissingFallbackIsNull | src/utils/settingsStorage.ts:31-32 | with no file access and a missing, empty or `null` key, the load resolves to null and yields no record |
| SettingsStorage.ParsedFileDecides | src/utils/settingsStorage.ts:24-28 | a readable settings file that is valid JSON decides the load whatever localStorage holds: the load resolves to that value, whatever its shape, and never rejects |
| Json.Parse | src/utils/settingsStorage.ts:28 | `JSON.parse` succeeds exactly on well-formed documents |
| Json.Member | src/utils/settingsStorage.ts:28 | property access finds a member with that key, or none exists |
| Json.AsInt | src/utils/settingsStorage.ts:28 | a decoded integer is the number in the document |
| Json.AsStrings | src/utils/settingsStorage.ts:28 | a decoded string array has one string per element |
| Json.StringsJson | src/utils/settingsStorage.ts:16 | an encoded string array has one element per string |
| Json.ThemeOf | src/utils/settingsStorage.ts:28 | a decoded theme is the one whose name was stored |
| Json.UiField | src/hooks/useTheme.ts:44 | `value?.ui?.<k>` finds a member only inside an object-valued `ui` member of an object |
| Json.MemberReplace | src/hooks/useTheme.ts:30-36 | replacing the members under a key changes what that key finds, when it finds anything, and nothing else |
| Json.Put | src/hooks/useTheme.ts:30-36 | `{...o, [k]: v}`: the key finds v afterwards, and every other key finds what it found before |
| Json.Spread | src/hooks/useTheme.ts:30-33 | `...x` copies an object's members, one indexed member per array element or string char, and nothing from null, numbers or booleans |
| Json.EncodeSettings | src/utils/settingsStorage.ts:16 | `JSON.stringify` of settings is a well-formed document |
| Json.DirectoriesJson | src/utils/directoriesStorage.ts:14 | one JSON object per directory |
| Json.DirectoriesOf | src/utils/directoriesStorage.ts:25 | one decoded directory per array element |
| Json.EncodeDirectories | src/utils/directoriesStorage.ts:14 | `JSON.stringify` of a directory list is a well-formed document |
| Json.EncodeIndexStatus | src/utils/indexStatusStorage.ts:15 | `JSON.stringify` of a status is a well-formed document |
| Json.DecodeSettings | src/utils/settingsStorage.ts:28 | only a JSON object holding the `search`, `indexing` and `ui` sections reads as settings |
| Json.DecodeDirectories | src/utils/directoriesStorage.ts:25 | only a JSON array reads as a directory list, one directory per element |
| Json.DecodeIndexStatus | src/utils/indexStatusStorage.ts:26 | only a JSON object reads as a status, and each field is the flag or whole number stored under its name |
| Json.DecodedUiFields | src/utils/settingsStorage.ts:28 | a value that reads as settings holds their theme name and language under `ui` |
| Json.StringsRoundTrip | src/utils/settingsStorage.ts:16-28 | string arrays survive stringify then parse |
| Json.MembersFound | src/utils/settingsStorage.ts:28 | in an object with distinct keys, each member is found by its key |
| Json.SearchRoundTrip | src/utils/settingsStorage.ts:16-28 | the search section survives stringify then parse |
| Json.IndexingRoundTrip | src/utils/settingsStorage.ts:16-28 | the indexing section survives stringify then parse |
| Json.UiRoundTrip | src/utils/settingsStorage.ts:16-28 | the ui section survives stringify then parse |
| Json.SettingsRoundTrip | src/utils/settingsStorage.ts:16-28 | decode(encode(settings)) == settings |
| Json.DirectoryRoundTrip | src/utils/directoriesStorage.ts:14-25 | one directory survives stringify then parse |
| Json.DirectoryListRoundTrip | src/utils/directoriesStorage.ts:14-25 | a list of directories survives stringify then parse, element by element |
| Json.DirectoriesRoundTrip | src/utils/directoriesStorage.ts:14-25 | decode(encode(list)) == list |
| Json.IndexStatusRoundTrip | src/utils/indexStatusStorage.ts:15-26 | decode(encode(status)) == status |
| Strings.Lower | src-tauri/src/search.rs:28-29 | lower-casing keeps the length and lowers each char on its own |
| Strings.RemoveAll | src/components/SearchFilters.tsx:26 | `filter(y => y !== x)` keeps every other element with its multiplicity and drops every copy of x, never grows, and is the identity when x is absent |
| Strings.RemoveAllKeepsNoDup | src/pages/SettingsPage.tsx:92 | filtering a duplicate-free list keeps it duplicate-free |
| Strings.IntToString | src/i18n/index.tsx:21 | the decimal text of a number parameter: a leading minus exactly for negatives, then digits whose value (`DigitsValue`) is the magnitude, with no leading zero except for 0 itself |
| SearchFiltersComponent.StoredTypes | src/components/SearchFilters.tsx:30 | an empty type list is stored as undefined, and any other list as itself |
| SearchFiltersComponent.FileTypeChange | src/components/SearchFilters.tsx:22-32 | checking appends the type. Unchecking removes every copy and keeps the rest in order. The list is never stored empty, and the other filters are untouched |
| SearchFiltersComponent.AnyDate | src/components/SearchFilters.tsx:69 | "any time" clears only the date range |
| SearchFiltersComponent.PresetSpan | src/components/SearchFilters.tsx:84 | the three presets span one day, seven days and thirty days in milliseconds |
| SearchFiltersComponent.PresetRange | src/components/SearchFilters.tsx:81-87 | a preset sets the range from `now - span` to the second clock reading, and changes nothing else |
| SearchFiltersComponent.ClearAll | src/components/SearchFilters.tsx:135 | clearing leaves every filter absent |
| SearchFiltersComponent.PresetRangeCoversSpan | src/components/SearchFilters.tsx:81-87 | the preset range is non-empty and at least the preset's span long |
| SearchFiltersComponent.CheckThenUncheck | src/components/SearchFilters.tsx:22-32 | checking then unchecking a new type restores the filters (an empty list is normalised to undefined) |
| SearchFiltersComponent.RemoveAllAppended | src/components/SearchFilters.tsx:25-26 | removing a type just appended gives back the original list |
| SearchFiltersComponent.UncheckKeepsOrder | src/components/SearchFilters.tsx:26 | unchecking keeps the relative order of the remaining types |
| SearchPage.RecordQuery | src/pages/SearchPage.tsx:51-53 | a new query is put first and the history is cut to 10. A known query leaves the history unchanged. The query is always present afterwards, and no duplicates are introduced |
| SearchPage.RequestFor | src/pages/SearchPage.tsx:33-38 | the request carries the query, the filters and `limit = perPage`, and its offset is the start of the current page |
| SearchPage.TotalOf | src/pages/SearchPage.tsx:40 | the total is the reported count, or the number of results when the count is 0 |
| SearchPage.Searched | src/pages/SearchPage.tsx:23-58 | a blank query only clears the results. Otherwise: an answer sets the results and total, a failure clears them and zeroes the time, the history is updated, and the spinner ends |
| SearchPage.SearchKeepsSessionValid | src/pages/SearchPage.tsx:23-58 | a search keeps page ≥ 1, the page size among 10/20/50/100, and the history bounded and duplicate-free |
| SearchPage.PrevEnabledIffPreviousPageExists | src/pages/SearchPage.tsx:199-200 | "prev" is enabled exactly when no search runs and the page is 2 or more; the previous page is then a valid page whose offset is one page size lower and not negative |
| SearchPage.NextEnabledIffNextPageStartsBeforeTotal | src/pages/SearchPage.tsx:209-210 | "next" is enabled exactly when no search runs and the next page's offset is below the total |
| SearchPage.SearchPageState.constructor | src/pages/SearchPage.tsx:12-21 | the initial page state: empty query and history, page 1, 20 per page |
| SearchPage.SearchPageState.Invoke | src/pages/SearchPage.tsx:33-38 | the engine is called only while the spinner is on |
| SearchPage.SearchPageState.PerformSearch | src/pages/SearchPage.tsx:23-58 | the new state is `Searched` of the old state and the engine's answer. A request is sent exactly when the query is not blank |
| SearchPage.SearchPageState.SetQuery | src/pages/SearchPage.tsx:94 | typing replaces the query and nothing else |
| SearchPage.SearchPageState.SetFilters | src/pages/SearchPage.tsx:70-74 | a filter change replaces the filters and nothing else |
| SearchPage.SearchPageState.GotoPage | src/pages/SearchPage.tsx:65-68 | pages below 1 are ignored, and any other page is taken as is |
| SearchPage.SearchPageState.ChangePerPage | src/pages/SearchPage.tsx:176-185 | choosing a page size sets it and returns to page 1 |
| SearchPage.SearchPageState.ParamsChanged | src/pages/SearchPage.tsx:70-74 | a page, size or filter change re-searches exactly when the query is not blank and no search is running, and then sends the request for the current page |
| SearchPage.SearchPageState.PressEnter | src/pages/SearchPage.tsx:94-98 | Enter searches for the current query unless a search is running; a request goes out exactly when that query is not blank |
| SearchPage.SearchPageState.HistoryClick | src/pages/SearchPage.tsx:60-63 | a history click sets the query and searches for it; a request goes out exactly when that entry is not blank |
| SettingsPage.Get | src/pages/SettingsPage.tsx:30-39 | reading a setting by key yields a change for that same key |
| SettingsPage.Apply | src/pages/SettingsPage.tsx:30-39 | `handleSettingChange` sets its key to the value and leaves every other key as it was |
| SettingsPage.KeysDetermineSettings | src/types/index.ts:63-79 | two settings values that agree on every key are equal, so the keys cover the whole record |
| SettingsPage.ApplyCurrentValueIsIdentity | src/pages/SettingsPage.tsx:30-39 | writing back a setting's own value changes nothing |
| SettingsPage.AddedPatterns | src/pages/SettingsPage.tsx:68-76 | a non-empty, new answer is appended, and anything else leaves the list. No duplicates are introduced |
| SettingsPage.StoredBytes | src/pages/SettingsPage.tsx:194 | entering n MB stores a whole number of MiB, shown back as n |
| SettingsPage.ReenteringShownSize | src/pages/SettingsPage.tsx:193-194 | re-entering the shown (truncated) size keeps the stored bytes exactly when they are a whole number of MiB |
| SettingsPage.SettingsPageState.constructor | src/pages/SettingsPage.tsx:9-28 | the page starts with the defaults and no pending changes |
| SettingsPage.SettingsPageState.ChangeSetting | src/pages/SettingsPage.tsx:30-39 | one key changes and the page has changes |
| SettingsPage.SettingsPageState.ChooseLanguage | src/pages/SettingsPage.tsx:251-254 | the language setting and the UI language both become the choice |
| SettingsPage.SettingsPageState.AddExcludePattern | src/pages/SettingsPage.tsx:68-76 | the patterns become `AddedPatterns` of the answer. The page is marked changed only when the list changed, and patterns stay duplicate-free |
| SettingsPage.SettingsPageState.RemoveExcludePattern | src/pages/SettingsPage.tsx:88-94 | every copy of the pattern is removed and the page is marked changed |
| SettingsPage.SettingsPageState.Reset | src/pages/SettingsPage.tsx:46-66 | reset restores the defaults and marks the page changed |
| SettingsPage.SettingsPageState.Save | src/pages/SettingsPage.tsx:41-44 | the store receives the JSON of the current settings and the page has no pending changes |
| SettingsPage.SettingsPageState.LoadOnMount | src/pages/SettingsPage.tsx:78-86 | a loaded value that reads as settings replaces the page's; the UI language is handed any truthy stored `ui.language`, also from a value of another shape; null or a rejection changes nothing |
| IndexManagementPage.Removed | src/pages/IndexManagementPage.tsx:39-41 | exactly the entries with another path remain |
| IndexManagementPage.RemovedDistributes | src/pages/IndexManagementPage.tsx:39-41 | removal works entry by entry, over concatenation |
| IndexManagementPage.RemovedAbsentIsIdentity | src/pages/IndexManagementPage.tsx:39-41 | removing an absent path changes nothing |
| IndexManagementPage.Toggled | src/pages/IndexManagementPage.tsx:43-47 | the matching entries flip `enabled`, and every other field and entry is kept |
| IndexManagementPage.ToggleTwiceRestores | src/pages/IndexManagementPage.tsx:43-47 | toggling twice restores the list |
| IndexManagementPage.RemoveAfterToggle | src/pages/IndexManagementPage.tsx:39-47 | removing after toggling equals removing directly |
| IndexManagementPage.RemoveAfterToggleHelper | src/pages/IndexManagementPage.tsx:39-47 | the same, by induction on the list |
| IndexManagementPage.Tick | src/pages/IndexManagementPage.tsx:60-83 | progress rises by 5, capped at 100. Below 100 the indexed count is the floor of progress × total / 100. At 100 the rebuild ends with all files indexed, 156 MiB and the time stamp |
| IndexManagementPage.TickKeepsBounds | src/pages/IndexManagementPage.tsx:60-83 | a tick keeps progress in 0..100 and indexed ≤ total, and never lowers progress |
| IndexManagementPage.TicksMonotone | src/pages/IndexManagementPage.tsx:60-83 | progress never decreases over any number of ticks |
| IndexManagementPage.TicksFromStart | src/pages/IndexManagementPage.tsx:49-83 | after n ≤ 20 ticks from the start, progress is 5n, and the rebuild finishes exactly at the 20th |
| IndexManagementPage.IndexManagementState.constructor | src/pages/IndexManagementPage.tsx:6-14 | no directories and the empty index status |
| IndexManagementPage.IndexManagementState.Mount | src/pages/IndexManagementPage.tsx:17-32 | mounting installs the two mock directories |
| IndexManagementPage.IndexManagementState.AddDirectory | src/pages/IndexManagementPage.tsx:34-37 | the add button changes nothing |
| IndexManagementPage.IndexManagementState.RemoveDirectory | src/pages/IndexManagementPage.tsx:39-41 | the list becomes `Removed` of the old list |
| IndexManagementPage.IndexManagementState.ToggleDirectory | src/pages/IndexManagementPage.tsx:43-47 | the list becomes `Toggled` of the old list |
| IndexManagementPage.IndexManagementState.RebuildIndex | src/pages/IndexManagementPage.tsx:49-83 | the timer runs 20 ticks and ends with 1250 of 1250 files, 156 MiB, not indexing |
| UseTheme.OnlySystemFollowsOs | src/hooks/useTheme.ts:11-13 | dark is always dark and light always light. Only `system` follows the OS preference |
| UseTheme.WithTheme | src/hooks/useTheme.ts:30-36 | the spread write-back is an object whose `ui.theme` is the new mode; every other top-level member of a stored object, and every other `ui` member of an object-valued `ui`, is as before, known to the record or not |
| UseTheme.WithThemeDecodes | src/hooks/useTheme.ts:30-36 | a stored value that reads as settings still does after the write-back, as the same settings with only the theme changed |
| UseTheme.PersistTheme | src/hooks/useTheme.ts:27-38 | null, another falsy value or a rejected load writes nothing; a truthy stored value is written back so that the next load gives it with `ui.theme` replaced |
| UseTheme.PersistThemeChangesOnlyTheme | src/hooks/useTheme.ts:27-38 | after a theme change, loading yields the stored JSON with `ui.theme` replaced; stored settings read back as the same settings with only the theme changed |
| UseTheme.ThemeController.constructor | src/hooks/useTheme.ts:7 | the hook starts in `system` and not listening |
| UseTheme.ThemeController.ApplyTheme | src/hooks/useTheme.ts:9-20 | the root's dark class is set exactly when `IsDark` holds |
| UseTheme.ThemeController.SetTheme | src/hooks/useTheme.ts:22-39 | the theme and the root class follow the choice, and the store receives `PersistTheme` |
| UseTheme.ThemeController.Init | src/hooks/useTheme.ts:42-53 | a stored `ui.theme` naming a mode is adopted and applied, whatever the rest of the value. A truthy `ui.theme` naming no mode clears the dark class. Null, or no theme, applies `system` and keeps the state. A rejected load does nothing |
| UseTheme.ThemeController.Listen | src/hooks/useTheme.ts:56-66 | the OS listener is attached |
| UseTheme.ThemeController.StopListening | src/hooks/useTheme.ts:64 | the cleanup detaches the listener |
| UseTheme.ThemeController.OsChanged | src/hooks/useTheme.ts:57-61 | an OS change re-applies the theme only while listening in `system` mode |
| I18n.Split | src/i18n/index.tsx:16 | `split('.')` yields at least one part, and no part contains a dot |
| I18n.SplitJoin | src/i18n/index.tsx:16 | joining the parts with dots gives back the key |
| I18n.Step | src/i18n/index.tsx:16 | one step finds a non-null member of an object, and is undefined otherwise |
| I18n.Walk | src/i18n/index.tsx:15-17 | a walk of at least one key that ends defined ends on a non-null value and started from an object |
| I18n.Lookup | src/i18n/index.tsx:15-17 | `get` finds only non-null values, and only inside an object |
| I18n.UndefinedAbsorbs | src/i18n/index.tsx:16 | once undefined, the lookup stays undefined |
| I18n.WalkConcat | src/i18n/index.tsx:15-17 | walking a + b is walking a, then b |
| I18n.MissingSegmentIsUndefined | src/i18n/index.tsx:15-17 | a missing or null segment makes the whole path undefined |
| I18n.DefinedMeansFound | src/i18n/index.tsx:15-17 | a defined result is non-null and its parent is an object |
| I18n.ShiftOccurs | src/i18n/index.tsx:21 | occurrences in the tail are occurrences in the whole string, shifted by one |
| I18n.NoFirstCharNoOccurrence | src/i18n/index.tsx:21 | a pattern whose first character is absent never occurs |
| I18n.ReplaceAtStart | src/i18n/index.tsx:21 | an occurrence at the start is replaced and the scan resumes after it |
| I18n.ReplaceSkipsFirst | src/i18n/index.tsx:21 | without an occurrence at the start, the first character is kept and the scan moves on by one |
| I18n.ReplaceAbsent | src/i18n/index.tsx:21 | replacing an absent pattern changes nothing |
| I18n.ReplaceFirst | src/i18n/index.tsx:21 | a global replace rewrites the leftmost occurrence and continues after it |
| I18n.ReplaceAll | src/i18n/index.tsx:21 | replacing a pattern by itself changes nothing, and a replacement as long as the pattern keeps the length |
| I18n.Placeholder | src/i18n/index.tsx:21 | a placeholder is braced |
| I18n.Substitute | src/i18n/index.tsx:19-22 | the reduce over the parameters leaves a message without `{` as it is |
| I18n.BraceFreeUnreplaced | src/i18n/index.tsx:21 | a message without `{` holds no placeholder, so one replacement leaves it alone |
| I18n.Format | src/i18n/index.tsx:19-22 | without parameters, or without any `{`, the message is returned as it is |
| I18n.FormatOne | src/i18n/index.tsx:19-22 | a single `{k}` is replaced by its parameter's text |
| I18n.ToLocale | src/i18n/index.tsx:24-26 | "zh-CN" maps to itself, and every other language to "en-US" |
| I18n.Translate | src/i18n/index.tsx:37-43 | a string found under the key is formatted, and anything else yields the key itself |
| I18n.UnknownLanguageGivesKey | src/i18n/index.tsx:37-43 | a language without a dictionary shows keys |
| SearchResultsView.DiffDays | src/components/SearchResults.tsx:44-46 | the day difference is the ceiling of the absolute gap in days, and 0 exactly for equal times |
| SearchResultsView.DiffDaysSymmetric | src/components/SearchResults.tsx:44-46 | past and future dates at the same distance get the same day count |
| SearchResultsView.FormatDate | src/components/SearchResults.tsx:42-57 | the label for the rounded-up day distance: a day count is 2 to 6, and the date label carries the timestamp itself and is used from 7 days on |
| SearchResultsView.FormatDateBuckets | src/components/SearchResults.tsx:42-57 | today for a gap of 0, yesterday up to one day, "n days ago" for n = 2..6, and the locale date beyond six days |
| SearchResultsView.IconFor | src/components/SearchResults.tsx:30-40 | the blue document icon is used exactly for txt/md/doc/docx in any case |
| SearchResultsView.LowerIdempotent | src/components/SearchResults.tsx:31 | lower-casing twice equals lower-casing once |
| SearchResultsView.IconIgnoresCase | src/components/SearchResults.tsx:30-40 | the icon depends on the type only up to case |
| SearchResultsView.RenderBranch | src/components/SearchResults.tsx:66-113 | spinner while loading; otherwise the prompt for an empty query, "no results" for an empty list, and the list otherwise |
| SearchResultsView.ShownHighlights | src/components/SearchResults.tsx:175-177 | the first two highlights at most, as a prefix |
| SearchResultsView.ContextMenu.constructor | src/components/SearchResults.tsx:19 | the menu starts hidden with no item |
| SearchResultsView.ContextMenu.Open | src/components/SearchResults.tsx:119-125 | the menu opens at `min(clientX, innerWidth - 180)`, `min(clientY, innerHeight - 100)`: at the click, moved left and up only as far as needed to fit 180×100 in the window |
| SearchResultsView.ContextMenu.Hide | src/components/SearchResults.tsx:20-29 | a click elsewhere hides the menu |
| SearchResultsView.ContextMenu.Choose | src/components/SearchResults.tsx:190-214 | a menu action targets the selected item's path and closes the menu |
| Search.Utf8Width | src-tauri/src/search.rs:7-12 | each char takes 1 to 4 UTF-8 bytes |
| Search.ByteLen | src-tauri/src/search.rs:7-12 | a string has at least as many bytes as chars |
| Search.ByteLenConcat | src-tauri/src/search.rs:7-12 | byte length adds over concatenation |
| Search.PrefixBytesOrdered | src-tauri/src/search.rs:7-12 | longer char prefixes have strictly more bytes, in both directions |
| Search.CharsWithin | src-tauri/src/search.rs:7 | the chars that fit in a byte count never exceed the length |
| Search.CharsWithinPrefix | src-tauri/src/search.rs:7 | counting chars within the bytes of a k-char prefix gives k |
| Search.BoundaryChars | src-tauri/src/search.rs:7 | at a char boundary, the counted chars span exactly those bytes |
| Search.ByteToCharIdx | src-tauri/src/search.rs:7 | `byte_to_char_idx` gives the char index whose prefix has exactly that many bytes |
| Search.ByteOffset | src-tauri/src/search.rs:8-12 | the byte offset of a char index is a boundary, and the full length past the end |
| Search.CharByteChar | src-tauri/src/search.rs:7-12 | char → byte → char is the identity |
| Search.ByteCharByte | src-tauri/src/search.rs:7-12 | byte → char → byte is the identity on boundaries |
| Search.CharToByteIdx | src-tauri/src/search.rs:8-12 | the `char_indices().nth(c)` loop returns `ByteOffset` |
| Search.SliceChars | src-tauri/src/search.rs:42-47 | slicing between the byte offsets of char positions i and j yields exactly chars i..j |
| Search.SliceAt | src-tauri/src/search.rs:42-47 | slicing between the byte offsets of two char indices gives those chars |
| Search.LowerKeepsByteLen | src-tauri/src/search.rs:28-29 | ASCII lower-casing keeps byte offsets aligned |
| Search.FindFrom | src-tauri/src/search.rs:32 | the search returns an occurrence at or after the start, or none exists there |
| Search.FindFirst | src-tauri/src/search.rs:32 | `find` returns the leftmost occurrence, or none exists |
| Search.Snippet | src-tauri/src/search.rs:26-27 | empty text or query gives an empty snippet |
| Search.SnippetWithMatch | src-tauri/src/search.rs:32-49 | with a match at m, the snippet is up to `pre` chars before, the marked match, and up to `post` chars after, all contiguous in the text |
| Search.SnippetWithoutMatch | src-tauri/src/search.rs:50-52 | with no match, the snippet is the first pre+post chars |
| Search.MatchCharOffset | src-tauri/src/search.rs:33-35 | a byte position found in the lowered text is a char boundary of the original, at the same char index |
| Search.MarkedWindow | src-tauri/src/search.rs:36-47 | the byte-offset code builds `Window` of the text |
| Search.SnippetWithHighlight | src-tauri/src/search.rs:26-53 | the byte-offset implementation equals the char-level `Snippet` |
| Search.Highlights | src-tauri/src/search.rs:80-84 | one highlight (the 60/140 snippet) exactly when both content and query are non-empty |
| Search.SnippetNonEmpty | src-tauri/src/search.rs:26-53 | for non-empty text and a positive window, the snippet is empty exactly when the query is |
| Search.Window | src-tauri/src/search.rs:36-47 | the window holds the marked match after at most `pre` chars, all the text before the match when `pre` reaches the start, and is at most pre + post chars longer than the marked match |
| Search.ResultOf | src-tauri/src/search.rs:73-85 | missing stored fields default to "" and 0, and the id is the file path |
| Search.Assemble | src-tauri/src/search.rs:72-86 | results succeed exactly when every document read succeeds, and then map one to one |
| Search.AssembleFirstError | src-tauri/src/search.rs:72-86 | the first failed read is the error returned |
| Search.LimitDefaultsTo50 | src-tauri/src/search.rs:56 | no limit means 50 |
| Search.SearchSpec | src-tauri/src/search.rs:55-88 | a missing index gives no results, an engine error is returned as is, and otherwise there is one result per hit, in order, each built from its document |
| Search.SearchResultsAreHits | src-tauri/src/search.rs:55-88 | a missing index gives no results. Every result's id is its file path, and it has at most one highlight |
| Search.DoSearchIndex | src-tauri/src/search.rs:55-88 | the command's loop returns `SearchSpec` |
| Indexer.DirectAll | src-tauri/src/indexer.rs:98-107 | a flat listing yields only immediate children |
| Indexer.Resolve | src-tauri/src/indexer.rs:90-104 | following links ends on a non-link, or on a dangling link; a non-link is itself |
| Indexer.FilesOf | src-tauri/src/indexer.rs:87-107 | a disabled setting or a missing path contributes nothing |
| Indexer.CollectSpec | src-tauri/src/indexer.rs:85-110 | a path is collected exactly when some setting contributes it |
| Indexer.CollectStep | src-tauri/src/indexer.rs:85-110 | appending one setting adds exactly its contribution to the collected paths |
| Indexer.FilesOfBelow | src-tauri/src/indexer.rs:87-107 | every file a setting contributes lies below its configured path |
| Indexer.WalkRootStaysBelow | src-tauri/src/indexer.rs:89-97 | a walk from a configured path, through a link or not, never leaves that path |
| Indexer.RootLinkFollowed | src-tauri/src/indexer.rs:89-104 | a configured path that is a link is followed: to a directory, it is listed through the link in both modes under the configured path; to a file, the walk yields the path and the flat listing nothing; a dangling link yields nothing |
| Indexer.WalkStaysBelow | src-tauri/src/indexer.rs:89-97 | a recursive walk never leaves its root |
| Indexer.WalkAllStaysBelow | src-tauri/src/indexer.rs:89-97 | the same for a list of children |
| Indexer.CollectedBelowEnabled | src-tauri/src/indexer.rs:85-110 | every collected file lies under some enabled directory |
| Indexer.DisabledContributesNothing | src-tauri/src/indexer.rs:87 | a disabled directory adds no files |
| Indexer.FlatDirectoryModesAgree | src-tauri/src/indexer.rs:89-107 | in a directory of plain files, recursive and flat collection agree |
| Indexer.ListFiles | src-tauri/src/indexer.rs:98-107 | the flat loop over a directory's entries returns `DirectAll`: the file entries, links to files included, in order |
| Indexer.SettingFiles | src-tauri/src/indexer.rs:87-107 | one setting pushes nothing when disabled or missing; when recursive, the walk from what a link at the configured path leads to; otherwise the flat listing of the directory the path leads to |
| Indexer.CollectFiles | src-tauri/src/indexer.rs:85-110 | the loops return `CollectSpec` |
| Indexer.LastDot | src-tauri/src/indexer.rs:145-149 | the position of the last dot, or none |
| Indexer.Extension | src-tauri/src/indexer.rs:145-149 | an extension contains no dot |
| Indexer.ExtensionOfJoined | src-tauri/src/indexer.rs:145-149 | `stem.ext` has extension `ext` |
| Indexer.ExtractorFor | src-tauri/src/indexer.rs:153-171 | the dispatch table, each direction |
| Indexer.MakeDoc | src-tauri/src/indexer.rs:136-195 | title = file name, path kept, type = lowered extension, content only when non-empty, and time and size only with metadata |
| Indexer.UnsupportedHasNoContent | src-tauri/src/indexer.rs:153-171 | an unknown extension gives no content |
| Indexer.SizeIgnoresNestedContents | src-tauri/src/indexer.rs:329-340 | the directory size does not depend on what subdirectories contain |
| Indexer.ComputeDirSize | src-tauri/src/indexer.rs:329-340 | the loop returns `DirSizeSpec` |
| Indexer.AppIndexDir | src-tauri/src/indexer.rs:19-25 | `<config>/indexes/default`, or `./indexes/default` without a config directory |
| Indexer.PerFileEvents | src-tauri/src/indexer.rs:294-313 | one indexing event per file with indexed = i + 1 of total |
| Indexer.IndexEach | src-tauri/src/indexer.rs:294-313 | the per-file loop makes one document per file in order and emits `PerFileEvents` |
| Indexer.RebuildEventsShape | src-tauri/src/indexer.rs:274-327 | total + 2 events: a start event, one per file counting 1..total, and a final event. The final event alone is not indexing, and it reports all files and the size |
| Indexer.IndexBackend.constructor | src-tauri/src/indexer.rs:274-327 | no events and no documents |
| Indexer.IndexBackend.IndexFiles | src-tauri/src/indexer.rs:294-313 | per-file events are appended and one document is made per file |
| Indexer.IndexBackend.RebuildIndex | src-tauri/src/indexer.rs:274-327 | when the index and its writer can be created, the emitted events are `RebuildEvents` of the collected files, and the documents are exactly those files' if the commit succeeds and none otherwise; when creation fails the thread panics right after the start event |

## Left out

- SettingsPage.SettingsPageState.LoadOnMount: a truthy stored value of another shape replaces the page's settings in the source; the model keeps the settings, because the page's state holds only well-shaped records. The language hand-off from such a value is modelled. For the same reason, members of a stored value that the record does not know are not carried into the page, so a later page save writes them away.
- UseTheme.ThemeController.Init: a truthy `ui.theme` that names no mode becomes the theme state in the source; the model keeps the previous state and models only the class, which is cleared.
- Json.Spread: the spread of a number, boolean or null adds nothing; JavaScript property order (integer-like keys first) is not modelled, and members are kept in their stored order.
- Indexer.Resolve: a cycle of links cannot be written as an `Entry` value, so the loop errors that walkdir and `read_dir` report for one are not modelled.
- Indexer.IndexBackend.RebuildIndex: the documents left behind when creating the index or its writer fails are not stated; they depend on how much of the ignored `remove_dir_all` succeeded.
- Floating point is not modelled:
  - search-time measurement and rounding;
  - score normalisation;
  - `formatFileSize`;
  - the match-precision percentage;
  - the f32 per-file progress of the rebuild, which is a parameter `percent`.
- The floor in the simulated rebuild is computed exactly on integers.
- Lower-casing is ASCII only. Rust's Unicode `to_lowercase` can change byte lengths, and the original then panics or misplaces the mark: for the text "\u{212A}x" (KELVIN SIGN, 3 bytes, lowers to the 1-byte "k") and the query "x", `find` on the lowered text returns byte 1, and `byte_to_char_idx` slices the original text at byte 1, inside the Kelvin sign (src-tauri/src/search.rs:7,32-33). The model does not reach that panic.
- The byte position that `find` returns is modelled at char level; `MatchCharOffset` relates the two.
- Regular expressions are reduced to literal text:
  - a format key is treated as literal text, not as a regex;
  - `$` patterns in the replacement text are not expanded;
  - the `highlightText` regex markup is not modelled.
- JavaScript property access on string and number leaves, and the prototype chain, are not modelled.
- `Object.keys` order is given as the order of the parameter list.
- Concurrency is not modelled:
  - overlapping rebuild timers and `thread::spawn`;
  - event delivery;
  - React batching and stale closures;
  - unhandled promise rejections, which are modelled as "no change".
- NaN from `parseInt` and `parseFloat` is not modelled.
- `u64` and `usize` overflow are not modelled.
- tantivy, the text extractors and the file system are abstract functions (`Io`, the search engine). `Meta.modifiedMs` stands for the now-minus-elapsed computation.
- The locale date string is the label `LocaleDate`, with no text.
- The Tauri command registration in src-tauri/src/lib.rs is not part of this model. The frontend is modelled against its declared response.
- The add-directory button is a stub in the source; it is modelled as no change.
- The presets' "checked" display, the filter panel toggle and the sidebar, modal, app shell and search-history components are presentation only.
- The directory path of a command is a list of path components.
- The walk order is the order of the children list.
- The provider's language state in src/i18n/index.tsx is glue. Only lookup, formatting and the locale mapping are modelled.
- `I18n.DefaultTranslate` carries no contract. It is `Translate` over the built-in dictionaries, and those dictionary texts are not part of this model.
