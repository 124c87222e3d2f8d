/** The records shared by the frontend and the backend: the TypeScript
    interfaces of src/types/index.ts and the serde structs of
    src-tauri/src/types.rs. Numbers the source keeps as JavaScript numbers are
    integers here, except the match precision slider value, a real. */
module Types {
  import opened Wrappers

  /** One hit as the frontend receives it. The score is a float and is not modelled. */
  datatype SearchResult = SearchResult(
    id: string,
    title: string,
    content: string,
    filePath: string,
    fileType: string,
    modifiedTime: int,
    highlights: seq<string>)

  datatype DirectoryConfig = DirectoryConfig(
    path: string,
    enabled: bool,
    recursive: bool,
    lastIndexed: int)

  datatype DateRange = DateRange(start: Option<int>, end: Option<int>)

  datatype DatePreset = Any | LastDay | LastWeek | LastMonth

  datatype SizeRange = SizeRange(min: Option<int>, max: Option<int>)

  /** Every field is optional; `None` is the absent (undefined) property. */
  datatype SearchFilters = SearchFilters(
    fileTypes: Option<seq<string>>,
    dateRange: Option<DateRange>,
    datePreset: Option<DatePreset>,
    fileSizeRange: Option<SizeRange>)

  /** The empty filters record `{}`. */
  const NoFilters := SearchFilters(None, None, None, None)

  datatype IndexStatus = IndexStatus(
    isIndexing: bool,
    progress: int,
    totalFiles: int,
    indexedFiles: int,
    indexSize: int,
    lastUpdated: int)

  datatype ThemeMode = Light | Dark | System

  datatype SearchSettings = SearchSettings(
    resultsPerPage: int,
    matchPrecision: real,
    enableHighlighting: bool)

  datatype IndexingSettings = IndexingSettings(
    autoUpdate: bool,
    updateInterval: int,
    excludePatterns: seq<string>,
    maxFileSize: int)

  datatype UiSettings = UiSettings(
    theme: ThemeMode,
    language: string,
    showThumbnails: bool)

  datatype AppSettings = AppSettings(
    search: SearchSettings,
    indexing: IndexingSettings,
    ui: UiSettings)
}
