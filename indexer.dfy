/** src-tauri/src/indexer.rs: which files a rebuild indexes, how each file
    becomes an index document, the progress events a rebuild emits, the
    size of the index directory, and where the index lives. The file system
    is a tree of entries; the text extractors, the clock and the
    full-text engine are parameters. A path is the list of its components. */
module Indexer {
  import opened Wrappers
  import opened Strings

  type Path = seq<string>

  /** A directory entry. A directory's and a link's own metadata length is
      `len`; a link holds the entry it points at, None when it dangles. */
  datatype Entry =
    | File(name: string, size: nat)
    | Dir(name: string, len: nat, children: seq<Entry>)
    | Link(name: string, len: nat, target: Option<Entry>)

  /** What the frontend sends for one directory; lastIndexed is unused here. */
  datatype DirectoryCmd = DirectoryCmd(path: Path, enabled: bool, recursive: bool)

  /** The entries at the configured paths; a missing path cannot be read. */
  type FileSystem = map<Path, Entry>

  // ---- collect_files_from_dirs ----

  /** A recursive walk below `path`: the regular files of the tree, in
      depth-first order. The walk does not follow links, and the metadata of a
      link entry is the link's own, so links are never collected. */
  function Walk(path: Path, e: Entry): seq<Path>
    decreases e, 1
  {
    match e
    case File(_, _) => [path]
    case Dir(_, _, kids) => WalkAll(path, kids)
    case Link(_, _, _) => []
  }

  /** What an entry is once links are followed, through chains of links;
      a dangling link stays a link. */
  function Resolve(e: Entry): (r: Entry)
    ensures r.Link? ==> r.target.None?
    ensures !e.Link? ==> r == e
  {
    if e.Link? && e.target.Some? then Resolve(e.target.value) else e
  }

  /** `WalkDir::new(root)`: a root that is a link is followed (walkdir's
      `follow_root_links`, on by default), so a link to a file yields the
      link's path and a link to a directory is walked under the link's path;
      a dangling root link is an error the walk drops. Below the root, links
      are not followed. */
  function WalkRoot(path: Path, e: Entry): seq<Path> {
    Walk(path, Resolve(e))
  }

  function WalkAll(path: Path, kids: seq<Entry>): seq<Path>
    decreases kids, 0
  {
    if kids == [] then []
    else WalkAll(path, kids[..|kids| - 1]) + Walk(path + [kids[|kids| - 1].name], kids[|kids| - 1])
  }

  /** `path.is_file()` follows links. */
  predicate IsFileFollowing(e: Entry) {
    Resolve(e).File?
  }

  /** The non-recursive case: `read_dir` follows a link at the configured
      path; the immediate entries that are files, links to files included,
      are kept; a path that does not lead to a directory cannot be listed. */
  function Direct(path: Path, e: Entry): seq<Path> {
    if Resolve(e).Dir? then DirectAll(path, Resolve(e).children) else []
  }

  function DirectAll(path: Path, kids: seq<Entry>): (r: seq<Path>)
    ensures forall p :: p in r ==> |p| == |path| + 1 && p[..|path|] == path
  {
    if kids == [] then []
    else
      var last := kids[|kids| - 1];
      DirectAll(path, kids[..|kids| - 1]) + (if IsFileFollowing(last) then [path + [last.name]] else [])
  }

  /** The files one directory setting contributes: nothing when it is
      disabled or its path is missing. */
  function FilesOf(fs: FileSystem, d: DirectoryCmd): (r: seq<Path>)
    ensures !d.enabled || d.path !in fs ==> r == []
  {
    if !d.enabled || d.path !in fs then []
    else if d.recursive then WalkRoot(d.path, fs[d.path])
    else Direct(d.path, fs[d.path])
  }

  /** What collect_files_from_dirs returns: the settings' files, in order;
      a path is collected exactly when some setting contributes it. */
  function CollectSpec(fs: FileSystem, ds: seq<DirectoryCmd>): (r: seq<Path>)
    ensures forall p :: p in r <==> exists i :: 0 <= i < |ds| && p in FilesOf(fs, ds[i])
  {
    if ds == [] then []
    else
      var n := |ds| - 1;
      var init := CollectSpec(fs, ds[..n]);
      assert ds == ds[..n] + [ds[n]];
      CollectStep(fs, ds[..n], ds[n], init);
      init + FilesOf(fs, ds[n])
  }

  /** Every path a walk yields lies below where the walk started. */
  lemma {:induction false} WalkStaysBelow(path: Path, e: Entry)
    ensures forall p :: p in Walk(path, e) ==> |path| <= |p| && p[..|path|] == path
    decreases e, 1
  {
    if e.Dir? {
      WalkAllStaysBelow(path, e.children);
    }
  }

  lemma WalkRootStaysBelow(path: Path, e: Entry)
    ensures forall p :: p in WalkRoot(path, e) ==> |path| <= |p| && p[..|path|] == path
  {
    WalkStaysBelow(path, Resolve(e));
  }

  /** Every file a setting contributes lies below its configured path. */
  lemma FilesOfBelow(fs: FileSystem, d: DirectoryCmd)
    ensures forall p :: p in FilesOf(fs, d) ==> |d.path| <= |p| && p[..|d.path|] == d.path
  {
    if d.enabled && d.path in fs {
      if d.recursive {
        WalkRootStaysBelow(d.path, fs[d.path]);
      }
    }
  }

  lemma {:induction false} WalkAllStaysBelow(path: Path, kids: seq<Entry>)
    ensures forall p :: p in WalkAll(path, kids) ==> |path| <= |p| && p[..|path|] == path
    decreases kids, 0
  {
    if kids != [] {
      var last := kids[|kids| - 1];
      WalkAllStaysBelow(path, kids[..|kids| - 1]);
      WalkStaysBelow(path + [last.name], last);
      forall p | p in Walk(path + [last.name], last) ensures p[..|path|] == path {
        assert p[..|path|] == p[..|path| + 1][..|path|];
      }
    }
  }

  lemma CollectStep(fs: FileSystem, pre: seq<DirectoryCmd>, d: DirectoryCmd, init: seq<Path>)
    requires forall p :: p in init <==> exists i :: 0 <= i < |pre| && p in FilesOf(fs, pre[i])
    ensures forall p :: p in init + FilesOf(fs, d) <==> exists i :: 0 <= i < |pre| + 1 && p in FilesOf(fs, (pre + [d])[i])
  {
    var ds := pre + [d];
    var last := FilesOf(fs, d);
    forall p ensures p in init + last <==> exists i :: 0 <= i < |ds| && p in FilesOf(fs, ds[i]) {
      assert p in init + last <==> p in init || p in last;
      if p in init {
        var i :| 0 <= i < |pre| && p in FilesOf(fs, pre[i]);
        assert ds[i] == pre[i];
      } else if p in last {
        assert ds[|pre|] == d;
      } else {
        forall i | 0 <= i < |ds| ensures p !in FilesOf(fs, ds[i]) {
          if i < |pre| {
            assert ds[i] == pre[i];
          }
        }
      }
    }
  }

  /** Only enabled settings contribute, and each file lies below the path of
      an enabled setting. */
  lemma CollectedBelowEnabled(fs: FileSystem, ds: seq<DirectoryCmd>)
    ensures forall p :: p in CollectSpec(fs, ds) ==>
      exists i :: 0 <= i < |ds| && ds[i].enabled && |ds[i].path| <= |p| && p[..|ds[i].path|] == ds[i].path
  {
    forall p | p in CollectSpec(fs, ds)
      ensures exists i :: 0 <= i < |ds| && ds[i].enabled && |ds[i].path| <= |p| && p[..|ds[i].path|] == ds[i].path
    {
      var i :| 0 <= i < |ds| && p in FilesOf(fs, ds[i]);
      FilesOfBelow(fs, ds[i]);
    }
  }

  /** A configured path that is a link is followed: to a directory, it is
      listed through the link in both modes, under the configured path; to a
      file, the recursive walk yields the path itself and the flat listing
      nothing; a dangling link yields nothing. */
  lemma RootLinkFollowed(fs: FileSystem, d: DirectoryCmd)
    requires d.enabled && d.path in fs && fs[d.path].Link?
    ensures var t := Resolve(fs[d.path]);
      && (t.Dir? ==> FilesOf(fs, d) == if d.recursive then WalkAll(d.path, t.children) else DirectAll(d.path, t.children))
      && (t.File? ==> FilesOf(fs, d) == if d.recursive then [d.path] else [])
      && (t.Link? ==> FilesOf(fs, d) == [])
  {
  }

  /** Turning off a setting removes exactly its contribution. */
  lemma DisabledContributesNothing(fs: FileSystem, ds: seq<DirectoryCmd>, d: DirectoryCmd)
    requires !d.enabled
    ensures CollectSpec(fs, ds + [d]) == CollectSpec(fs, ds)
  {
    assert (ds + [d])[..|ds|] == ds;
  }

  /** In a directory holding only regular files the two modes agree. */
  lemma {:induction false} FlatDirectoryModesAgree(path: Path, kids: seq<Entry>)
    requires forall i :: 0 <= i < |kids| ==> kids[i].File?
    ensures WalkAll(path, kids) == DirectAll(path, kids)
  {
    if kids != [] {
      FlatDirectoryModesAgree(path, kids[..|kids| - 1]);
    }
  }

  /** The flat branch of collect_files_from_dirs: a directory's entries are
      read one by one and the file entries pushed. */
  method ListFiles(path: Path, kids: seq<Entry>) returns (files: seq<Path>)
    ensures files == DirectAll(path, kids)
  {
    files := [];
    var j := 0;
    while j < |kids|
      invariant 0 <= j <= |kids|
      invariant files == DirectAll(path, kids[..j])
    {
      assert kids[..j + 1][..j] == kids[..j];
      if IsFileFollowing(kids[j]) {
        files := files + [path + [kids[j].name]];
      }
      j := j + 1;
    }
    assert kids[..j] == kids;
  }

  /** The files one setting pushes: what the walk yields for a recursive
      setting, the directory's file entries for a flat one. */
  method SettingFiles(fs: FileSystem, d: DirectoryCmd) returns (added: seq<Path>)
    ensures added == FilesOf(fs, d)
  {
    added := [];
    if d.enabled && d.path in fs {
      if d.recursive {
        added := WalkRoot(d.path, fs[d.path]);
      } else {
        var target := Resolve(fs[d.path]);
        if target.Dir? {
          added := ListFiles(d.path, target.children);
        }
      }
    }
  }

  lemma CollectSpecStep(fs: FileSystem, ds: seq<DirectoryCmd>, i: nat)
    requires i < |ds|
    ensures CollectSpec(fs, ds[..i + 1]) == CollectSpec(fs, ds[..i]) + FilesOf(fs, ds[i])
  {
    assert ds[..i + 1][..i] == ds[..i];
  }

  /** collect_files_from_dirs: each setting's files are pushed in order. */
  method CollectFiles(fs: FileSystem, ds: seq<DirectoryCmd>) returns (files: seq<Path>)
    ensures files == CollectSpec(fs, ds)
  {
    files := [];
    var i := 0;
    while i < |ds|
      invariant 0 <= i <= |ds|
      invariant files == CollectSpec(fs, ds[..i])
    {
      var added := SettingFiles(fs, ds[i]);
      CollectSpecStep(fs, ds, i);
      files := files + added;
      i := i + 1;
    }
    assert ds[..i] == ds;
  }

  // ---- make_doc ----

  /** The last component; empty for the empty path. */
  function FileName(p: Path): string {
    if p == [] then "" else p[|p| - 1]
  }

  /** The position of the last '.' in s, if any. */
  function LastDot(s: string): (r: Option<nat>)
    ensures r.Some? ==> r.value < |s| && s[r.value] == '.' && forall j :: r.value < j < |s| ==> s[j] != '.'
    ensures r.None? ==> '.' !in s
  {
    if s == [] then None
    else if s[|s| - 1] == '.' then Some(|s| - 1)
    else LastDot(s[..|s| - 1])
  }

  /** `Path::extension()` of a file name: what follows the last dot, unless
      there is no dot or the only dot starts the name. */
  function Extension(name: string): (r: Option<string>)
    ensures r.Some? ==> '.' !in r.value
  {
    match LastDot(name)
    case None => None
    case Some(i) => if i == 0 then None else Some(name[i + 1..])
  }

  /** A stem and an extension without dots give that extension back. */
  lemma ExtensionOfJoined(stem: string, ext: string)
    requires stem != [] && '.' !in stem && '.' !in ext
    ensures Extension(stem + "." + ext) == Some(ext)
  {
    var s := stem + "." + ext;
    assert s[|stem|] == '.';
    assert '.' in s;
    assert forall j :: |stem| < j < |s| ==> s[j] == ext[j - |stem| - 1];
    assert s[|stem| + 1..] == ext;
  }

  /** The extractor the lower-cased extension selects. */
  datatype Extractor = PlainText | DocxXml | NoExtractor | Spreadsheet | PdfText

  function ExtractorFor(ext: string): (x: Extractor)
    ensures x == PlainText <==> ext in {"txt", "md", "rs", "js", "ts", "json"}
    ensures x == DocxXml <==> ext == "docx"
    ensures x == Spreadsheet <==> ext in {"xls", "xlsx"}
    ensures x == PdfText <==> ext == "pdf"
  {
    if ext in {"txt", "md", "rs", "js", "ts", "json"} then PlainText
    else if ext == "docx" then DocxXml
    else if ext == "doc" then NoExtractor
    else if ext in {"xls", "xlsx"} then Spreadsheet
    else if ext == "pdf" then PdfText
    else NoExtractor
  }

  /** The file's metadata as make_doc uses it: the modification time already
      turned into milliseconds (0 when unavailable) and the length. */
  datatype Meta = Meta(modifiedMs: int, len: nat)

  /** The outside world make_doc reads: the file as text, the extractors and the metadata. */
  datatype Io = Io(
    readToString: Path -> Option<string>,
    readDocx: Path -> string,
    readSpreadsheet: Path -> string,
    extractPdf: Path -> Option<string>,
    metadata: Path -> Option<Meta>)

  /** The text make_doc indexes: empty when the read fails, for `doc` and
      for every other extension. */
  function TextOf(io: Io, p: Path, ext: string): string {
    match ExtractorFor(ext)
    case PlainText => io.readToString(p).GetOr("")
    case DocxXml => io.readDocx(p)
    case NoExtractor => ""
    case Spreadsheet => io.readSpreadsheet(p)
    case PdfText => io.extractPdf(p).GetOr("")
  }

  /** An index document; an absent field is None. */
  datatype IndexDoc = IndexDoc(
    title: string,
    content: Option<string>,
    filePath: Path,
    fileType: string,
    modifiedTime: Option<int>,
    fileSize: Option<nat>)

  function MakeDoc(io: Io, p: Path): (doc: IndexDoc)
    ensures doc.title == FileName(p) && doc.filePath == p
    ensures doc.fileType == Lower(Extension(FileName(p)).GetOr(""))
    ensures doc.content.Some? <==> TextOf(io, p, doc.fileType) != ""
    ensures doc.content.Some? ==> doc.content.value == TextOf(io, p, doc.fileType)
    ensures doc.modifiedTime.Some? <==> io.metadata(p).Some?
    ensures doc.fileSize.Some? <==> io.metadata(p).Some?
    ensures io.metadata(p).Some? ==> doc.modifiedTime.value == io.metadata(p).value.modifiedMs
                                     && doc.fileSize.value == io.metadata(p).value.len
  {
    var ext := Lower(Extension(FileName(p)).GetOr(""));
    var text := TextOf(io, p, ext);
    var meta := io.metadata(p);
    IndexDoc(FileName(p), if text != "" then Some(text) else None, p, ext,
             if meta.Some? then Some(meta.value.modifiedMs) else None,
             if meta.Some? then Some(meta.value.len) else None)
  }

  /** A `doc` file, or one with an unknown extension, is indexed without content. */
  lemma UnsupportedHasNoContent(io: Io, p: Path)
    requires ExtractorFor(Lower(Extension(FileName(p)).GetOr(""))) == NoExtractor
    ensures MakeDoc(io, p).content.None?
  {
  }

  // ---- compute_dir_size ----

  /** The length in an entry's own metadata (links are not followed). */
  function EntryLen(e: Entry): nat {
    match e
    case File(_, size) => size
    case Dir(_, len, _) => len
    case Link(_, len, _) => len
  }

  /** The sum of the immediate entries' lengths. */
  function SizeSum(kids: seq<Entry>): nat {
    if kids == [] then 0 else SizeSum(kids[..|kids| - 1]) + EntryLen(kids[|kids| - 1])
  }

  /** What compute_dir_size gives: 0 when the directory cannot be listed. */
  function DirSizeSpec(dir: Option<Entry>): nat {
    if dir.Some? && dir.value.Dir? then SizeSum(dir.value.children) else 0
  }

  /** Only immediate entries count: replacing what a sub-directory holds does
      not change the size. */
  lemma {:induction false} SizeIgnoresNestedContents(kids: seq<Entry>, i: nat, inner: seq<Entry>)
    requires i < |kids| && kids[i].Dir?
    ensures SizeSum(kids[i := kids[i].(children := inner)]) == SizeSum(kids)
  {
    var k2 := kids[i := kids[i].(children := inner)];
    var n := |kids| - 1;
    if i < n {
      assert k2[..n] == kids[..n][i := kids[i].(children := inner)];
      SizeIgnoresNestedContents(kids[..n], i, inner);
    } else {
      assert k2[..n] == kids[..n];
    }
  }

  /** compute_dir_size: adds up the lengths of the directory's entries. */
  method ComputeDirSize(dir: Option<Entry>) returns (size: nat)
    ensures size == DirSizeSpec(dir)
  {
    size := 0;
    if dir.Some? && dir.value.Dir? {
      var kids := dir.value.children;
      var i := 0;
      while i < |kids|
        invariant 0 <= i <= |kids|
        invariant size == SizeSum(kids[..i])
      {
        assert kids[..i + 1][..i] == kids[..i];
        size := size + EntryLen(kids[i]);
        i := i + 1;
      }
      assert kids[..i] == kids;
    }
  }

  // ---- app_index_dir ----

  /** `<config dir or ".">/indexes/default`. */
  function AppIndexDir(configDir: Option<Path>): (p: Path)
    ensures |p| >= 2 && p[|p| - 2..] == ["indexes", "default"]
    ensures configDir.Some? ==> p[..|p| - 2] == configDir.value
    ensures configDir.None? ==> p == [".", "indexes", "default"]
  {
    configDir.GetOr(["."]) + ["indexes", "default"]
  }

  // ---- do_rebuild_index ----

  /** One `index-progress` event. */
  datatype Progress = Progress(isIndexing: bool, progress: int, total: nat, indexed: nat, size: nat, lastUpdated: int)

  /** The events for the files one to n; `percent` stands for the float
      rounding of indexed / total × 100. */
  function PerFileEvents(total: nat, n: nat, percent: (nat, nat) -> int): (es: seq<Progress>)
    ensures |es| == n
    ensures forall i :: 0 <= i < n ==> es[i].isIndexing && es[i].indexed == i + 1 && es[i].total == total
                                       && es[i].size == 0 && es[i].lastUpdated == 0
  {
    if n == 0 then [] else PerFileEvents(total, n - 1, percent) + [Progress(true, percent(n, total), total, n, 0, 0)]
  }

  /** The whole event sequence of a rebuild over `total` files. */
  function RebuildEvents(total: nat, percent: (nat, nat) -> int, size: nat, now: int): seq<Progress> {
    [Progress(true, 0, total, 0, 0, 0)] + PerFileEvents(total, total, percent) + [Progress(false, 100, total, total, size, now)]
  }

  /** A start event, one event per file counting 1, 2, …, total, and a final
      event that is the only one not indexing and reports indexed = total. */
  lemma RebuildEventsShape(total: nat, percent: (nat, nat) -> int, size: nat, now: int)
    ensures var es := RebuildEvents(total, percent, size, now);
      |es| == total + 2
      && es[0] == Progress(true, 0, total, 0, 0, 0)
      && es[|es| - 1] == Progress(false, 100, total, total, size, now)
      && (forall i :: 0 <= i < |es| ==> es[i].total == total && es[i].indexed == (if i <= total then i else total))
      && (forall i :: 0 <= i < |es| ==> (es[i].isIndexing <==> i < |es| - 1))
  {
    var es := RebuildEvents(total, percent, size, now);
    var mid := PerFileEvents(total, total, percent);
    assert forall i :: 1 <= i <= total ==> es[i] == mid[i - 1];
  }

  /** The index holds one document per file, in file order. */
  predicate DocsOf(docs: seq<IndexDoc>, files: seq<Path>, io: Io) {
    |docs| == |files| && forall i :: 0 <= i < |files| ==> docs[i] == MakeDoc(io, files[i])
  }

  lemma DocsOfAppend(docs: seq<IndexDoc>, files: seq<Path>, io: Io, f: Path)
    requires DocsOf(docs, files, io)
    ensures DocsOf(docs + [MakeDoc(io, f)], files + [f], io)
  {
  }

  lemma PerFileEventsStep(total: nat, n: nat, percent: (nat, nat) -> int)
    ensures PerFileEvents(total, n + 1, percent) == PerFileEvents(total, n, percent) + [Progress(true, percent(n + 1, total), total, n + 1, 0, 0)]
  {
  }

  /** The documents made and the events emitted by the loop over the files. */
  method IndexEach(files: seq<Path>, io: Io, percent: (nat, nat) -> int) returns (emitted: seq<Progress>, docs: seq<IndexDoc>)
    ensures emitted == PerFileEvents(|files|, |files|, percent)
    ensures DocsOf(docs, files, io)
  {
    var total := |files|;
    emitted := [];
    docs := [];
    var indexed := 0;
    while indexed < total
      invariant 0 <= indexed <= total
      invariant emitted == PerFileEvents(total, indexed, percent)
      invariant DocsOf(docs, files[..indexed], io)
    {
      var f := files[indexed];
      DocsOfAppend(docs, files[..indexed], io, f);
      assert files[..indexed + 1] == files[..indexed] + [f];
      docs := docs + [MakeDoc(io, f)];
      PerFileEventsStep(total, indexed, percent);
      emitted := emitted + [Progress(true, percent(indexed + 1, total), total, indexed + 1, 0, 0)];
      indexed := indexed + 1;
    }
    assert files[..indexed] == files;
  }

  /** The rebuild's effects: the events it emitted and the documents in the index. */
  class IndexBackend {
    var events: seq<Progress>
    var indexDocs: seq<IndexDoc>

    constructor ()
      ensures events == [] && indexDocs == []
    {
      events := [];
      indexDocs := [];
    }

    /** The loop over the files: one document and one event per file. */
    method IndexFiles(files: seq<Path>, io: Io, percent: (nat, nat) -> int)
      modifies this
      ensures events == old(events) + PerFileEvents(|files|, |files|, percent)
      ensures DocsOf(indexDocs, files, io)
    {
      var emitted, docs := IndexEach(files, io, percent);
      events := events + emitted;
      indexDocs := docs;
    }

    /** The rebuild's thread: collect the files, announce the start, wipe the
        index, open a fresh index and its writer, add one document per file
        with an event after each, commit, then announce completion with the
        index directory's size. `created` says whether creating the index and
        its writer succeeds: when either fails the thread panics right after
        the start event. `committed` says whether the commit succeeds: its
        error is ignored, so every event is still emitted, but the fresh
        index then holds no documents. */
    method RebuildIndex(fs: FileSystem, ds: seq<DirectoryCmd>, io: Io, percent: (nat, nat) -> int,
                        created: bool, committed: bool, indexDirAfter: Option<Entry>, now: int)
      modifies this
      ensures var files := CollectSpec(fs, ds);
        if !created then
          events == old(events) + [Progress(true, 0, |files|, 0, 0, 0)]
        else
          events == old(events) + RebuildEvents(|files|, percent, DirSizeSpec(indexDirAfter), now)
          && (committed ==> DocsOf(indexDocs, files, io))
          && (!committed ==> indexDocs == [])
    {
      var files := CollectFiles(fs, ds);
      var total := |files|;
      var start := events;
      events := events + [Progress(true, 0, total, 0, 0, 0)];
      if !created {
        return;
      }
      IndexFiles(files, io, percent);
      if !committed {
        indexDocs := [];
      }
      var size := ComputeDirSize(indexDirAfter);
      events := events + [Progress(false, 100, total, total, size, now)];
      assert events == start + ([Progress(true, 0, total, 0, 0, 0)] + PerFileEvents(total, total, percent) + [Progress(false, 100, total, total, size, now)]);
    }
  }
}
