/** src/pages/IndexManagementPage.tsx: the directory list and the simulated
    index rebuild. The rebuild's repeating 200 ms interval is a loop of
    ticks; the clock reading used when the last tick completes is a parameter. */
module IndexManagementPage {
  import opened Types

  const MiB := 1024 * 1024

  /** The list the page shows after mounting, with the clock reading `now`. */
  function MockDirectories(now: int): seq<DirectoryConfig> {
    [DirectoryConfig("/Users/documents", true, true, now - 3600000),
     DirectoryConfig("/Users/projects", false, false, now - 86400000)]
  }

  const EmptyStatus := IndexStatus(false, 0, 0, 0, 0, 0)

  /** `directories.filter(dir => dir.path !== path)`. */
  function Removed(ds: seq<DirectoryConfig>, path: string): (r: seq<DirectoryConfig>)
    ensures forall d :: d in r <==> d in ds && d.path != path
    ensures |r| <= |ds|
  {
    if ds == [] then []
    else Removed(ds[..|ds| - 1], path) + (if ds[|ds| - 1].path == path then [] else [ds[|ds| - 1]])
  }

  /** Removal works entry by entry, in order: removing from a concatenation is
      concatenating the removals, so the entries that stay keep their order. */
  lemma {:induction false} RemovedDistributes(a: seq<DirectoryConfig>, b: seq<DirectoryConfig>, path: string)
    ensures Removed(a + b, path) == Removed(a, path) + Removed(b, path)
  {
    if b == [] {
      assert a + b == a;
    } else {
      assert (a + b)[..|a + b| - 1] == a + b[..|b| - 1];
      RemovedDistributes(a, b[..|b| - 1], path);
    }
  }

  /** A list without the path is left exactly as it was. */
  lemma {:induction false} RemovedAbsentIsIdentity(ds: seq<DirectoryConfig>, path: string)
    requires forall i :: 0 <= i < |ds| ==> ds[i].path != path
    ensures Removed(ds, path) == ds
  {
    if ds != [] {
      var n := |ds| - 1;
      var init := ds[..n];
      assert forall i :: 0 <= i < |init| ==> init[i] == ds[i];
      RemovedAbsentIsIdentity(init, path);
      assert ds[n].path != path;
      assert ds == init + [ds[n]];
    }
  }

  /** One entry after `handleToggleDirectory(path)`. */
  function Flip(d: DirectoryConfig, path: string): DirectoryConfig {
    if d.path == path then d.(enabled := !d.enabled) else d
  }

  /** `directories.map(dir => dir.path === path ? {...dir, enabled: !dir.enabled} : dir)`. */
  function Toggled(ds: seq<DirectoryConfig>, path: string): (r: seq<DirectoryConfig>)
    ensures |r| == |ds|
    ensures forall i :: 0 <= i < |ds| ==>
      r[i].path == ds[i].path && r[i].recursive == ds[i].recursive && r[i].lastIndexed == ds[i].lastIndexed
      && (r[i].enabled <==> (if ds[i].path == path then !ds[i].enabled else ds[i].enabled))
  {
    seq(|ds|, i requires 0 <= i < |ds| => Flip(ds[i], path))
  }

  /** Toggling the same path twice restores the list. */
  lemma ToggleTwiceRestores(ds: seq<DirectoryConfig>, path: string)
    ensures Toggled(Toggled(ds, path), path) == ds
  {
    var r := Toggled(Toggled(ds, path), path);
    assert forall i :: 0 <= i < |ds| ==> r[i] == ds[i];
  }

  /** Removing a path after toggling it is the same as removing it directly. */
  lemma RemoveAfterToggle(ds: seq<DirectoryConfig>, path: string)
    ensures Removed(Toggled(ds, path), path) == Removed(ds, path)
  {
    RemoveAfterToggleHelper(ds, path);
  }

  lemma {:induction false} RemoveAfterToggleHelper(ds: seq<DirectoryConfig>, path: string)
    ensures Removed(Toggled(ds, path), path) == Removed(ds, path)
  {
    if ds != [] {
      var n := |ds| - 1;
      assert Toggled(ds, path)[..n] == Toggled(ds[..n], path);
      RemoveAfterToggleHelper(ds[..n], path);
    }
  }

  /** The status `handleRebuildIndex` starts from. */
  function Started(now: int): IndexStatus {
    IndexStatus(true, 0, 1250, 0, 0, now)
  }

  /** One interval tick: progress goes up by five, capped at 100, and the
      indexed count follows it; at 100 the rebuild is complete, the indexed
      count is the total, and the size and the timestamp are set. */
  function Tick(prev: IndexStatus, now: int): (r: IndexStatus)
    ensures r.totalFiles == prev.totalFiles
    ensures r.progress == if prev.progress + 5 < 100 then prev.progress + 5 else 100
    ensures r.progress < 100 ==> r.isIndexing == prev.isIndexing && r.indexedFiles == (r.progress * r.totalFiles) / 100
    ensures r.progress == 100 ==> !r.isIndexing && r.indexedFiles == r.totalFiles && r.indexSize == 156 * MiB && r.lastUpdated == now
  {
    var p := if prev.progress + 5 < 100 then prev.progress + 5 else 100;
    if p >= 100 then
      prev.(isIndexing := false, progress := 100, indexedFiles := prev.totalFiles, indexSize := 156 * MiB, lastUpdated := now)
    else
      prev.(progress := p, indexedFiles := (p * prev.totalFiles) / 100)
  }

  /** The status after n ticks, all of which see the clock reading `now`. */
  function Ticks(s: IndexStatus, n: nat, now: int): IndexStatus {
    if n == 0 then s else Tick(Ticks(s, n - 1, now), now)
  }

  /** What a tick keeps: progress between 0 and 100, and at most the total indexed. */
  predicate InBounds(s: IndexStatus) {
    0 <= s.progress <= 100 && 0 <= s.totalFiles && 0 <= s.indexedFiles <= s.totalFiles
  }

  /** A tick keeps the bounds and never moves progress back. */
  lemma TickKeepsBounds(s: IndexStatus, now: int)
    requires InBounds(s)
    ensures InBounds(Tick(s, now)) && Tick(s, now).progress >= s.progress
  {
    var r := Tick(s, now);
    if r.progress < 100 {
      assert r.progress * r.totalFiles <= 100 * r.totalFiles;
    }
  }

  /** Across any number of ticks from a status within bounds, progress only goes up and the bounds hold. */
  lemma {:induction false} TicksMonotone(s: IndexStatus, m: nat, n: nat, now: int)
    requires InBounds(s) && m <= n
    ensures InBounds(Ticks(s, n, now)) && Ticks(s, m, now).progress <= Ticks(s, n, now).progress
  {
    if m < n {
      TicksMonotone(s, m, n - 1, now);
      TickKeepsBounds(Ticks(s, n - 1, now), now);
    } else if n > 0 {
      TicksMonotone(s, 0, n - 1, now);
      TickKeepsBounds(Ticks(s, n - 1, now), now);
    }
  }

  /** From the start status, tick n (below 20) is at 5n percent with
      ⌊5n × 1250 / 100⌋ files, still indexing; tick 20 completes. */
  lemma {:induction false} TicksFromStart(start: int, n: nat, now: int)
    requires n <= 20
    ensures var s := Ticks(Started(start), n, now);
      s.progress == 5 * n && s.totalFiles == 1250
      && (n < 20 ==> s.isIndexing && s.indexedFiles == (5 * n * 1250) / 100)
      && (n == 20 ==> !s.isIndexing && s.indexedFiles == 1250 && s.indexSize == 156 * MiB && s.lastUpdated == now)
  {
    if n > 0 {
      TicksFromStart(start, n - 1, now);
    }
  }

  /** The page. */
  class IndexManagementState {
    var directories: seq<DirectoryConfig>
    var indexStatus: IndexStatus

    constructor ()
      ensures directories == [] && indexStatus == EmptyStatus
    {
      directories := [];
      indexStatus := EmptyStatus;
    }

    /** The mount effect installs the mock list. */
    method Mount(now: int)
      modifies this`directories
      ensures directories == MockDirectories(now)
    {
      directories := MockDirectories(now);
    }

    /** handleAddDirectory only logs; no state changes. */
    method AddDirectory()
      ensures directories == old(directories) && indexStatus == old(indexStatus)
    {
    }

    /** handleRemoveDirectory. */
    method RemoveDirectory(path: string)
      modifies this`directories
      ensures directories == Removed(old(directories), path)
    {
      directories := Removed(directories, path);
    }

    /** handleToggleDirectory. */
    method ToggleDirectory(path: string)
      modifies this`directories
      ensures directories == Toggled(old(directories), path)
    {
      directories := Toggled(directories, path);
    }

    /** handleRebuildIndex with its interval run to the end: the start
        status, then ticks until the tick that reaches 100 clears the interval. */
    method RebuildIndex(start: int, finish: int) returns (ticks: nat)
      modifies this`indexStatus
      ensures ticks == 20
      ensures indexStatus == Ticks(Started(start), ticks, finish)
      ensures indexStatus == IndexStatus(false, 100, 1250, 1250, 156 * MiB, start)
                                .(lastUpdated := finish)
    {
      indexStatus := Started(start);
      ticks := 0;
      while indexStatus.isIndexing
        invariant ticks <= 20
        invariant indexStatus == Ticks(Started(start), ticks, finish)
        invariant indexStatus.isIndexing <==> ticks < 20
        decreases 20 - ticks
      {
        TicksFromStart(start, ticks + 1, finish);
        indexStatus := Tick(indexStatus, finish);
        ticks := ticks + 1;
      }
      TicksFromStart(start, ticks, finish);
    }
  }
}
