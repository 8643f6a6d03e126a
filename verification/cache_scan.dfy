/** The cache scan worker (`do_scan` in web.py, with a copy in app.py):
    measure every catalogue location, keep the existing non-empty ones
    preselected, add the cache folder of every sandboxed container, and
    sort largest first. Existence checks and size measurements are given
    as the `Probe` of each entry. The two copies differ only in the hint
    and impact texts of container entries and in whether the progress
    label names each container, so the copy is a parameter. */
module CacheScan {
  import opened Text
  import opened Collections
  import opened ScanJob

  /** `CacheLocation`; `present` is its `exists` flag, and the human-readable size is left out. */
  datatype CacheLocation = CacheLocation(
    id: string,
    path: string,
    name: string,
    description: string,
    category: string,
    hint: string,
    impact: string,
    risk: string,
    size: nat,
    selected: bool,
    present: bool)

  /** Whether a path exists, and the size measured for it when it does. */
  datatype Probe = Missing | Present(size: nat)

  /** A catalogue location and what probing its path reports. */
  datatype Entry = Entry(loc: CacheLocation, probe: Probe)

  /** A folder under `~/Library/Containers` and what probing its
      `Data/Library/Caches` sub-folder reports (Present only for a directory). */
  datatype Container = Container(name: string, cachePath: string, cache: Probe)

  /** What distinguishes the two copies of the worker: the texts of
      container entries, and whether the progress label names each container. */
  datatype Copy = Copy(hintBefore: string, hintAfter: string, impact: string, labelsContainers: bool)

  const WebServer: Copy := Copy(
    "Cache data for the sandboxed macOS app '",
    "'. Sandboxed apps store their data in isolated containers.",
    "The app will recreate its cache as needed. App data and settings in the container are preserved.",
    true)

  const DesktopServer: Copy := Copy(
    "Cache data for the sandboxed app '",
    "'.",
    "The app will recreate its cache as needed.",
    false)

  function SizeOf(l: CacheLocation): int { l.size }

  /** The measured size, zero for a missing path. */
  function Measured(p: Probe): nat {
    match p
    case Missing => 0
    case Present(size) => size
  }

  /** A catalogue location is kept when its path exists and is not empty. */
  predicate Kept(e: Entry) {
    e.probe.Present? && e.probe.size > 0
  }

  /** The kept location, updated in place as the loop does. */
  function Marked(e: Entry): (l: CacheLocation)
    ensures l.present && l.selected && l.size == Measured(e.probe)
    ensures l.id == e.loc.id && l.path == e.loc.path && l.name == e.loc.name && l.category == e.loc.category
  {
    e.loc.(present := true, size := Measured(e.probe), selected := true)
  }

  /** The catalogue part of the results, in catalogue order. */
  function KeptLocations(catalogue: seq<Entry>): (r: seq<CacheLocation>)
    ensures |r| <= |catalogue|
  {
    FilterMap(catalogue, Kept, Marked)
  }

  /** The application name of a container: the text after its last '.'. */
  function AppName(name: string): (r: string)
    ensures '.' !in r && |r| <= |name| && name[|name| - |r|..] == r
  {
    LastSegment(name, '.')
  }

  /** The source writes it as `name.split('.')[-1] if '.' in name else name`;
      both branches agree with the last segment. */
  lemma AppNameAsWritten(name: string)
    ensures (if '.' in name then Split(name, '.')[|Split(name, '.')| - 1] else name) == AppName(name)
    ensures '.' !in name ==> AppName(name) == name
  {
    LastSegmentIsLastPiece(name, '.');
    if '.' !in name {
      SplitNoSeparator(name, '.');
    }
  }

  /** The entry for a sandboxed container's cache folder. */
  function ContainerEntry(copy: Copy, c: Container): (l: CacheLocation)
    ensures l.present && l.selected && l.size == Measured(c.cache) && l.path == c.cachePath
    ensures l.id == "container_" + AppName(c.name) && l.name == AppName(c.name) + " Cache"
    ensures l.category == "Containers" && l.risk == "low"
  {
    var app := AppName(c.name);
    CacheLocation(
      "container_" + app, c.cachePath, app + " Cache", "Sandboxed app cache for " + app, "Containers",
      copy.hintBefore + app + copy.hintAfter, copy.impact, "low", Measured(c.cache), true, true)
  }

  predicate CacheFound(c: Container) {
    c.cache.Present? && c.cache.size > 0
  }

  /** The container part of the results, in listing order. */
  function ContainerCaches(copy: Copy, containers: seq<Container>): (r: seq<CacheLocation>)
    ensures |r| <= |containers|
  {
    FilterMap(containers, CacheFound, (c: Container) => ContainerEntry(copy, c))
  }

  /** One more container extends the container part by at most its own entry. */
  lemma ContainerCachesSnoc(copy: Copy, containers: seq<Container>, j: nat)
    requires j < |containers|
    ensures ContainerCaches(copy, containers[..j + 1]) ==
            ContainerCaches(copy, containers[..j]) + (if CacheFound(containers[j]) then [ContainerEntry(copy, containers[j])] else [])
  {
    FilterMapSnoc(containers, j, CacheFound, (c: Container) => ContainerEntry(copy, c));
  }

  /** Every collected entry exists, is preselected and is not empty. */
  predicate AllFound(s: seq<CacheLocation>) {
    forall i :: 0 <= i < |s| ==> s[i].present && s[i].selected && s[i].size > 0
  }

  /** The catalogue part holds exactly the marked kept locations. */
  lemma KeptLocationsSpec(catalogue: seq<Entry>)
    ensures AllFound(KeptLocations(catalogue))
    ensures forall l :: l in KeptLocations(catalogue) <==> exists e :: e in catalogue && Kept(e) && l == Marked(e)
  {
    FilterMapMembers(catalogue, Kept, Marked);
    var r := KeptLocations(catalogue);
    forall i | 0 <= i < |r|
      ensures r[i].present && r[i].selected && r[i].size > 0
    {
      assert r[i] in r;
    }
  }

  /** The container part holds exactly the entries of non-empty cache folders. */
  lemma ContainerCachesMembers(copy: Copy, containers: seq<Container>)
    ensures forall l :: l in ContainerCaches(copy, containers) <==>
              exists c :: c in containers && CacheFound(c) && l == ContainerEntry(copy, c)
  {
    var entry := (c: Container) => ContainerEntry(copy, c);
    FilterMapMembers(containers, CacheFound, entry);
    forall l | l in ContainerCaches(copy, containers)
      ensures exists c :: c in containers && CacheFound(c) && l == ContainerEntry(copy, c)
    {
      var c :| c in containers && CacheFound(c) && l == entry(c);
    }
    forall c | c in containers && CacheFound(c)
      ensures ContainerEntry(copy, c) in ContainerCaches(copy, containers)
    {
      assert entry(c) == ContainerEntry(copy, c);
    }
  }

  lemma ContainerCachesFound(copy: Copy, containers: seq<Container>)
    ensures AllFound(ContainerCaches(copy, containers))
  {
    ContainerCachesMembers(copy, containers);
    var r := ContainerCaches(copy, containers);
    forall i | 0 <= i < |r|
      ensures r[i].present && r[i].selected && r[i].size > 0
    {
      assert r[i] in r;
      var c :| c in containers && CacheFound(c) && r[i] == ContainerEntry(copy, c);
    }
  }

  /** The loop over the catalogue. */
  method ScanCatalogue(catalogue: seq<Entry>, start: Progress) returns (results: seq<CacheLocation>, progress: Progress)
    requires start.foundCount == 0 && start.totalSize == 0
    ensures results == KeptLocations(catalogue)
    ensures progress.total == |catalogue| + 1
    ensures progress.foundCount == |results| && progress.totalSize == SumBy(results, SizeOf)
  {
    var n := |catalogue|;
    progress := start.(total := n + 1);
    results := [];
    var i := 0;
    while i < n
      invariant 0 <= i <= n
      invariant results == KeptLocations(catalogue[..i])
      invariant progress.total == n + 1
      invariant progress.foundCount == |results|
      invariant progress.totalSize == SumBy(results, SizeOf)
    {
      var e := catalogue[i];
      progress := progress.(current := i + 1, location := e.loc.name, percent := (i * 100) / (n + 1));
      FilterMapSnoc(catalogue, i, Kept, Marked);
      if Kept(e) {
        SumByAppend(results, [Marked(e)], SizeOf);
        results := results + [Marked(e)];
        progress := progress.(foundCount := |results|, totalSize := SumBy(results, SizeOf));
      }
      i := i + 1;
    }
    assert catalogue[..n] == catalogue;
  }

  /** The loop over the sandboxed containers, appending to what the catalogue gave. */
  method ScanContainers(copy: Copy, containers: seq<Container>, found: seq<CacheLocation>, start: Progress)
    returns (results: seq<CacheLocation>, progress: Progress)
    requires start.foundCount == |found| && start.totalSize == SumBy(found, SizeOf)
    ensures results == found + ContainerCaches(copy, containers)
    ensures progress.total == start.total
    ensures progress.foundCount == |results| && progress.totalSize == SumBy(results, SizeOf)
  {
    progress := start.(location := "Container Apps");
    results := found;
    var j := 0;
    while j < |containers|
      invariant 0 <= j <= |containers|
      invariant results == found + ContainerCaches(copy, containers[..j])
      invariant progress.total == start.total
      invariant progress.foundCount == |results|
      invariant progress.totalSize == SumBy(results, SizeOf)
    {
      var c := containers[j];
      ContainerCachesSnoc(copy, containers, j);
      if c.cache.Present? {
        if copy.labelsContainers {
          progress := progress.(location := "Container: " + AppName(c.name));
        }
        if c.cache.size > 0 {
          var entry := ContainerEntry(copy, c);
          SumByAppend(results, [entry], SizeOf);
          assert results + [entry] == found + (ContainerCaches(copy, containers[..j]) + [entry]);
          results := results + [entry];
          progress := progress.(foundCount := |results|, totalSize := SumBy(results, SizeOf));
        }
      }
      j := j + 1;
    }
    assert containers[..|containers|] == containers;
  }

  /** The worker, run after a successful start. */
  method DoScan(copy: Copy, job: Job<CacheLocation>, catalogue: seq<Entry>, containers: seq<Container>)
    returns (done: Job<CacheLocation>)
    requires job.inProgress && job.progress == CacheScanStart
    ensures !done.inProgress && done.complete
    ensures multiset(done.results) == multiset(KeptLocations(catalogue) + ContainerCaches(copy, containers))
    ensures NonIncreasing(done.results, SizeOf)
    ensures forall k: int :: WithKey(done.results, SizeOf, k) ==
                             WithKey(KeptLocations(catalogue) + ContainerCaches(copy, containers), SizeOf, k)
    ensures AllFound(done.results)
    ensures done.progress.total == |catalogue| + 1
    ensures done.progress.percent == 100 && done.progress.location == "Complete"
    ensures done.progress.foundCount == |done.results|
    ensures done.progress.totalSize == SumBy(done.results, SizeOf)
  {
    var fromCatalogue, progress := ScanCatalogue(catalogue, job.progress);
    var results;
    results, progress := ScanContainers(copy, containers, fromCatalogue, progress);
    progress := progress.(percent := 100, location := "Complete");
    var sorted := SortDesc(results, SizeOf);
    SumBySortDesc(results, SizeOf);
    forall k: int
      ensures WithKey(sorted, SizeOf, k) == WithKey(results, SizeOf, k)
    {
      SortDescStable(results, SizeOf, k);
    }
    KeptLocationsSpec(catalogue);
    ContainerCachesFound(copy, containers);
    AllFoundAppend(fromCatalogue, ContainerCaches(copy, containers));
    SortedAllFound(results, sorted);
    done := Finish(job, sorted, progress);
  }

  lemma AllFoundAppend(a: seq<CacheLocation>, b: seq<CacheLocation>)
    requires AllFound(a) && AllFound(b)
    ensures AllFound(a + b)
  {
    assert forall i :: |a| <= i < |a + b| ==> (a + b)[i] == b[i - |a|];
  }

  lemma SortedAllFound(results: seq<CacheLocation>, sorted: seq<CacheLocation>)
    requires multiset(sorted) == multiset(results)
    requires AllFound(results)
    ensures AllFound(sorted)
  {
    forall i | 0 <= i < |sorted|
      ensures sorted[i].present && sorted[i].selected && sorted[i].size > 0
    {
      assert sorted[i] in multiset(results);
      var j :| 0 <= j < |results| && results[j] == sorted[i];
    }
  }
}
