/** The leftover scan worker (`do_leftover_scan`): build the installed
    index, run six of the seven detectors in a fixed order, keep the
    found-count and total size of everything collected so far after each
    one, then sort largest first and publish. The Logs detector exists
    but the worker never calls it, so its listing is part of the library
    and plays no part in the result. */
module LeftoverScan {
  import opened Text
  import opened Collections
  import opened InstalledApps
  import opened Detectors
  import opened ScanJob

  /** What the detectors and the index see of the disk. */
  datatype Library = Library(
    spotlight: seq<string>,
    systemApps: seq<string>,
    userApps: seq<string>,
    containers: seq<Folder>,
    groupContainers: seq<Folder>,
    appSupport: seq<Folder>,
    preferences: seq<PlistFile>,
    userAgents: seq<PlistFile>,
    systemAgents: seq<PlistFile>,
    caches: seq<Folder>,
    logs: seq<Folder>)

  function SizeOf(it: LeftoverItem): int { it.size }

  function Index(lib: Library): set<string> {
    BuildIndex(lib.spotlight, lib.systemApps, lib.userApps)
  }

  /** The detector outputs in the order the worker runs them. */
  function Batches(lib: Library): (b: seq<seq<LeftoverItem>>)
    ensures |b| == 6
  {
    var installed := Index(lib);
    [DetectContainerOrphans(installed, lib.containers),
     DetectGroupContainerOrphans(installed, lib.groupContainers),
     DetectAppSupportOrphans(installed, lib.appSupport),
     DetectPreferenceOrphans(installed, lib.preferences),
     DetectLaunchAgentOrphans(installed, lib.userAgents, lib.systemAgents),
     DetectCacheOrphans(installed, lib.caches)]
  }

  /** The progress label of step i of the detector loop. */
  function StepLabel(i: nat): string
    requires i < 6
  {
    ["Scanning Containers...", "Scanning Group Containers...", "Scanning Application Support...",
     "Scanning Preferences...", "Scanning Launch Agents...", "Scanning Orphan Caches..."][i]
  }

  function StepPercent(i: nat): nat
    requires i < 6
  {
    [25, 40, 55, 70, 85, 95][i]
  }

  /** What every published leftover satisfies: not a Logs item, not of low
      confidence, and preselected. */
  predicate Publishable(it: LeftoverItem) {
    it.category != "Logs" && it.confidence != Low && it.selected
  }

  predicate AllPublishable(s: seq<LeftoverItem>) {
    forall it :: it in s ==> Publishable(it)
  }

  /** A batch whose items all carry one category other than Logs and one
      confidence other than Low, and are preselected, is publishable. */
  lemma UniformPublishable(s: seq<LeftoverItem>, category: string, confidence: Confidence)
    requires category != "Logs" && confidence != Low
    requires forall it :: it in s ==> it.confidence == confidence && it.selected && it.category == category
    ensures AllPublishable(s)
  {
  }

  /** No invoked detector reports Logs or low-confidence items, so every
      reported leftover is preselected. */
  lemma BatchesExcludeLogs(lib: Library)
    ensures forall k :: 0 <= k < |Batches(lib)| ==> AllPublishable(Batches(lib)[k])
  {
    ContainersPublishable(lib);
    GroupContainersPublishable(lib);
    AppSupportPublishable(lib);
    PreferencesPublishable(lib);
    LaunchAgentsPublishable(lib);
    CachesPublishable(lib);
    SixPublishable(Batches(lib));
  }

  lemma SixPublishable(b: seq<seq<LeftoverItem>>)
    requires |b| == 6
    requires AllPublishable(b[0]) && AllPublishable(b[1]) && AllPublishable(b[2])
    requires AllPublishable(b[3]) && AllPublishable(b[4]) && AllPublishable(b[5])
    ensures forall k :: 0 <= k < |b| ==> AllPublishable(b[k])
  {
  }

  lemma ContainersPublishable(lib: Library)
    ensures AllPublishable(Batches(lib)[0])
  {
    UniformPublishable(Batches(lib)[0], "Containers", High);
  }

  lemma GroupContainersPublishable(lib: Library)
    ensures AllPublishable(Batches(lib)[1])
  {
    UniformPublishable(Batches(lib)[1], "Group Containers", High);
  }

  lemma AppSupportPublishable(lib: Library)
    ensures AllPublishable(Batches(lib)[2])
  {
    UniformPublishable(Batches(lib)[2], "Application Support", Medium);
  }

  lemma PreferencesPublishable(lib: Library)
    ensures AllPublishable(Batches(lib)[3])
  {
    UniformPublishable(Batches(lib)[3], "Preferences", Medium);
  }

  lemma LaunchAgentsPublishable(lib: Library)
    ensures AllPublishable(Batches(lib)[4])
  {
    UniformPublishable(Batches(lib)[4], "Launch Agents", High);
  }

  lemma CachesPublishable(lib: Library)
    ensures AllPublishable(Batches(lib)[5])
  {
    UniformPublishable(Batches(lib)[5], "Caches", Medium);
  }

  /** Any arrangement of the collected items keeps that property. */
  lemma ArrangementExcludesLogs(results: seq<LeftoverItem>, batches: seq<seq<LeftoverItem>>)
    requires multiset(results) == multiset(Flatten(batches))
    requires forall k :: 0 <= k < |batches| ==> AllPublishable(batches[k])
    ensures AllPublishable(results)
  {
    FlattenExcludesLogs(batches);
    var all := Flatten(batches);
    forall it | it in results
      ensures Publishable(it)
    {
      assert it in multiset(results);
      assert it in multiset(all);
      assert it in all;
    }
  }

  lemma {:induction false} FlattenExcludesLogs(batches: seq<seq<LeftoverItem>>)
    requires forall k :: 0 <= k < |batches| ==> AllPublishable(batches[k])
    ensures AllPublishable(Flatten(batches))
    decreases |batches|
  {
    if |batches| > 0 {
      var front := batches[..|batches| - 1];
      var last := batches[|batches| - 1];
      assert forall k :: 0 <= k < |front| ==> front[k] == batches[k];
      FlattenExcludesLogs(front);
      assert Flatten(batches) == Flatten(front) + last;
      assert AllPublishable(last);
    }
  }

  /** The detector loop and the final sort, over the batches in running order. */
  method Aggregate(job: Job<LeftoverItem>, batches: seq<seq<LeftoverItem>>) returns (done: Job<LeftoverItem>)
    requires job.inProgress && job.progress == LeftoverScanStart && |batches| == 6
    ensures !done.inProgress && done.complete
    ensures multiset(done.results) == multiset(Flatten(batches))
    ensures NonIncreasing(done.results, SizeOf)
    ensures forall k: int :: WithKey(done.results, SizeOf, k) == WithKey(Flatten(batches), SizeOf, k)
    ensures done.progress == Progress(7, 7, 100, "Complete", |done.results|, SumBy(done.results, SizeOf))
  {
    var progress := job.progress.(location := "Scanning installed applications...", current := 1, percent := 10);
    var results: seq<LeftoverItem> := [];
    var i := 0;
    while i < 6
      invariant 0 <= i <= 6
      invariant results == Flatten(batches[..i])
      invariant progress.total == 7
      invariant progress.foundCount == |results|
      invariant progress.totalSize == SumBy(results, SizeOf)
      invariant progress.current == i + 1
    {
      progress := progress.(location := StepLabel(i), current := i + 2, percent := StepPercent(i));
      FlattenStep(batches, i);
      SumByAppend(results, batches[i], SizeOf);
      results := results + batches[i];
      progress := progress.(foundCount := |results|, totalSize := SumBy(results, SizeOf));
      i := i + 1;
    }
    assert batches[..6] == batches;
    progress := progress.(percent := 100, location := "Complete");
    var sorted := SortDesc(results, SizeOf);
    SumBySortDesc(results, SizeOf);
    forall k: int
      ensures WithKey(sorted, SizeOf, k) == WithKey(results, SizeOf, k)
    {
      SortDescStable(results, SizeOf, k);
    }
    done := Finish(job, sorted, progress);
  }

  /** The worker, run after a successful start. */
  method DoLeftoverScan(job: Job<LeftoverItem>, lib: Library) returns (done: Job<LeftoverItem>)
    requires job.inProgress && job.progress == LeftoverScanStart
    ensures !done.inProgress && done.complete
    ensures multiset(done.results) == multiset(Flatten(Batches(lib)))
    ensures NonIncreasing(done.results, SizeOf)
    ensures forall k: int :: WithKey(done.results, SizeOf, k) == WithKey(Flatten(Batches(lib)), SizeOf, k)
    ensures AllPublishable(done.results)
    ensures done.progress == Progress(7, 7, 100, "Complete", |done.results|, SumBy(done.results, SizeOf))
  {
    var batches := Batches(lib);
    done := Aggregate(job, batches);
    BatchesExcludeLogs(lib);
    ArrangementExcludesLogs(done.results, batches);
  }
}
