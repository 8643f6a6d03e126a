/** The flag state machine behind both background scans (`start_scan`
    and `start_leftover_scan`): a scan is started only when none is in
    progress; starting clears the completion flag, the results and the
    progress record; finishing publishes the results and flips the flags
    back. The thread that does the work is not modelled: `Finish` is what
    it does when it ends. */
module ScanJob {

  datatype Progress = Progress(
    current: nat,
    total: nat,
    percent: nat,
    location: string,
    foundCount: nat,
    totalSize: nat)

  datatype Job<T> = Job(inProgress: bool, complete: bool, results: seq<T>, progress: Progress)

  datatype StartReply = Started | AlreadyScanning

  /** The progress record of the cache scan before it starts. */
  const CacheScanStart: Progress := Progress(0, 0, 0, "", 0, 0)

  /** The progress record of the leftover scan before it starts: seven steps. */
  const LeftoverScanStart: Progress := Progress(0, 7, 0, "Initializing...", 0, 0)

  /** The state when the server comes up. */
  function Idle<T>(): (j: Job<T>)
    ensures Valid(j) && !j.inProgress && !j.complete && j.results == []
  {
    Job(false, false, [], CacheScanStart)
  }

  /** A scan is never both running and complete. */
  predicate Valid<T>(j: Job<T>) {
    !(j.inProgress && j.complete)
  }

  /** A start request. The reply is AlreadyScanning exactly when a scan is
      running, and then nothing changes. */
  function Start<T>(j: Job<T>, reset: Progress): (r: (StartReply, Job<T>))
    ensures r.0 == AlreadyScanning <==> j.inProgress
    ensures j.inProgress ==> r.1 == j
    ensures !j.inProgress ==> r.1.inProgress && !r.1.complete && r.1.results == [] && r.1.progress == reset
    ensures Valid(r.1) <==> Valid(j) || !j.inProgress
  {
    if j.inProgress then (AlreadyScanning, j)
    else (Started, Job(true, false, [], reset))
  }

  /** The worker's last step: publish the results and the final progress. */
  function Finish<T>(j: Job<T>, results: seq<T>, progress: Progress): (r: Job<T>)
    ensures Valid(r) && !r.inProgress && r.complete
    ensures r.results == results && r.progress == progress
  {
    Job(false, true, results, progress)
  }

  /** A second start while the first scan runs is refused and leaves the
      state exactly as the first start left it. */
  lemma StartTwice<T>(j: Job<T>, reset: Progress, again: Progress)
    requires !j.inProgress
    ensures Start(j, reset).0 == Started
    ensures Start(Start(j, reset).1, again) == (AlreadyScanning, Start(j, reset).1)
  {
  }

  /** Once the worker has finished, a new start is accepted. */
  lemma StartAfterFinish<T>(j: Job<T>, results: seq<T>, progress: Progress, reset: Progress)
    ensures Start(Finish(j, results, progress), reset).0 == Started
    ensures Start(Finish(j, results, progress), reset).1.results == []
  {
  }

  /** Every reachable state is valid. */
  lemma ValidPreserved<T>(j: Job<T>, reset: Progress, results: seq<T>, progress: Progress)
    requires Valid(j)
    ensures Valid(Start(j, reset).1) && Valid(Finish(j, results, progress))
  {
  }
}
