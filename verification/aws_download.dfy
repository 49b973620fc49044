/** Bulk download of NEXRAD Level 2 objects from the public bucket: the scheduler
    enumerates station-days, routes each station-day's tasks and a closing
    sentinel to one of the worker queues in rotation, every worker folds its queue
    (skip files already present, bounded retries with an exact-size check,
    success and failure accounting), and the per-worker reports are summed.

    The bucket listing and, per queued item, what the local file system shows and
    what each download attempt yields are oracle parameters. */
module AwsDownload {
  import opened Common
  import opened Calendar
  import opened Level2Directory

  /** Upper bound on the number of download workers. */
  const MaxConcurrency: int := 10

  /** One object listed in the bucket. */
  datatype ObjectRef = ObjectRef(key: string, size: int)

  /** A queue entry: a download task, or the sentinel closing a station-day. */
  datatype Item =
    | Task(station: string, key: string, size: int, localFile: string)
    | Sentinel(station: string)

  /** The suffix filters `no_MDM` and `no_tar`. */
  datatype Filters = Filters(noMdm: bool, noTar: bool)

  /** The requested concurrency, capped at ten workers. */
  function WorkerCount(requested: int): (n: int)
    ensures n <= MaxConcurrency
    ensures requested <= MaxConcurrency ==> n == requested
    ensures requested > MaxConcurrency ==> n == MaxConcurrency
  {
    if requested > MaxConcurrency then MaxConcurrency else requested
  }

  // ---------------------------------------------------------------------------
  // Enumeration of one station-day

  /** `date.strftime('%Y/%m/%d/')`, the day part of a bucket key. */
  const DayPrefixFormat: seq<Directive> := [Year4, Lit('/'), Month2, Lit('/'), Day2, Lit('/')]

  /** Bucket prefix listing one station's objects for one day. */
  function KeyPrefix(day: DateTime, station: string): (prefix: string)
    requires Valid(day)
    ensures Format(DayPrefixFormat, day) <= prefix
    ensures prefix[|Format(DayPrefixFormat, day)|..] == station
  {
    Format(DayPrefixFormat, day) + station
  }

  /** The day part of a key prefix reads back as that day's midnight. */
  lemma DayPrefixRoundTrip(day: DateTime)
    requires FourDigitYear(day)
    ensures Parse(DayPrefixFormat, Format(DayPrefixFormat, day)) == Some(Midnight(day))
  {
    DayFormatRoundTrip(DayPrefixFormat, day);
  }

  predicate Excluded(base: string, f: Filters)
  {
    (f.noMdm && EndsWith(base, "MDM")) || (f.noTar && EndsWith(base, "tar"))
  }

  /** The scan time encoded in characters 4..19 of a file name. */
  function FileTime(base: string): (t: Option<DateTime>)
    ensures t.Some? ==> Valid(t.value) && |base| >= 19
  {
    Parse(ScanTimeFormat, PySlice(base, 4, 19))
  }

  /** What the enumeration does with one listed object. */
  function Classify(ref: ObjectRef, f: Filters, lo: DateTime, hi: DateTime): (v: Verdict)
    ensures Excluded(Basename(ref.key), f) ==> v == Dropped
    ensures v == Unreadable <==> !Excluded(Basename(ref.key), f) && FileTime(Basename(ref.key)).None?
    ensures v == Kept ==> FileTime(Basename(ref.key)).Some?
  {
    var base := Basename(ref.key);
    if Excluded(base, f) then Dropped
    else match FileTime(base)
      case None => Unreadable
      case Some(t) => if NotAfter(lo, t) && NotAfter(t, hi) then Kept else Dropped
  }

  /** An object is kept exactly when no suffix filter excludes its file name and
      the name's time lies in the closed window [lo, hi]; it is unreadable exactly
      when it passes the filters but its name carries no parsable time. */
  lemma ClassifyMeaning(ref: ObjectRef, f: Filters, lo: DateTime, hi: DateTime)
    ensures var base := Basename(ref.key);
      Classify(ref, f, lo, hi) == Kept <==>
        !Excluded(base, f) && FileTime(base).Some?
        && NotAfter(lo, FileTime(base).value) && NotAfter(FileTime(base).value, hi)
    ensures var base := Basename(ref.key);
      Classify(ref, f, lo, hi) == Unreadable <==> !Excluded(base, f) && FileTime(base).None?
  {
  }

  function Verdicts(f: Filters, lo: DateTime, hi: DateTime): ObjectRef -> Verdict
  {
    (ref: ObjectRef) => Classify(ref, f, lo, hi)
  }

  /** A download task for an object: its key and size, and its file name under the
      station directory. */
  function TaskFor(ref: ObjectRef, station: string, stationDir: string): (t: Item)
    ensures t.Task? && t.station == station && t.key == ref.key && t.size == ref.size
    ensures EndsWith(t.localFile, Basename(ref.key))
  {
    Task(station, ref.key, ref.size, PathJoin(stationDir, Basename(ref.key)))
  }

  /** The enumeration loop over one station-day's listing: the first unreadable
      name raises `ValueError`; kept objects become tasks, in listing order. */
  function SelectTasks(refs: seq<ObjectRef>, station: string, stationDir: string,
                       verdict: ObjectRef -> Verdict): (r: Result<seq<Item>>)
    ensures r.Err? ==> r.error == ValueError
    ensures r.Ok? ==> |r.value| <= |refs|
    ensures r.Ok? ==> forall k :: 0 <= k < |r.value| ==> r.value[k].Task? && r.value[k].station == station
    decreases |refs|
  {
    if |refs| == 0 then Ok([])
    else
      var rest := SelectTasks(refs[1..], station, stationDir, verdict);
      match verdict(refs[0])
      case Unreadable => Err(ValueError)
      case Dropped => rest
      case Kept =>
        if rest.Err? then rest else Ok([TaskFor(refs[0], station, stationDir)] + rest.value)
  }

  /** Reference definition: tasks of the kept objects, in listing order. */
  function KeptTasks(refs: seq<ObjectRef>, station: string, stationDir: string,
                     verdict: ObjectRef -> Verdict): (tasks: seq<Item>)
    ensures forall t :: t in tasks ==>
              exists j :: 0 <= j < |refs| && verdict(refs[j]) == Kept
                          && t == TaskFor(refs[j], station, stationDir)
    ensures forall j :: 0 <= j < |refs| && verdict(refs[j]) == Kept ==>
              TaskFor(refs[j], station, stationDir) in tasks
    decreases |refs|
  {
    if |refs| == 0 then []
    else
      var rest := KeptTasks(refs[1..], station, stationDir, verdict);
      assert forall j :: 1 <= j < |refs| ==> refs[j] == refs[1..][j - 1];
      if verdict(refs[0]) == Kept then [TaskFor(refs[0], station, stationDir)] + rest else rest
  }

  /** Selection fails, with `ValueError`, exactly when some listed name is
      unreadable; otherwise it yields exactly the kept objects' tasks. */
  lemma {:induction false} SelectTasksSpec(refs: seq<ObjectRef>, station: string, stationDir: string,
                                           verdict: ObjectRef -> Verdict)
    ensures var r := SelectTasks(refs, station, stationDir, verdict);
      && (r.Err? <==> exists j :: 0 <= j < |refs| && verdict(refs[j]) == Unreadable)
      && (r.Err? ==> r.error == ValueError)
      && (r.Ok? ==> r.value == KeptTasks(refs, station, stationDir, verdict))
    decreases |refs|
  {
    if |refs| > 0 {
      SelectTasksSpec(refs[1..], station, stationDir, verdict);
      assert forall j :: 1 <= j < |refs| ==> refs[j] == refs[1..][j - 1];
    }
  }

  /** A listed object is enqueued exactly when it is kept. */
  lemma EnqueuedIffKept(refs: seq<ObjectRef>, station: string, stationDir: string,
                        verdict: ObjectRef -> Verdict, ref: ObjectRef)
    requires ref in refs
    ensures TaskFor(ref, station, stationDir) in KeptTasks(refs, station, stationDir, verdict)
            <==> verdict(ref) == Kept
  {
    var tasks := KeptTasks(refs, station, stationDir, verdict);
    if TaskFor(ref, station, stationDir) in tasks {
      var j :| 0 <= j < |refs| && verdict(refs[j]) == Kept
               && TaskFor(ref, station, stationDir) == TaskFor(refs[j], station, stationDir);
      assert refs[j] == ref;
    }
  }

  /** The items one station-day puts on its queue: its tasks, then its sentinel. */
  function StationDayItems(day: DateTime, station: string, stationDir: string,
                           list: string -> seq<ObjectRef>, verdict: ObjectRef -> Verdict): (r: Result<seq<Item>>)
    requires Valid(day)
    ensures r.Err? ==> r.error == ValueError
    ensures r.Ok? ==> r.value == KeptTasks(list(KeyPrefix(day, station)), station, stationDir, verdict)
                                 + [Sentinel(station)]
  {
    var refs := list(KeyPrefix(day, station));
    SelectTasksSpec(refs, station, stationDir, verdict);
    var tasks := SelectTasks(refs, station, stationDir, verdict);
    if tasks.Err? then Err(tasks.error) else Ok(tasks.value + [Sentinel(station)])
  }

  // ---------------------------------------------------------------------------
  // Enumeration of all station-days

  /** Station-days `0 .. m - 1` of day `d`. */
  function DayBatches(d: nat, m: nat, batch: (nat, nat) -> Result<seq<Item>>): (r: Result<seq<seq<Item>>>)
    ensures r.Ok? ==> |r.value| == m
    ensures r.Ok? ==> forall i: nat :: i < m ==> batch(d, i) == Ok(r.value[i])
    ensures r.Err? ==> exists i: nat :: i < m && batch(d, i) == Err(r.error)
    ensures r.Err? <== exists i: nat :: i < m && batch(d, i).Err?
    decreases m
  {
    if m == 0 then Ok([])
    else
      var before := DayBatches(d, m - 1, batch);
      var last := batch(d, m - 1);
      if before.Err? then before
      else if last.Err? then Err(last.error)
      else Ok(before.value + [last.value])
  }

  /** All station-days: day by day, and within a day station by station; the first
      failing station-day's error ends the enumeration. */
  function Enumerate(nDays: nat, nStations: nat, batch: (nat, nat) -> Result<seq<Item>>): (r: Result<seq<seq<Item>>>)
    ensures r.Ok? ==> |r.value| == nDays * nStations
    ensures r.Err? ==> exists d: nat, i: nat :: d < nDays && i < nStations && batch(d, i) == Err(r.error)
    ensures r.Err? <== exists d: nat, i: nat :: d < nDays && i < nStations && batch(d, i).Err?
    decreases nDays
  {
    if nDays == 0 then Ok([])
    else
      var before := Enumerate(nDays - 1, nStations, batch);
      var today := DayBatches(nDays - 1, nStations, batch);
      if before.Err? then before
      else if today.Err? then today
      else
        assert (nDays - 1) * nStations + nStations == nDays * nStations;
        Ok(before.value + today.value)
  }

  /** Station-day number `d * nStations + i` is day `d`'s station `i`. */
  lemma {:induction false} EnumerationOrder(nDays: nat, nStations: nat, batch: (nat, nat) -> Result<seq<Item>>,
                                            d: nat, i: nat)
    requires Enumerate(nDays, nStations, batch).Ok?
    requires d < nDays && i < nStations
    ensures d * nStations + i < |Enumerate(nDays, nStations, batch).value|
    ensures batch(d, i) == Ok(Enumerate(nDays, nStations, batch).value[d * nStations + i])
    decreases nDays
  {
    var all := Enumerate(nDays, nStations, batch).value;
    var before := Enumerate(nDays - 1, nStations, batch).value;
    var today := DayBatches(nDays - 1, nStations, batch).value;
    assert all == before + today;
    if d == nDays - 1 {
      assert |before| == d * nStations;
      assert all[d * nStations + i] == today[i];
    } else {
      EnumerationOrder(nDays - 1, nStations, batch, d, i);
      assert all[d * nStations + i] == before[d * nStations + i];
    }
  }

  // ---------------------------------------------------------------------------
  // Routing to the worker queues

  /** Reference routing: station-day `k` goes to queue `k % n`; a queue holds its
      station-days' items back to back, in enumeration order. */
  function Routed(batches: seq<seq<Item>>, n: int, q: int): seq<Item>
    requires n >= 1
  {
    if |batches| == 0 then []
    else
      var k := |batches| - 1;
      Routed(batches[..k], n, q) + (if k % n == q then batches[k] else [])
  }

  lemma MulAtLeast(d: int, n: int)
    requires d >= 1 && n >= 1
    ensures d * n >= n
  {
  }

  /** Euclidean remainders are unique. */
  lemma ModUnique(x: int, n: int, q: int, r: int)
    requires n >= 1 && 0 <= r < n && x == q * n + r
    ensures x % n == r
  {
    var q' := x / n;
    assert x == q' * n + x % n;
    if q > q' {
      MulAtLeast(q - q', n);
    } else if q < q' {
      MulAtLeast(q' - q, n);
    }
  }

  /** Advancing the queue index modulo `n` keeps it equal to the station-day
      counter modulo `n`. */
  lemma ModNext(k: nat, n: int)
    requires n >= 1
    ensures (k % n + 1) % n == (k + 1) % n
  {
    var r := k % n;
    var qt := k / n;
    assert k == qt * n + r;
    if r + 1 < n {
      ModUnique(k + 1, n, qt, r + 1);
      ModUnique(r + 1, n, 0, r + 1);
    } else {
      assert k + 1 == (qt + 1) * n + 0;
      ModUnique(k + 1, n, qt + 1, 0);
      ModUnique(r + 1, n, 1, 0);
    }
  }

  /** The scheduler's loop: put each station-day on the current queue, then move the
      queue index on by one modulo `n`. */
  method Route(batches: seq<seq<Item>>, n: int) returns (queues: seq<seq<Item>>)
    requires n >= 1
    ensures |queues| == n
    ensures forall q :: 0 <= q < n ==> queues[q] == Routed(batches, n, q)
  {
    queues := seq(n, _ => []);
    var queueIndex := 0;
    var k := 0;
    while k < |batches|
      invariant 0 <= k <= |batches|
      invariant queueIndex == k % n
      invariant |queues| == n
      invariant forall q :: 0 <= q < n ==> queues[q] == Routed(batches[..k], n, q)
    {
      assert batches[..k + 1][..k] == batches[..k];
      queues := queues[queueIndex := queues[queueIndex] + batches[k]];
      ModNext(k, n);
      queueIndex := (queueIndex + 1) % n;
      k := k + 1;
    }
    assert batches[..k] == batches;
  }

  function TaskCount(items: seq<Item>): nat
  {
    if |items| == 0 then 0
    else TaskCount(items[..|items| - 1]) + (if items[|items| - 1].Task? then 1 else 0)
  }

  lemma {:induction false} TaskCountAppend(a: seq<Item>, b: seq<Item>)
    ensures TaskCount(a + b) == TaskCount(a) + TaskCount(b)
    decreases |b|
  {
    if |b| == 0 {
      assert a + b == a;
    } else {
      assert (a + b)[..|a + b| - 1] == a + b[..|b| - 1];
      TaskCountAppend(a, b[..|b| - 1]);
    }
  }

  /** Tasks over all station-days. */
  function BatchTasks(batches: seq<seq<Item>>): nat
  {
    if |batches| == 0 then 0 else BatchTasks(batches[..|batches| - 1]) + TaskCount(batches[|batches| - 1])
  }

  /** Tasks on queues `0 .. upto - 1`. */
  function QueueTasks(batches: seq<seq<Item>>, n: int, upto: nat): nat
    requires n >= 1
  {
    if upto == 0 then 0 else QueueTasks(batches, n, upto - 1) + TaskCount(Routed(batches, n, upto - 1))
  }

  lemma {:induction false} QueueTasksStep(batches: seq<seq<Item>>, n: int, upto: nat)
    requires n >= 1 && |batches| >= 1
    ensures var k := |batches| - 1;
            QueueTasks(batches, n, upto)
            == QueueTasks(batches[..k], n, upto) + (if k % n < upto then TaskCount(batches[k]) else 0)
  {
    var k := |batches| - 1;
    var pre := batches[..k];
    if upto > 0 {
      QueueTasksStep(batches, n, upto - 1);
      var extra := if k % n == upto - 1 then batches[k] else [];
      assert Routed(batches, n, upto - 1) == Routed(pre, n, upto - 1) + extra;
      TaskCountAppend(Routed(pre, n, upto - 1), extra);
      assert TaskCount(extra) == if k % n == upto - 1 then TaskCount(batches[k]) else 0;
      assert QueueTasks(pre, n, upto) == QueueTasks(pre, n, upto - 1) + TaskCount(Routed(pre, n, upto - 1));
    }
  }

  lemma {:induction false} QueueTasksEmpty(batches: seq<seq<Item>>, n: int, upto: nat)
    requires n >= 1 && |batches| == 0
    ensures QueueTasks(batches, n, upto) == 0
  {
    if upto > 0 {
      QueueTasksEmpty(batches, n, upto - 1);
    }
  }

  /** Routing loses and duplicates nothing: the queues together hold exactly the
      enumerated tasks. */
  lemma {:induction false} RoutingConservesTasks(batches: seq<seq<Item>>, n: int)
    requires n >= 1
    ensures QueueTasks(batches, n, n) == BatchTasks(batches)
    decreases |batches|
  {
    if |batches| == 0 {
      QueueTasksEmpty(batches, n, n);
    } else {
      QueueTasksStep(batches, n, n);
      RoutingConservesTasks(batches[..|batches| - 1], n);
    }
  }

  // ---------------------------------------------------------------------------
  // One worker

  /** What one download attempt yields: an exception (transfer error or missing
      file), or a completed transfer with the local file's size. */
  datatype Attempt = Raised | Fetched(localSize: int)

  /** What the worker observes for one queued item: the paths visible to the
      `glob('<localFile>*')` check, and the outcome of each download attempt. */
  datatype Observation = Observation(files: set<string>, fetch: nat -> Attempt)

  /** `glob(localFile + '*')` matches: some path starts with the local file's path
      and continues with no further separator. */
  predicate GlobHit(files: set<string>, localFile: string)
  {
    exists p :: p in files && localFile <= p && '/' !in p[|localFile|..]
  }

  /** The retry loop's final attempt counter, from attempt number `attempt` on:
      `attempts + 1` after a good attempt, otherwise the value at which
      `attempt < attempts` became false. */
  function AttemptLoop(attempts: int, size: int, fetch: nat -> Attempt, attempt: nat): (end: int)
    ensures end == attempts <==>
              attempt <= attempts && forall j: nat :: attempt <= j < attempts ==> fetch(j) != Fetched(size)
    decreases attempts - attempt
  {
    if attempt >= attempts then attempt
    else if fetch(attempt) == Fetched(size) then attempts + 1
    else AttemptLoop(attempts, size, fetch, attempt + 1)
  }

  /** A download succeeds exactly when one of the first `attempts` attempts completes
      with the expected size; a negative limit skips the loop and counts as success. */
  lemma RetryOutcome(attempts: int, size: int, fetch: nat -> Attempt)
    ensures AttemptLoop(attempts, size, fetch, 0) != attempts <==>
              attempts < 0 || exists j: nat :: j < attempts && fetch(j) == Fetched(size)
  {
  }

  /** Running totals of one worker; `removed` lists the local files it deletes. */
  datatype Worker = Worker(nSuccess: nat, nFail: nat, totSize: int, statSize: int, removed: seq<string>)

  const Idle := Worker(0, 0, 0, 0, [])

  /** A task is skipped as already present. */
  predicate Skips(item: Item, ob: Observation, clobber: bool)
  {
    item.Task? && GlobHit(ob.files, item.localFile) && !clobber
  }

  /** A task counts as a success: skipped as present, or downloaded. */
  predicate Succeeds(item: Item, ob: Observation, attempts: int, clobber: bool)
  {
    item.Task? && (Skips(item, ob, clobber) || AttemptLoop(attempts, item.size, ob.fetch, 0) != attempts)
  }

  /** One queue item processed by a worker. */
  function Step(w: Worker, item: Item, ob: Observation, attempts: int, clobber: bool): (w': Worker)
    ensures item.Sentinel? ==> w'.nSuccess == w.nSuccess && w'.nFail == w.nFail && w'.totSize == w.totSize
    ensures item.Sentinel? ==> w'.statSize == 0 && w'.removed == w.removed
    ensures item.Task? ==> w'.nSuccess + w'.nFail == w.nSuccess + w.nFail + 1
    ensures Succeeds(item, ob, attempts, clobber) ==>
              w'.nSuccess == w.nSuccess + 1 && w'.totSize == w.totSize + item.size && w'.removed == w.removed
    ensures item.Task? && !Succeeds(item, ob, attempts, clobber) ==>
              w'.nFail == w.nFail + 1 && w'.totSize == w.totSize && w'.removed == w.removed + [item.localFile]
  {
    match item
    case Sentinel(_) => w.(statSize := 0)
    case Task(_, _, size, localFile) =>
      if Skips(item, ob, clobber) || AttemptLoop(attempts, size, ob.fetch, 0) != attempts then
        w.(nSuccess := w.nSuccess + 1, totSize := w.totSize + size, statSize := w.statSize + size)
      else
        w.(nFail := w.nFail + 1, removed := w.removed + [localFile])
  }

  /** A present file (and no clobber) is a success without any download attempt. */
  lemma PresentFileSkipsDownload(w: Worker, item: Item, ob: Observation, attempts: int)
    requires item.Task? && GlobHit(ob.files, item.localFile)
    ensures Step(w, item, ob, attempts, false).nSuccess == w.nSuccess + 1
    ensures Step(w, item, ob, attempts, false).totSize == w.totSize + item.size
  {
  }

  /** A worker draining its queue: a left fold of `Step`; `obs(i)` is what it
      observes while processing its `i`-th item. */
  function RunWorker(items: seq<Item>, obs: nat -> Observation, attempts: int, clobber: bool): (w: Worker)
    ensures w.nSuccess + w.nFail == TaskCount(items)
    ensures |w.removed| == w.nFail
  {
    if |items| == 0 then Idle
    else
      var k := |items| - 1;
      Step(RunWorker(items[..k], obs, attempts, clobber), items[k], obs(k), attempts, clobber)
  }

  /** Reference count of the succeeded tasks. */
  function Successes(items: seq<Item>, obs: nat -> Observation, attempts: int, clobber: bool): nat
  {
    if |items| == 0 then 0
    else
      var k := |items| - 1;
      Successes(items[..k], obs, attempts, clobber) + (if Succeeds(items[k], obs(k), attempts, clobber) then 1 else 0)
  }

  /** Reference sum of the sizes of the succeeded tasks at positions `start` on. */
  function SizeSince(items: seq<Item>, start: nat, obs: nat -> Observation, attempts: int, clobber: bool): int
  {
    if |items| <= start then 0
    else
      var k := |items| - 1;
      SizeSince(items[..k], start, obs, attempts, clobber)
      + (if Succeeds(items[k], obs(k), attempts, clobber) then items[k].size else 0)
  }

  /** Reference list of the local files of the failed tasks, in queue order. */
  function FailedFiles(items: seq<Item>, obs: nat -> Observation, attempts: int, clobber: bool): seq<string>
  {
    if |items| == 0 then []
    else
      var k := |items| - 1;
      FailedFiles(items[..k], obs, attempts, clobber)
      + (if items[k].Task? && !Succeeds(items[k], obs(k), attempts, clobber) then [items[k].localFile] else [])
  }

  /** Index just after the last sentinel in `items` (0 when there is none). */
  function StationStart(items: seq<Item>): (s: nat)
    ensures s <= |items|
    ensures s > 0 ==> items[s - 1].Sentinel?
    ensures forall i :: s <= i < |items| ==> items[i].Task?
  {
    if |items| == 0 then 0
    else if items[|items| - 1].Sentinel? then |items|
    else StationStart(items[..|items| - 1])
  }

  /** A worker's success count and total size are those of its succeeded tasks;
      every task is a success or a failure and a sentinel is neither. */
  lemma {:induction false} WorkerCounts(items: seq<Item>, obs: nat -> Observation, attempts: int, clobber: bool)
    ensures var w := RunWorker(items, obs, attempts, clobber);
      && w.nSuccess == Successes(items, obs, attempts, clobber)
      && w.nSuccess + w.nFail == TaskCount(items)
      && w.totSize == SizeSince(items, 0, obs, attempts, clobber)
    decreases |items|
  {
    if |items| > 0 {
      WorkerCounts(items[..|items| - 1], obs, attempts, clobber);
    }
  }

  /** A worker deletes exactly the local files of its failed tasks, in order. */
  lemma {:induction false} WorkerRemovals(items: seq<Item>, obs: nat -> Observation, attempts: int, clobber: bool)
    ensures RunWorker(items, obs, attempts, clobber).removed == FailedFiles(items, obs, attempts, clobber)
    ensures |FailedFiles(items, obs, attempts, clobber)| == RunWorker(items, obs, attempts, clobber).nFail
    decreases |items|
  {
    if |items| > 0 {
      WorkerRemovals(items[..|items| - 1], obs, attempts, clobber);
    }
  }

  /** The running station size covers the succeeded tasks since the last sentinel. */
  lemma {:induction false} WorkerStationSize(items: seq<Item>, obs: nat -> Observation, attempts: int, clobber: bool)
    ensures RunWorker(items, obs, attempts, clobber).statSize
            == SizeSince(items, StationStart(items), obs, attempts, clobber)
    decreases |items|
  {
    if |items| > 0 {
      var pre := items[..|items| - 1];
      WorkerStationSize(pre, obs, attempts, clobber);
      if items[|items| - 1].Task? {
        assert StationStart(items) == StationStart(pre);
      }
    }
  }

  // ---------------------------------------------------------------------------
  // Reports and their summation

  /** What a worker puts on its queue when it stops: `(nSuccess, nFail, totSize)`. */
  datatype Report = Report(nSuccess: int, nFail: int, size: int)

  function ReportOf(w: Worker): Report
  {
    Report(w.nSuccess, w.nFail, w.totSize)
  }

  /** The summation loop as written: the failure total is added to itself instead
      of adding the worker's count, so it stays zero whatever the workers
      report. */
  function AggregateAsWritten(reports: seq<Report>): (r: Report)
    ensures r.nFail == 0
  {
    if |reports| == 0 then Report(0, 0, 0)
    else
      var acc := AggregateAsWritten(reports[..|reports| - 1]);
      var last := reports[|reports| - 1];
      Report(acc.nSuccess + last.nSuccess, acc.nFail + acc.nFail, acc.size + last.size)
  }

  /** One worker that failed one download: the as-written total still says zero. */
  lemma AsWrittenLosesAFailure()
    ensures Aggregate([Report(0, 1, 0)]).nFail == 1
    ensures AggregateAsWritten([Report(0, 1, 0)]).nFail == 0
  {
    assert [Report(0, 1, 0)][..0] == [];
  }

  /** The summation as intended: each total is the sum of the workers' counts; it
      agrees with the as-written loop except on failures. */
  function Aggregate(reports: seq<Report>): (r: Report)
    ensures r.nSuccess == Sum(|reports|, (i: nat) => if i < |reports| then reports[i].nSuccess else 0)
    ensures r.nFail == Sum(|reports|, (i: nat) => if i < |reports| then reports[i].nFail else 0)
    ensures r.size == Sum(|reports|, (i: nat) => if i < |reports| then reports[i].size else 0)
    ensures r.nSuccess == AggregateAsWritten(reports).nSuccess && r.size == AggregateAsWritten(reports).size
  {
    if |reports| == 0 then Report(0, 0, 0)
    else
      var k := |reports| - 1;
      var pre := reports[..k];
      var acc := Aggregate(pre);
      SumExt(k, (i: nat) => if i < |reports| then reports[i].nSuccess else 0,
                (i: nat) => if i < |pre| then pre[i].nSuccess else 0);
      SumExt(k, (i: nat) => if i < |reports| then reports[i].nFail else 0,
                (i: nat) => if i < |pre| then pre[i].nFail else 0);
      SumExt(k, (i: nat) => if i < |reports| then reports[i].size else 0,
                (i: nat) => if i < |pre| then pre[i].size else 0);
      Report(acc.nSuccess + reports[k].nSuccess, acc.nFail + reports[k].nFail, acc.size + reports[k].size)
  }

  /** Summed reports of queues each reporting its own task count cover all tasks. */
  lemma {:induction false} AggregateCoversQueues(reports: seq<Report>, batches: seq<seq<Item>>, n: int)
    requires n >= 1 && |reports| <= n
    requires forall q :: 0 <= q < |reports| ==>
               reports[q].nSuccess + reports[q].nFail == TaskCount(Routed(batches, n, q))
    ensures Aggregate(reports).nSuccess + Aggregate(reports).nFail == QueueTasks(batches, n, |reports|)
    decreases |reports|
  {
    if |reports| > 0 {
      AggregateCoversQueues(reports[..|reports| - 1], batches, n);
    }
  }

  /** Reference success count over queues `0 .. upto - 1`, each worker seeing its
      own observations. */
  function QueueSuccesses(batches: seq<seq<Item>>, n: int, observe: (nat, nat) -> Observation,
                          attempts: int, clobber: bool, upto: nat): nat
    requires n >= 1
  {
    if upto == 0 then 0
    else QueueSuccesses(batches, n, observe, attempts, clobber, upto - 1)
         + Successes(Routed(batches, n, upto - 1), Observer(observe, upto - 1), attempts, clobber)
  }

  /** Reference size of the succeeded tasks over queues `0 .. upto - 1`. */
  function QueueSizes(batches: seq<seq<Item>>, n: int, observe: (nat, nat) -> Observation,
                      attempts: int, clobber: bool, upto: nat): int
    requires n >= 1
  {
    if upto == 0 then 0
    else QueueSizes(batches, n, observe, attempts, clobber, upto - 1)
         + SizeSince(Routed(batches, n, upto - 1), 0, Observer(observe, upto - 1), attempts, clobber)
  }

  /** The as-written summation still totals the successes and sizes the workers
      report; only the failure total is lost. */
  lemma {:induction false} AsWrittenTotals(reports: seq<Report>, batches: seq<seq<Item>>, n: int,
                                           observe: (nat, nat) -> Observation, attempts: int, clobber: bool)
    requires n >= 1 && |reports| <= n
    requires forall q :: 0 <= q < |reports| ==>
               && reports[q].nSuccess == Successes(Routed(batches, n, q), Observer(observe, q), attempts, clobber)
               && reports[q].size == SizeSince(Routed(batches, n, q), 0, Observer(observe, q), attempts, clobber)
    ensures AggregateAsWritten(reports).nSuccess == QueueSuccesses(batches, n, observe, attempts, clobber, |reports|)
    ensures AggregateAsWritten(reports).size == QueueSizes(batches, n, observe, attempts, clobber, |reports|)
    decreases |reports|
  {
    if |reports| > 0 {
      AsWrittenTotals(reports[..|reports| - 1], batches, n, observe, attempts, clobber);
    }
  }

  /** No more tasks succeed than the queues hold. */
  lemma {:induction false} QueueSuccessesBounded(batches: seq<seq<Item>>, n: int, observe: (nat, nat) -> Observation,
                                                 attempts: int, clobber: bool, upto: nat)
    requires n >= 1
    ensures QueueSuccesses(batches, n, observe, attempts, clobber, upto) <= QueueTasks(batches, n, upto)
  {
    if upto > 0 {
      QueueSuccessesBounded(batches, n, observe, attempts, clobber, upto - 1);
      WorkerCounts(Routed(batches, n, upto - 1), Observer(observe, upto - 1), attempts, clobber);
    }
  }

  // ---------------------------------------------------------------------------
  // The whole run

  /** A download request: the arguments of `nexrad_level2_aws_download` that shape
      the result. */
  datatype Request = Request(
    date1: DateTime, date2: Option<DateTime>, stations: Stations, outroot: string,
    filters: Filters, clobber: bool, maxAttempt: int, concurrency: int)

  predicate ValidRequest(req: Request)
  {
    Valid(req.date1) && (req.date2.Some? ==> Valid(req.date2.value))
  }

  /** The end of the time window: `date2`, or the midnight after `date1`'s day. */
  function WindowEnd(req: Request): (end: DateTime)
    requires ValidRequest(req)
    ensures Valid(end)
    ensures req.date2.None? ==> end == NextDay(Midnight(req.date1))
    ensures req.date2.Some? ==> end == req.date2.value
  {
    if req.date2.Some? then req.date2.value else NextDay(Midnight(req.date1))
  }

  /** The days enumerated: from `date1`'s midnight while before the window end. */
  function Days(req: Request): seq<DateTime>
    requires ValidRequest(req)
  {
    DayLoop(Midnight(req.date1), WindowEnd(req), false)
  }

  /** Without `date2` exactly one day is enumerated: `date1`'s. */
  lemma DefaultWindowIsOneDay(req: Request)
    requires ValidRequest(req) && req.date2.None?
    ensures Days(req) == [Midnight(req.date1)]
  {
    OneDayWindow(req.date1);
  }

  /** Station-day `(d, i)` of a request. Station directories come from `date1`
      alone, so every day's files go under `date1`'s directory. */
  function StationDay(req: Request, list: string -> seq<ObjectRef>, d: nat, i: nat): Result<seq<Item>>
    requires ValidRequest(req)
  {
    var days := Days(req);
    var stations := StationList(req.stations);
    var dirs := Directories(req.date1, req.stations, req.outroot).stationDirs;
    if d < |days| && i < |stations| then
      StationDayItems(days[d], stations[i], dirs[i], list, Verdicts(req.filters, req.date1, WindowEnd(req)))
    else Ok([])
  }

  /** All station-days of a request, in enumeration order. */
  function Batches(req: Request, list: string -> seq<ObjectRef>): Result<seq<seq<Item>>>
    requires ValidRequest(req)
  {
    Enumerate(|Days(req)|, |StationList(req.stations)|, (d: nat, i: nat) => StationDay(req, list, d, i))
  }

  /** Enumeration can only fail with the `ValueError` of an unreadable name. */
  lemma BatchesFailWithValueError(req: Request, list: string -> seq<ObjectRef>)
    requires ValidRequest(req)
    ensures Batches(req, list).Err? ==> Batches(req, list).error == ValueError
  {
    if Batches(req, list).Err? {
      var batch := (d: nat, i: nat) => StationDay(req, list, d, i);
      var d: nat, i: nat :| d < |Days(req)| && i < |StationList(req.stations)|
                            && batch(d, i) == Err(Batches(req, list).error);
    }
  }

  /** The verdict that ends the scan of a listing when there is no queue to put
      on: that of the first object not dropped (its put, or its unreadable name,
      raises), or `Dropped` when every object is dropped. */
  function FirstStop(refs: seq<ObjectRef>, verdict: ObjectRef -> Verdict): (v: Verdict)
    ensures v == Dropped <==> forall j :: 0 <= j < |refs| ==> verdict(refs[j]) == Dropped
    ensures v != Dropped ==> exists j :: 0 <= j < |refs| && verdict(refs[j]) == v
                                         && forall i :: 0 <= i < j ==> verdict(refs[i]) == Dropped
    decreases |refs|
  {
    if |refs| == 0 then Dropped
    else if verdict(refs[0]) != Dropped then verdict(refs[0])
    else
      var v := FirstStop(refs[1..], verdict);
      assert forall j :: 1 <= j < |refs| ==> refs[j] == refs[1..][j - 1];
      v
  }

  /** The failure of a run with no download queue, which has station-days to
      enumerate: the first station-day's first put raises `IndexError`, unless
      its listing reaches an unreadable name before any kept object. */
  function NoQueueError(req: Request, list: string -> seq<ObjectRef>): (e: Error)
    requires ValidRequest(req)
    requires |Days(req)| > 0 && |StationList(req.stations)| > 0
    ensures e == ValueError || e == IndexError
  {
    var refs := list(KeyPrefix(Days(req)[0], StationList(req.stations)[0]));
    if FirstStop(refs, Verdicts(req.filters, req.date1, WindowEnd(req))) == Unreadable then ValueError
    else IndexError
  }

  /** Worker `q`'s view of its observations. */
  function Observer(observe: (nat, nat) -> Observation, q: nat): nat -> Observation
  {
    (pos: nat) => observe(q, pos)
  }

  /** Start every worker on its queue and collect the reports in worker order. */
  method RunWorkers(queues: seq<seq<Item>>, observe: (nat, nat) -> Observation, attempts: int, clobber: bool)
    returns (reports: seq<Report>)
    ensures |reports| == |queues|
    ensures forall q :: 0 <= q < |queues| ==>
              && reports[q].nSuccess == Successes(queues[q], Observer(observe, q), attempts, clobber)
              && reports[q].nSuccess + reports[q].nFail == TaskCount(queues[q])
              && reports[q].size == SizeSince(queues[q], 0, Observer(observe, q), attempts, clobber)
  {
    reports := [];
    var q := 0;
    while q < |queues|
      invariant 0 <= q <= |queues| && |reports| == q
      invariant forall j :: 0 <= j < q ==>
                  && reports[j].nSuccess == Successes(queues[j], Observer(observe, j), attempts, clobber)
                  && reports[j].nSuccess + reports[j].nFail == TaskCount(queues[j])
                  && reports[j].size == SizeSince(queues[j], 0, Observer(observe, j), attempts, clobber)
    {
      var w := RunWorker(queues[q], Observer(observe, q), attempts, clobber);
      WorkerCounts(queues[q], Observer(observe, q), attempts, clobber);
      reports := reports + [ReportOf(w)];
      q := q + 1;
    }
  }

  /** The whole run: enumerate, route, let every worker fold its queue, sum the
      reports with the as-written loop. The reported failure total is therefore
      always zero (the intended sum is `Aggregate`); successes and sizes are those
      of the succeeded tasks on all queues. */
  method Download(req: Request, list: string -> seq<ObjectRef>, observe: (nat, nat) -> Observation)
    returns (r: Result<Report>)
    requires ValidRequest(req)
    ensures WorkerCount(req.concurrency) >= 1 && Batches(req, list).Err? ==> r == Err(ValueError)
    ensures WorkerCount(req.concurrency) < 1 ==>
              (r.Ok? <==> |Days(req)| == 0 || |StationList(req.stations)| == 0)
    ensures WorkerCount(req.concurrency) < 1 && r.Err? ==> r == Err(NoQueueError(req, list))
    ensures WorkerCount(req.concurrency) < 1 && r.Ok? ==> r.value == Report(0, 0, 0)
    ensures r.Ok? ==> Batches(req, list).Ok?
    ensures WorkerCount(req.concurrency) >= 1 && r.Err? ==> r == Err(ValueError) && Batches(req, list).Err?
    ensures r.Ok? ==> r.value.nFail == 0
    ensures WorkerCount(req.concurrency) >= 1 && r.Ok? ==>
              var n := WorkerCount(req.concurrency);
              var batches := Batches(req, list).value;
              && r.value.nSuccess == QueueSuccesses(batches, n, observe, req.maxAttempt, req.clobber, n)
              && r.value.size == QueueSizes(batches, n, observe, req.maxAttempt, req.clobber, n)
              && r.value.nSuccess <= BatchTasks(batches)
  {
    var n := WorkerCount(req.concurrency);
    if n < 1 {
      if |Days(req)| == 0 || |StationList(req.stations)| == 0 {
        var batches := Batches(req, list);
        assert batches.Ok? && |batches.value| == 0;
        return Ok(Report(0, 0, 0));
      }
      return Err(NoQueueError(req, list));
    }
    var batches := Batches(req, list);
    if batches.Err? {
      BatchesFailWithValueError(req, list);
      return Err(batches.error);
    }
    var queues := Route(batches.value, n);
    var reports := RunWorkers(queues, observe, req.maxAttempt, req.clobber);
    AsWrittenTotals(reports, batches.value, n, observe, req.maxAttempt, req.clobber);
    QueueSuccessesBounded(batches.value, n, observe, req.maxAttempt, req.clobber, n);
    RoutingConservesTasks(batches.value, n);
    return Ok(AggregateAsWritten(reports));
  }
}
