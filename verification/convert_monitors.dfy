/** The two conversion progress monitors. Each watches per-station records move
    from "in flight" to "done" as converted files are reported: the pyart monitor
    reads `(status, outFile)` results from a queue, the wct-export monitor polls a
    cache directory and waits for each cached file's size to settle. */
module ConvertMonitors {
  import opened Common

  /** The statistics kept for one station. */
  datatype StationRecord = StationRecord(compressedSize: int, sizeConvert: int, numToConvert: int, numConverted: int)

  const Fresh := StationRecord(0, 0, 0, 0)

  /** The shared statistics dictionary as a monitor sees it: the stations still in
      flight, the stations it has moved out (`statDone`), the order in which they
      finished, and the global `sizeConvert` entry. */
  datatype Monitor = Monitor(inflight: map<string, StationRecord>, done: map<string, StationRecord>,
                             finished: seq<string>, total: int)

  /** Converted size of the done stations, summed in finishing order. */
  function DoneSize(done: map<string, StationRecord>, order: seq<string>): int
    requires forall i :: 0 <= i < |order| ==> order[i] in done
  {
    if |order| == 0 then 0
    else DoneSize(done, order[..|order| - 1]) + done[order[|order| - 1]].sizeConvert
  }

  predicate NoDuplicates<T(==)>(s: seq<T>)
  {
    forall i, j :: 0 <= i < j < |s| ==> s[i] != s[j]
  }

  /** The monitor invariant: every station of `keys` is in exactly one of the two
      maps, each done station finished once and is complete, and the global total
      is its starting value plus the sizes of the done stations. */
  predicate Consistent(m: Monitor, keys: set<string>, total0: int)
  {
    && m.inflight.Keys !! m.done.Keys
    && m.inflight.Keys + m.done.Keys == keys
    && NoDuplicates(m.finished)
    && (forall i :: 0 <= i < |m.finished| ==> m.finished[i] in m.done)
    && (forall s :: s in m.done ==> s in m.finished)
    && m.total == total0 + DoneSize(m.done, m.finished)
    && (forall s :: s in m.done ==> m.done[s].numConverted == m.done[s].numToConvert)
  }

  /** The state a monitor starts from. */
  function Start(stats: map<string, StationRecord>, total0: int): (m: Monitor)
    ensures Consistent(m, stats.Keys, total0)
  {
    Monitor(stats, map[], [], total0)
  }

  // ---------------------------------------------------------------------------
  // Transitions shared by both monitors

  /** One more file of `station` has been converted. */
  function Bump(m: Monitor, station: string): (r: Monitor)
    requires station in m.inflight
    ensures r.inflight.Keys == m.inflight.Keys && r.done == m.done && r.finished == m.finished && r.total == m.total
    ensures r.inflight[station] == m.inflight[station].(numConverted := m.inflight[station].numConverted + 1)
    ensures forall s :: s in m.inflight && s != station ==> r.inflight[s] == m.inflight[s]
  {
    var rec := m.inflight[station];
    m.(inflight := m.inflight[station := rec.(numConverted := rec.numConverted + 1)])
  }

  /** `size` more converted bytes for `station`. */
  function Credit(m: Monitor, station: string, size: int): (r: Monitor)
    requires station in m.inflight
    ensures r.inflight.Keys == m.inflight.Keys && r.done == m.done && r.finished == m.finished && r.total == m.total
    ensures r.inflight[station] == m.inflight[station].(sizeConvert := m.inflight[station].sizeConvert + size)
    ensures forall s :: s in m.inflight && s != station ==> r.inflight[s] == m.inflight[s]
  {
    var rec := m.inflight[station];
    m.(inflight := m.inflight[station := rec.(sizeConvert := rec.sizeConvert + size)])
  }

  /** The completion test: once a station has as many files converted as it had
      to convert, its record leaves the in-flight map for the done map and its size
      joins the global total. */
  function Settle(m: Monitor, station: string): (r: Monitor)
    requires station in m.inflight
    ensures var rec := m.inflight[station];
      if rec.numToConvert == rec.numConverted then
        && r.inflight == m.inflight - {station}
        && r.done == m.done[station := rec]
        && r.finished == m.finished + [station]
        && r.total == m.total + rec.sizeConvert
      else r == m
  {
    var rec := m.inflight[station];
    if rec.numToConvert == rec.numConverted then
      Monitor(m.inflight - {station}, m.done[station := rec], m.finished + [station], m.total + rec.sizeConvert)
    else m
  }

  /** A reported file of an in-flight station: one more file converted, `size`
      more bytes, then the completion test. */
  function Accept(m: Monitor, station: string, size: int): (r: Monitor)
    requires station in m.inflight
    ensures var rec := m.inflight[station];
      var rec' := rec.(numConverted := rec.numConverted + 1, sizeConvert := rec.sizeConvert + size);
      && (station in r.done <==> station in m.done || rec'.numConverted == rec'.numToConvert)
      && (station in r.inflight <==> rec'.numConverted != rec'.numToConvert)
      && (station in r.inflight ==> r.inflight[station] == rec')
      && (station in r.done && station !in m.done ==> r.done[station] == rec')
      && r.total == m.total + (if rec'.numConverted == rec'.numToConvert then rec'.sizeConvert else 0)
  {
    Settle(Credit(Bump(m, station), station, size), station)
  }

  /** Adding a station the finishing order does not mention leaves its sum alone. */
  lemma {:induction false} DoneSizeFrame(done: map<string, StationRecord>, order: seq<string>,
                                         station: string, rec: StationRecord)
    requires forall i :: 0 <= i < |order| ==> order[i] in done
    requires station !in order
    ensures DoneSize(done[station := rec], order) == DoneSize(done, order)
  {
    if |order| > 0 {
      DoneSizeFrame(done, order[..|order| - 1], station, rec);
    }
  }

  /** Bumping or crediting an in-flight station keeps the invariant. */
  lemma InflightUpdateKeepsConsistent(m: Monitor, r: Monitor, keys: set<string>, total0: int)
    requires Consistent(m, keys, total0)
    requires r.inflight.Keys == m.inflight.Keys && r.done == m.done && r.finished == m.finished && r.total == m.total
    ensures Consistent(r, keys, total0)
  {
  }

  /** The completion test keeps the invariant. */
  lemma SettleKeepsConsistent(m: Monitor, keys: set<string>, total0: int, station: string)
    requires Consistent(m, keys, total0) && station in m.inflight
    ensures Consistent(Settle(m, station), keys, total0)
  {
    var rec := m.inflight[station];
    if rec.numToConvert == rec.numConverted {
      var r := Settle(m, station);
      assert station !in m.finished;
      DoneSizeFrame(m.done, m.finished, station, rec);
      assert r.finished[..|r.finished| - 1] == m.finished;
      assert forall i :: 0 <= i < |r.finished| ==> r.finished[i] in r.done;
      assert DoneSize(r.done, r.finished) == DoneSize(m.done, m.finished) + rec.sizeConvert;
    }
  }

  /** Accepting a file keeps the invariant: no station is lost or duplicated and
      the global total stays the sum over the done stations. */
  lemma AcceptKeepsConsistent(m: Monitor, keys: set<string>, total0: int, station: string, size: int)
    requires Consistent(m, keys, total0) && station in m.inflight
    ensures Consistent(Accept(m, station, size), keys, total0)
  {
    var b := Bump(m, station);
    InflightUpdateKeepsConsistent(m, b, keys, total0);
    var c := Credit(b, station, size);
    InflightUpdateKeepsConsistent(b, c, keys, total0);
    SettleKeepsConsistent(c, keys, total0, station);
  }

  /** `statInfo.update(statDone)`: the done records are put back beside the
      stations still in flight. */
  function Merge(m: Monitor): (stats: map<string, StationRecord>)
    ensures stats.Keys == m.inflight.Keys + m.done.Keys
    ensures forall s :: s in m.done ==> stats[s] == m.done[s]
    ensures forall s :: s in m.inflight && s !in m.done ==> stats[s] == m.inflight[s]
  {
    m.inflight + m.done
  }

  /** Once the monitor is consistent, merging gives every station exactly once. */
  lemma MergeRestoresStations(m: Monitor, keys: set<string>, total0: int)
    requires Consistent(m, keys, total0)
    ensures Merge(m).Keys == keys
    ensures forall s :: s in m.inflight ==> Merge(m)[s] == m.inflight[s]
  {
  }

  // ---------------------------------------------------------------------------
  // How a monitor ends

  /** `AllDone`: no station is left in flight. `Stopped`: the stop signal (a `None`
      result, or the event) arrived first. `Crashed`: an exception ended the
      thread. `Blocked`: the thread waits forever (an empty queue, or a size that
      never settles). */
  datatype End = AllDone | Stopped | Crashed(error: Error) | Blocked

  /** The end reason, the monitor's last state, and the statistics the rest of
      the program sees: merged on a normal exit, only the in-flight records
      otherwise. */
  datatype Outcome = Outcome(end: End, monitor: Monitor, stats: map<string, StationRecord>)

  function Finish(end: End, m: Monitor): (o: Outcome)
    ensures o.end == end && o.monitor == m
    ensures o.stats == (if end == AllDone || end == Stopped then Merge(m) else m.inflight)
  {
    Outcome(end, m, if end == AllDone || end == Stopped then Merge(m) else m.inflight)
  }
  /** What a monitor promises on exit: the invariant still holds; on a normal
      exit the statistics hold every station again; and when every station is
      done, the done map holds them all. */
  predicate Sound(o: Outcome, keys: set<string>, total0: int)
  {
    && Consistent(o.monitor, keys, total0)
    && (o.end == AllDone || o.end == Stopped ==> o.stats.Keys == keys)
    && (o.end == AllDone ==> o.monitor.done.Keys == keys)
  }

  /** Ending a consistent monitor, for any reason, is sound. */
  lemma FinishSound(end: End, m: Monitor, keys: set<string>, total0: int)
    requires Consistent(m, keys, total0)
    requires end == AllDone ==> |m.inflight| == 0
    ensures Sound(Finish(end, m), keys, total0)
  {
    MergeRestoresStations(m, keys, total0);
  }


  // ---------------------------------------------------------------------------
  // The pyart monitor

  /** One queued conversion result: its status, its output path (`None` when the
      input file was missing), and the output file's size on disk. */
  datatype PyartResult = PyartResult(status: bool, outFile: Option<string>, size: int)

  /** The station of an output file: the first four characters of its name. */
  function PyartStation(outFile: string): (station: string)
    ensures |station| == if |Basename(outFile)| < 4 then |Basename(outFile)| else 4
    ensures station <= Basename(outFile)
  {
    PySlice(Basename(outFile), 0, 4)
  }

  /** The pyart monitor over the results it reads, in queue order; `None` in the
      queue is the stop marker. */
  function PyartLoop(m: Monitor, results: seq<Option<PyartResult>>): (o: Outcome)
    ensures o.end == AllDone ==> |o.monitor.inflight| == 0
    ensures o.end != Blocked && o.end != AllDone && o.end != Stopped ==> o.end == Crashed(TypeError)
    decreases |results|
  {
    if |m.inflight| == 0 then Finish(AllDone, m)
    else if |results| == 0 then Finish(Blocked, m)
    else match results[0]
      case None => Finish(Stopped, m)
      case Some(r) =>
        match r.outFile
        case None => Finish(Crashed(TypeError), m)
        case Some(f) =>
          var station := PyartStation(f);
          if station in m.inflight then
            PyartLoop(Accept(m, station, if r.status then r.size else 0), results[1..])
          else PyartLoop(m, results[1..])
  }

  /** A result whose station is unknown or already done changes nothing. */
  lemma PyartIgnoresUnknown(m: Monitor, r: PyartResult, f: string, rest: seq<Option<PyartResult>>)
    requires |m.inflight| > 0 && r.outFile == Some(f)
    requires PyartStation(f) !in m.inflight
    ensures PyartLoop(m, [Some(r)] + rest) == PyartLoop(m, rest)
  {
    assert ([Some(r)] + rest)[1..] == rest;
  }

  /** An accepted result counts one file, and its size only when the conversion
      succeeded. */
  lemma PyartCredit(m: Monitor, r: PyartResult, f: string, rest: seq<Option<PyartResult>>)
    requires |m.inflight| > 0 && r.outFile == Some(f)
    requires PyartStation(f) in m.inflight
    ensures PyartLoop(m, [Some(r)] + rest)
            == PyartLoop(Accept(m, PyartStation(f), if r.status then r.size else 0), rest)
  {
    assert ([Some(r)] + rest)[1..] == rest;
  }

  /** Whatever the results, the pyart monitor keeps every station in exactly one
      map with the global total equal to the done stations' sizes; on a normal
      exit the merged statistics hold every station again. */
  lemma {:induction false} PyartKeepsConsistent(m: Monitor, keys: set<string>, total0: int,
                                                results: seq<Option<PyartResult>>)
    requires Consistent(m, keys, total0)
    ensures Sound(PyartLoop(m, results), keys, total0)
    decreases |results|
  {
    if |m.inflight| == 0 {
      FinishSound(AllDone, m, keys, total0);
    } else if |results| == 0 {
      FinishSound(Blocked, m, keys, total0);
    } else if results[0].None? {
      FinishSound(Stopped, m, keys, total0);
    } else if results[0].value.outFile.None? {
      FinishSound(Crashed(TypeError), m, keys, total0);
    } else {
      var r := results[0].value;
      var station := PyartStation(r.outFile.value);
      if station in m.inflight {
        var size := if r.status then r.size else 0;
        AcceptKeepsConsistent(m, keys, total0, station, size);
        PyartKeepsConsistent(Accept(m, station, size), keys, total0, results[1..]);
      } else {
        PyartKeepsConsistent(m, keys, total0, results[1..]);
      }
    }
  }

  /** A station that has already reached its target before a file is counted,
      such as one with nothing to convert, never completes: neither monitor can
      end with every station done. */
  predicate Overdue(m: Monitor, station: string)
  {
    station in m.inflight && m.inflight[station].numToConvert <= m.inflight[station].numConverted
  }

  lemma AcceptKeepsOverdue(m: Monitor, station: string, other: string, size: int)
    requires Overdue(m, station) && other in m.inflight
    ensures Overdue(Accept(m, other, size), station)
  {
  }

  lemma {:induction false} PyartZeroTarget(m: Monitor, station: string, results: seq<Option<PyartResult>>)
    requires Overdue(m, station)
    ensures PyartLoop(m, results).end != AllDone
    decreases |results|
  {
    if |results| > 0 && results[0].Some? && results[0].value.outFile.Some? {
      var r := results[0].value;
      var st := PyartStation(r.outFile.value);
      if st in m.inflight {
        AcceptKeepsOverdue(m, station, st, if r.status then r.size else 0);
        PyartZeroTarget(Accept(m, st, if r.status then r.size else 0), station, results[1..]);
      } else {
        PyartZeroTarget(m, station, results[1..]);
      }
    }
  }

  // ---------------------------------------------------------------------------
  // Size stabilisation of a cache file

  /** The size of a cache file after the size readings `rest`, the last positive
      reading being `prev`: a positive reading equal to the previous positive one
      ends the wait with that size; a different positive reading replaces it; a
      zero reading is ignored. `None`: the readings run out before the size
      settles, so the wait never ends. */
  function Stabilize(rest: seq<int>, prev: int): (r: Option<int>)
    ensures r.Some? ==> r.value > 0 && r.value in rest
    decreases |rest|
  {
    if |rest| == 0 then None
    else if rest[0] > 0 then
      if rest[0] == prev then Some(rest[0]) else Stabilize(rest[1..], rest[0])
    else Stabilize(rest[1..], prev)
  }

  /** Reference definition: the reading that reading `k` is compared with, which is
      the last positive reading before it, or the first size when there is none. */
  function PrevPositive(first: int, later: seq<int>, k: nat): int
    requires k <= |later|
  {
    if k == 0 then first
    else if later[k - 1] > 0 then later[k - 1]
    else PrevPositive(first, later, k - 1)
  }

  /** Reading `k` ends the wait. */
  predicate StableAt(first: int, later: seq<int>, k: nat)
    requires k < |later|
  {
    later[k] > 0 && later[k] == PrevPositive(first, later, k)
  }

  lemma {:induction false} PrevPositiveShift(first: int, later: seq<int>, k: nat)
    requires 1 <= k <= |later|
    ensures PrevPositive(first, later, k)
            == PrevPositive(if later[0] > 0 then later[0] else first, later[1..], k - 1)
  {
    if k > 1 {
      PrevPositiveShift(first, later, k - 1);
    }
  }

  /** The wait ends exactly at the first reading that repeats the previous
      positive reading, and reports that reading. */
  lemma {:induction false} StabilizeSpec(first: int, later: seq<int>)
    ensures Stabilize(later, first).Some? <==> exists k: nat :: k < |later| && StableAt(first, later, k)
    ensures Stabilize(later, first).Some? ==>
              exists k: nat :: k < |later| && StableAt(first, later, k)
                && Stabilize(later, first).value == later[k]
                && forall j: nat :: j < k ==> !StableAt(first, later, j)
    decreases |later|
  {
    if |later| > 0 {
      var next := if later[0] > 0 then later[0] else first;
      var tail := later[1..];
      StabilizeSpec(next, tail);
      forall k: nat | 1 <= k < |later|
        ensures StableAt(first, later, k) == StableAt(next, tail, k - 1)
      {
        PrevPositiveShift(first, later, k);
      }
      if StableAt(first, later, 0) {
        assert Stabilize(later, first) == Some(later[0]);
      } else {
        assert Stabilize(later, first) == Stabilize(tail, next);
        if Stabilize(later, first).Some? {
          var k: nat :| k < |tail| && StableAt(next, tail, k)
                        && Stabilize(tail, next).value == tail[k]
                        && forall j: nat :: j < k ==> !StableAt(next, tail, j);
          assert StableAt(first, later, k + 1);
          forall j: nat | j < k + 1 ensures !StableAt(first, later, j) {
            if j > 0 {
              assert !StableAt(next, tail, j - 1);
            }
          }
        } else {
          forall k: nat | k < |later| ensures !StableAt(first, later, k) {
            if k > 0 {
              assert !StableAt(next, tail, k - 1);
            }
          }
        }
      }
    }
  }

  /** A zero reading anywhere is ignored. */
  lemma {:induction false} ZeroIgnored(a: seq<int>, b: seq<int>, prev: int)
    ensures Stabilize(a + [0] + b, prev) == Stabilize(a + b, prev)
    decreases |a|
  {
    if |a| == 0 {
      assert a + [0] + b == [0] + b && ([0] + b)[1..] == b;
      assert a + b == b;
    } else {
      ZeroIgnored(a[1..], b, if a[0] > 0 then a[0] else prev);
      assert (a + [0] + b)[1..] == a[1..] + [0] + b;
      assert (a + b)[1..] == a[1..] + b;
    }
  }

  // ---------------------------------------------------------------------------
  // The wct-export cache monitor

  /** A cache file found by a poll: its path, its size when first seen, and the
      sizes read afterwards, one per wait. */
  datatype CacheFile = CacheFile(path: string, first: int, later: seq<int>)

  /** The station a cache path belongs to: the second-to-last piece of the path
      split on the URL-encoded separator `%2F`. */
  function CacheStation(path: string): (r: Result<string>)
    ensures r.Err? <==> |Split(path, "%2F")| < 2
    ensures r.Err? ==> r.error == IndexError
    ensures r.Ok? ==> r.value == Split(path, "%2F")[|Split(path, "%2F")| - 2]
  {
    var pieces := Split(path, "%2F");
    if |pieces| < 2 then Err(IndexError) else Ok(pieces[|pieces| - 2])
  }

  /** The key of the global total; a path naming it as its station reaches the
      integer stored there instead of a station record. */
  const GlobalKey := "sizeConvert"

  /** How one poll ends: every file handled, with the files to delete; or the
      monitor ends inside the poll. */
  datatype Poll = Handled(monitor: Monitor, toDelete: seq<string>) | Halted(end: End, monitor: Monitor)

  /** One poll over the files found, in order. */
  function NoaaPoll(m: Monitor, files: seq<CacheFile>, toDelete: seq<string>): (p: Poll)
    ensures p.Halted? ==> p.end == Blocked || p.end == Crashed(IndexError) || p.end == Crashed(TypeError)
    decreases |files|
  {
    if |files| == 0 then Handled(m, toDelete)
    else
      var f := files[0];
      if f.path in toDelete then NoaaPoll(m, files[1..], toDelete)
      else match CacheStation(f.path)
        case Err(e) => Halted(Crashed(e), m)
        case Ok(station) =>
          if station == GlobalKey then Halted(Crashed(TypeError), m)
          else if station !in m.inflight then NoaaPoll(m, files[1..], toDelete)
          else
            var bumped := Bump(m, station);
            match Stabilize(f.later, f.first)
            case None => Halted(Blocked, bumped)
            case Some(size) => NoaaPoll(Settle(Credit(bumped, station, size), station), files[1..], toDelete + [f.path])
  }

  /** The files a poll deletes are distinct, each one of the poll's own files. */
  lemma {:induction false} NoaaPollDeletes(m: Monitor, files: seq<CacheFile>, toDelete: seq<string>)
    requires NoDuplicates(toDelete)
    ensures var p := NoaaPoll(m, files, toDelete);
      p.Handled? ==>
        && NoDuplicates(p.toDelete)
        && toDelete <= p.toDelete
        && forall i :: |toDelete| <= i < |p.toDelete| ==> exists j :: 0 <= j < |files| && files[j].path == p.toDelete[i]
    decreases |files|
  {
    if |files| > 0 {
      var f := files[0];
      var p := NoaaPoll(m, files, toDelete);
      if f.path in toDelete {
        NoaaPollDeletes(m, files[1..], toDelete);
      } else if CacheStation(f.path).Ok? {
        var station := CacheStation(f.path).value;
        if station != GlobalKey && station !in m.inflight {
          NoaaPollDeletes(m, files[1..], toDelete);
        } else if station != GlobalKey && Stabilize(f.later, f.first).Some? {
          var size := Stabilize(f.later, f.first).value;
          var m1 := Settle(Credit(Bump(m, station), station, size), station);
          var t := toDelete + [f.path];
          NoaaPollDeletes(m1, files[1..], t);
          if p.Handled? {
            forall i | |toDelete| <= i < |p.toDelete|
              ensures exists j :: 0 <= j < |files| && files[j].path == p.toDelete[i]
            {
              if i == |toDelete| {
                assert p.toDelete[i] == t[i] == files[0].path;
              } else {
                var j :| 0 <= j < |files[1..]| && files[1..][j].path == p.toDelete[i];
                assert files[j + 1].path == p.toDelete[i];
              }
            }
          }
        }
      }
    }
  }

  /** A poll keeps the monitor invariant, whether it finishes or not. */
  lemma {:induction false} NoaaPollKeepsConsistent(m: Monitor, keys: set<string>, total0: int,
                                                   files: seq<CacheFile>, toDelete: seq<string>)
    requires Consistent(m, keys, total0)
    ensures Consistent(NoaaPoll(m, files, toDelete).monitor, keys, total0)
    decreases |files|
  {
    if |files| > 0 {
      var f := files[0];
      if f.path in toDelete {
        NoaaPollKeepsConsistent(m, keys, total0, files[1..], toDelete);
      } else if CacheStation(f.path).Ok? {
        var station := CacheStation(f.path).value;
        if station != GlobalKey && station !in m.inflight {
          NoaaPollKeepsConsistent(m, keys, total0, files[1..], toDelete);
        } else if station != GlobalKey {
          var b := Bump(m, station);
          InflightUpdateKeepsConsistent(m, b, keys, total0);
          if Stabilize(f.later, f.first).Some? {
            var size := Stabilize(f.later, f.first).value;
            var c := Credit(b, station, size);
            InflightUpdateKeepsConsistent(b, c, keys, total0);
            SettleKeepsConsistent(c, keys, total0, station);
            NoaaPollKeepsConsistent(Settle(c, station), keys, total0, files[1..], toDelete + [f.path]);
          }
        }
      }
    }
  }

  /** The monitor over its polls, in order. An empty poll only waits; the files of
      a non-empty poll are deleted afterwards, so every poll starts with nothing
      left to delete. Running out of polls is the event being set. */
  function NoaaLoop(m: Monitor, polls: seq<seq<CacheFile>>): (o: Outcome)
    ensures o.end == AllDone ==> |o.monitor.inflight| == 0
    decreases |polls|
  {
    if |m.inflight| == 0 then Finish(AllDone, m)
    else if |polls| == 0 then Finish(Stopped, m)
    else if |polls[0]| == 0 then NoaaLoop(m, polls[1..])
    else match NoaaPoll(m, polls[0], [])
      case Halted(end, m1) => Finish(end, m1)
      case Handled(m1, _) => NoaaLoop(m1, polls[1..])
  }

  /** The wct-export monitor keeps the invariant, and on a normal exit the merged
      statistics hold every station again. */
  lemma {:induction false} NoaaKeepsConsistent(m: Monitor, keys: set<string>, total0: int, polls: seq<seq<CacheFile>>)
    requires Consistent(m, keys, total0)
    ensures Sound(NoaaLoop(m, polls), keys, total0)
    decreases |polls|
  {
    if |m.inflight| == 0 {
      FinishSound(AllDone, m, keys, total0);
    } else if |polls| == 0 {
      FinishSound(Stopped, m, keys, total0);
    } else if |polls[0]| == 0 {
      NoaaKeepsConsistent(m, keys, total0, polls[1..]);
    } else {
      NoaaPollKeepsConsistent(m, keys, total0, polls[0], []);
      var p := NoaaPoll(m, polls[0], []);
      if p.Handled? {
        NoaaKeepsConsistent(p.monitor, keys, total0, polls[1..]);
      } else {
        FinishSound(p.end, p.monitor, keys, total0);
      }
    }
  }

  lemma {:induction false} NoaaPollKeepsOverdue(m: Monitor, station: string, files: seq<CacheFile>, toDelete: seq<string>)
    requires Overdue(m, station)
    ensures Overdue(NoaaPoll(m, files, toDelete).monitor, station)
    decreases |files|
  {
    if |files| > 0 {
      var f := files[0];
      if f.path in toDelete {
        NoaaPollKeepsOverdue(m, station, files[1..], toDelete);
      } else if CacheStation(f.path).Ok? {
        var st := CacheStation(f.path).value;
        if st != GlobalKey && st !in m.inflight {
          NoaaPollKeepsOverdue(m, station, files[1..], toDelete);
        } else if st != GlobalKey && Stabilize(f.later, f.first).Some? {
          var size := Stabilize(f.later, f.first).value;
          AcceptKeepsOverdue(m, station, st, size);
          NoaaPollKeepsOverdue(Accept(m, st, size), station, files[1..], toDelete + [f.path]);
        }
      }
    }
  }

  /** The file count is raised before the comparison, so a station that starts at
      its target (nothing to convert) never completes, and the monitor ends only
      through the event or a failure. */
  lemma {:induction false} NoaaZeroTarget(m: Monitor, station: string, polls: seq<seq<CacheFile>>)
    requires Overdue(m, station)
    ensures NoaaLoop(m, polls).end != AllDone
    decreases |polls|
  {
    if |polls| > 0 {
      if |polls[0]| == 0 {
        NoaaZeroTarget(m, station, polls[1..]);
      } else {
        NoaaPollKeepsOverdue(m, station, polls[0], []);
        var p := NoaaPoll(m, polls[0], []);
        if p.Handled? {
          NoaaZeroTarget(p.monitor, station, polls[1..]);
        }
      }
    }
  }
}
