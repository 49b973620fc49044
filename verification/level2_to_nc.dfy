/** Planning of a Level 2 to netCDF conversion: which local files are converted
    (and the per-station statistics that go with them), the lines of the
    wct-export batch files, how those lines are split over `concurrency` batch
    files, and the overall status. */
module Level2ToNc {
  import opened Common
  import opened Calendar
  import opened Level2Directory
  import opened ConvertMonitors

  /** A local Level 2 file and its size on disk. */
  datatype LocalFile = LocalFile(path: string, size: int)

  /** A file found in a station's directory for some day, with that station and
      its output directory. */
  datatype Entry = Entry(file: LocalFile, station: string, outDir: string)

  /** A conversion request. The two roots are optional, as in the source, where
      `None` is their default. */
  datatype Request = Request(stations: Stations, date0: DateTime, date1: DateTime,
                             level2Root: Option<string>, tmpRoot: Option<string>)

  /** `<tmpRoot>/netcdf/<station>`. */
  function OutDir(tmpRoot: string, station: string): (dir: string)
    ensures |station| > 0 && station[0] != '/' ==> dir == WithSeparator(tmpRoot) + "netcdf/" + station
  {
    JoinRelative(tmpRoot, "netcdf");
    var netcdf := PathJoin(tmpRoot, "netcdf");
    assert netcdf[|netcdf| - 1] == 'f';
    assert !EndsWith(netcdf, "/");
    PathJoin(netcdf, station)
  }

  /** The statistics dictionary before any file is selected: every station with
      all four counters at zero. A station listed twice has one entry. */
  function InitialStats(ids: seq<string>): (stats: map<string, StationRecord>)
    ensures forall s :: s in stats <==> s in ids
    ensures forall s :: s in stats ==> stats[s] == Fresh
  {
    if |ids| == 0 then map[]
    else
      var before := InitialStats(ids[..|ids| - 1]);
      assert ids == ids[..|ids| - 1] + [ids[|ids| - 1]];
      before[ids[|ids| - 1] := Fresh]
  }

  /** The scan time, to the minute, in characters 4..17 of a file name. */
  function FileStamp(base: string): (t: Option<DateTime>)
    ensures t.Some? ==> Valid(t.value) && t.value.second == 0 && |base| >= 17
  {
    SecondsUntouched(MinuteFormat, PySlice(base, 4, 17), Default);
    Parse(MinuteFormat, PySlice(base, 4, 17))
  }

  /** Scanning a format without a seconds field keeps the starting seconds. */
  lemma {:induction false} SecondsUntouched(fmt: seq<Directive>, s: string, acc: DateTime)
    requires forall i :: 0 <= i < |fmt| ==> fmt[i] != Second2
    ensures Scan(fmt, s, acc).Some? ==> Scan(fmt, s, acc).value.second == acc.second
    decreases |fmt|
  {
    if |fmt| > 0 && |s| >= Width(fmt[0]) {
      var w := Width(fmt[0]);
      if fmt[0].Lit? {
        SecondsUntouched(fmt[1..], s[1..], acc);
      } else if AllDigits(s[..w]) {
        SecondsUntouched(fmt[1..], s[w..], Set(acc, fmt[0], DigitsValue(s[..w])));
      }
    }
  }

  /** What the selection does with a found file: it is kept when the time in
      its name lies in the closed window [date0, date1]; a name without a
      readable time stops the whole conversion with `ValueError`. */
  function Judge(date0: DateTime, date1: DateTime, e: Entry): (v: Verdict)
    ensures v == Unreadable <==> FileStamp(Basename(e.file.path)).None?
    ensures v == Kept <==> (FileStamp(Basename(e.file.path)).Some?
                            && NotAfter(date0, FileStamp(Basename(e.file.path)).value)
                            && NotAfter(FileStamp(Basename(e.file.path)).value, date1))
  {
    match FileStamp(Basename(e.file.path))
    case None => Unreadable
    case Some(t) => if NotAfter(date0, t) && NotAfter(t, date1) then Kept else Dropped
  }

  function Judges(date0: DateTime, date1: DateTime): Entry -> Verdict
  {
    (e: Entry) => Judge(date0, date1, e)
  }

  // ---------------------------------------------------------------------------
  // Selection

  /** What the selection loop accumulates. */
  datatype Plan = Plan(inFiles: seq<string>, outDirs: seq<string>, stats: map<string, StationRecord>,
                       numConvert: nat, compressedSize: int)

  /** Selecting one file: its path and output directory are appended, and its
      station's file count and compressed size grow with it. */
  function AddEntry(p: Plan, e: Entry): (q: Plan)
    requires e.station in p.stats
    ensures q.stats.Keys == p.stats.Keys
  {
    var rec := p.stats[e.station];
    Plan(p.inFiles + [e.file.path], p.outDirs + [e.outDir],
         p.stats[e.station := rec.(compressedSize := rec.compressedSize + e.file.size,
                                   numToConvert := rec.numToConvert + 1)],
         p.numConvert + 1, p.compressedSize + e.file.size)
  }

  /** Selecting a file changes only its own station's counters. */
  lemma AddEntryStats(p: Plan, e: Entry, s: string)
    requires e.station in p.stats && s in p.stats
    ensures AddEntry(p, e).stats[s]
              == p.stats[s].(compressedSize := p.stats[s].compressedSize + (if e.station == s then e.file.size else 0),
                             numToConvert := p.stats[s].numToConvert + (if e.station == s then 1 else 0))
  {
  }

  /** The selection loop over the found files, in order. */
  function Select(entries: seq<Entry>, verdict: Entry -> Verdict, init: Plan): (r: Result<Plan>)
    requires forall i :: 0 <= i < |entries| ==> entries[i].station in init.stats
    ensures r.Ok? ==> r.value.stats.Keys == init.stats.Keys
    ensures r.Err? ==> r.error == ValueError
    decreases |entries|
  {
    if |entries| == 0 then Ok(init)
    else
      var n := |entries|;
      var before := Select(entries[..n - 1], verdict, init);
      var e := entries[n - 1];
      if before.Err? then before
      else match verdict(e)
        case Unreadable => Err(ValueError)
        case Dropped => before
        case Kept => Ok(AddEntry(before.value, e))
  }

  /** Reference definition: the kept entries, in order. */
  function KeptEntries(entries: seq<Entry>, verdict: Entry -> Verdict): seq<Entry>
    decreases |entries|
  {
    if |entries| == 0 then []
    else
      var n := |entries|;
      KeptEntries(entries[..n - 1], verdict) + (if verdict(entries[n - 1]) == Kept then [entries[n - 1]] else [])
  }

  /** An entry is kept exactly when it is found and judged worth keeping. */
  lemma {:induction false} KeptEntriesMembers(entries: seq<Entry>, verdict: Entry -> Verdict)
    ensures forall e :: e in KeptEntries(entries, verdict) <==> e in entries && verdict(e) == Kept
    decreases |entries|
  {
    if |entries| > 0 {
      var n := |entries|;
      KeptEntriesMembers(entries[..n - 1], verdict);
      assert entries == entries[..n - 1] + [entries[n - 1]];
    }
  }

  function Paths(es: seq<Entry>): (paths: seq<string>)
    ensures |paths| == |es| && forall i :: 0 <= i < |es| ==> paths[i] == es[i].file.path
  {
    if |es| == 0 then [] else Paths(es[..|es| - 1]) + [es[|es| - 1].file.path]
  }

  function OutDirs(es: seq<Entry>): (dirs: seq<string>)
    ensures |dirs| == |es| && forall i :: 0 <= i < |es| ==> dirs[i] == es[i].outDir
  {
    if |es| == 0 then [] else OutDirs(es[..|es| - 1]) + [es[|es| - 1].outDir]
  }

  /** Number of entries of station `s`. */
  function StationCount(es: seq<Entry>, s: string): nat
  {
    if |es| == 0 then 0
    else StationCount(es[..|es| - 1], s) + (if es[|es| - 1].station == s then 1 else 0)
  }

  /** Total size of the entries of station `s`. */
  function StationBytes(es: seq<Entry>, s: string): int
  {
    if |es| == 0 then 0
    else StationBytes(es[..|es| - 1], s) + (if es[|es| - 1].station == s then es[|es| - 1].file.size else 0)
  }

  function Bytes(es: seq<Entry>): int
  {
    if |es| == 0 then 0 else Bytes(es[..|es| - 1]) + es[|es| - 1].file.size
  }

  /** The selection fails, with `ValueError`, exactly when some found name is
      unreadable. */
  lemma {:induction false} SelectFails(entries: seq<Entry>, verdict: Entry -> Verdict, init: Plan)
    requires forall i :: 0 <= i < |entries| ==> entries[i].station in init.stats
    ensures Select(entries, verdict, init).Err? <==> exists i :: 0 <= i < |entries| && verdict(entries[i]) == Unreadable
    decreases |entries|
  {
    if |entries| > 0 {
      var n := |entries|;
      SelectFails(entries[..n - 1], verdict, init);
      assert forall i :: 0 <= i < n - 1 ==> entries[..n - 1][i] == entries[i];
    }
  }

  /** The per-entry sums and lists grow by one entry's worth when it is appended. */
  lemma EntriesSnoc(es: seq<Entry>, e: Entry, s: string)
    ensures Paths(es + [e]) == Paths(es) + [e.file.path]
    ensures OutDirs(es + [e]) == OutDirs(es) + [e.outDir]
    ensures Bytes(es + [e]) == Bytes(es) + e.file.size
    ensures StationCount(es + [e], s) == StationCount(es, s) + (if e.station == s then 1 else 0)
    ensures StationBytes(es + [e], s) == StationBytes(es, s) + (if e.station == s then e.file.size else 0)
  {
    assert (es + [e])[..|es|] == es;
  }

  /** One step of the selection loop: the last entry is added exactly when kept. */
  lemma SelectStep(entries: seq<Entry>, verdict: Entry -> Verdict, init: Plan)
    requires forall i :: 0 <= i < |entries| ==> entries[i].station in init.stats
    requires |entries| > 0 && Select(entries, verdict, init).Ok?
    ensures var front := entries[..|entries| - 1];
      forall i :: 0 <= i < |front| ==> front[i].station in init.stats
    ensures Select(entries[..|entries| - 1], verdict, init).Ok?
    ensures var e := entries[|entries| - 1];
      var pf := Select(entries[..|entries| - 1], verdict, init).value;
      Select(entries, verdict, init).value == if verdict(e) == Kept then AddEntry(pf, e) else pf
    ensures var e := entries[|entries| - 1];
      KeptEntries(entries, verdict)
        == KeptEntries(entries[..|entries| - 1], verdict) + if verdict(e) == Kept then [e] else []
  {
    var front := entries[..|entries| - 1];
    assert forall i :: 0 <= i < |front| ==> front[i] == entries[i];
  }

  /** Adding a kept entry to a plan that holds the files of `kf` gives one that
      holds those of `kf + [e]`. */
  lemma AddEntryFiles(pf: Plan, e: Entry, kf: seq<Entry>, init: Plan)
    requires e.station in pf.stats
    requires pf.inFiles == init.inFiles + Paths(kf) && pf.outDirs == init.outDirs + OutDirs(kf)
    ensures AddEntry(pf, e).inFiles == init.inFiles + Paths(kf + [e])
    ensures AddEntry(pf, e).outDirs == init.outDirs + OutDirs(kf + [e])
  {
    EntriesSnoc(kf, e, e.station);
    assert (init.inFiles + Paths(kf)) + [e.file.path] == init.inFiles + (Paths(kf) + [e.file.path]);
    assert (init.outDirs + OutDirs(kf)) + [e.outDir] == init.outDirs + (OutDirs(kf) + [e.outDir]);
  }

  /** A successful selection appends exactly the kept files, in order, with their
      output directories. */
  lemma {:induction false} SelectFiles(entries: seq<Entry>, verdict: Entry -> Verdict, init: Plan)
    requires forall i :: 0 <= i < |entries| ==> entries[i].station in init.stats
    requires Select(entries, verdict, init).Ok?
    ensures Select(entries, verdict, init).value.inFiles == init.inFiles + Paths(KeptEntries(entries, verdict))
    ensures Select(entries, verdict, init).value.outDirs == init.outDirs + OutDirs(KeptEntries(entries, verdict))
    decreases |entries|
  {
    if |entries| > 0 {
      var front := entries[..|entries| - 1];
      var e := entries[|entries| - 1];
      SelectStep(entries, verdict, init);
      SelectFiles(front, verdict, init);
      var pf := Select(front, verdict, init).value;
      var kf := KeptEntries(front, verdict);
      if verdict(e) == Kept {
        assert pf.stats.Keys == init.stats.Keys;
        AddEntryFiles(pf, e, kf, init);
      }
    }
  }

  /** A successful selection counts the kept files and adds up their sizes. */
  lemma {:induction false} SelectTotals(entries: seq<Entry>, verdict: Entry -> Verdict, init: Plan)
    requires forall i :: 0 <= i < |entries| ==> entries[i].station in init.stats
    requires Select(entries, verdict, init).Ok?
    ensures Select(entries, verdict, init).value.numConvert == init.numConvert + |KeptEntries(entries, verdict)|
    ensures Select(entries, verdict, init).value.compressedSize
              == init.compressedSize + Bytes(KeptEntries(entries, verdict))
    decreases |entries|
  {
    if |entries| > 0 {
      var front := entries[..|entries| - 1];
      var e := entries[|entries| - 1];
      SelectStep(entries, verdict, init);
      SelectTotals(front, verdict, init);
      var pf := Select(front, verdict, init).value;
      var kf := KeptEntries(front, verdict);
      if verdict(e) == Kept {
        assert Select(entries, verdict, init).value == AddEntry(pf, e);
        assert KeptEntries(entries, verdict) == kf + [e];
        EntriesSnoc(kf, e, e.station);
      } else {
        assert Select(entries, verdict, init).value == pf;
        assert KeptEntries(entries, verdict) == kf;
      }
    }
  }

  /** Adding a kept entry to a plan whose counters for `s` cover `kf` gives one
      whose counters cover `kf + [e]`. */
  lemma AddEntryCounters(pf: Plan, e: Entry, kf: seq<Entry>, r: StationRecord, s: string)
    requires e.station in pf.stats && s in pf.stats
    requires pf.stats[s] == r.(compressedSize := r.compressedSize + StationBytes(kf, s),
                               numToConvert := r.numToConvert + StationCount(kf, s))
    ensures AddEntry(pf, e).stats[s] == r.(compressedSize := r.compressedSize + StationBytes(kf + [e], s),
                                           numToConvert := r.numToConvert + StationCount(kf + [e], s))
  {
    EntriesSnoc(kf, e, s);
    AddEntryStats(pf, e, s);
  }

  /** In a successful selection every station gains one file to convert and its
      size for each kept file of its own, and its other counters are unchanged. */
  lemma {:induction false} SelectStats(entries: seq<Entry>, verdict: Entry -> Verdict, init: Plan, s: string)
    requires forall i :: 0 <= i < |entries| ==> entries[i].station in init.stats
    requires Select(entries, verdict, init).Ok? && s in init.stats
    ensures var p := Select(entries, verdict, init).value;
      var kept := KeptEntries(entries, verdict);
      p.stats[s] == init.stats[s].(compressedSize := init.stats[s].compressedSize + StationBytes(kept, s),
                                   numToConvert := init.stats[s].numToConvert + StationCount(kept, s))
    decreases |entries|
  {
    if |entries| > 0 {
      var front := entries[..|entries| - 1];
      var e := entries[|entries| - 1];
      SelectStep(entries, verdict, init);
      SelectStats(front, verdict, init, s);
      var pf := Select(front, verdict, init).value;
      if verdict(e) == Kept {
        assert pf.stats.Keys == init.stats.Keys;
        var kf := KeptEntries(front, verdict);
        AddEntryCounters(pf, e, kf, init.stats[s], s);
        assert Select(entries, verdict, init).value == AddEntry(pf, e);
        assert KeptEntries(entries, verdict) == kf + [e];
      } else {
        assert Select(entries, verdict, init).value == pf;
        assert KeptEntries(entries, verdict) == KeptEntries(front, verdict);
      }
    }
  }


  // ---------------------------------------------------------------------------
  // The whole request

  /** The days visited: from midnight of `date0` while `date1 >= day`. */
  function Days(req: Request): (days: seq<DateTime>)
    requires Valid(req.date0)
    ensures forall i :: 0 <= i < |days| ==> Valid(days[i]) && NotAfter(days[i], req.date1)
    ensures |days| > 0 ==> days[0] == Midnight(req.date0)
    ensures |days| == 0 <==> Before(req.date1, Midnight(req.date0))
    ensures forall i :: 0 <= i < |days| - 1 ==> days[i + 1] == NextDay(days[i])
    ensures |days| > 0 ==> Before(req.date1, NextDay(days[|days| - 1]))
  {
    DayLoopSteps(Midnight(req.date0), req.date1, true);
    DayLoop(Midnight(req.date0), req.date1, true)
  }

  /** The files of one station directory, tagged with the station and its output
      directory. */
  function StationEntries(files: seq<LocalFile>, station: string, outDir: string): (es: seq<Entry>)
    ensures |es| == |files|
    ensures forall k :: 0 <= k < |es| ==> es[k] == Entry(files[k], station, outDir)
  {
    if |files| == 0 then [] else [Entry(files[0], station, outDir)] + StationEntries(files[1..], station, outDir)
  }

  /** The day's station directories, one per station. */
  function DayDirs(day: DateTime, ids: seq<string>, root: string): (dirs: seq<string>)
    requires Valid(day)
    ensures |dirs| == |ids|
  {
    Directories(day, Many(ids), root).stationDirs
  }

  /** One day's files: station by station, each station's directory as listed by
      `list`. */
  function DayEntries(day: DateTime, ids: seq<string>, root: string, tmpRoot: string,
                      list: string -> seq<LocalFile>): seq<seq<Entry>>
    requires Valid(day)
  {
    DirEntries(DayDirs(day, ids, root), ids, tmpRoot, list)
  }

  /** The files of each station's directory, station by station. */
  function DirEntries(dirs: seq<string>, ids: seq<string>, tmpRoot: string,
                      list: string -> seq<LocalFile>): (parts: seq<seq<Entry>>)
    requires |dirs| == |ids|
    ensures |parts| == |ids|
    ensures forall i, k :: 0 <= i < |parts| && 0 <= k < |parts[i]| ==> parts[i][k].station == ids[i]
  {
    seq(|ids|, i requires 0 <= i < |ids| => StationEntries(list(dirs[i]), ids[i], OutDir(tmpRoot, ids[i])))
  }

  /** All files found, day by day, then station by station, then in listing
      order. */
  function Entries(days: seq<DateTime>, ids: seq<string>, root: string, tmpRoot: string,
                   list: string -> seq<LocalFile>): (es: seq<Entry>)
    requires forall i :: 0 <= i < |days| ==> Valid(days[i])
    ensures forall e :: e in es ==> e.station in ids
  {
    if |days| == 0 then []
    else
      DayEntriesStations(days[0], ids, root, tmpRoot, list);
      Flatten(DayEntries(days[0], ids, root, tmpRoot, list)) + Entries(days[1..], ids, root, tmpRoot, list)
  }

  lemma DayEntriesStations(day: DateTime, ids: seq<string>, root: string, tmpRoot: string,
                           list: string -> seq<LocalFile>)
    requires Valid(day)
    ensures forall e :: e in Flatten(DayEntries(day, ids, root, tmpRoot, list)) ==> e.station in ids
  {
    var parts := DayEntries(day, ids, root, tmpRoot, list);
    FlattenMember(parts);
    forall e: Entry | e in Flatten(parts) ensures e.station in ids {
      var i :| 0 <= i < |parts| && e in parts[i];
      var k :| 0 <= k < |parts[i]| && parts[i][k] == e;
    }
  }

  lemma {:induction false} FlattenMember<T>(parts: seq<seq<T>>)
    ensures forall x :: x in Flatten(parts) ==> exists i :: 0 <= i < |parts| && x in parts[i]
    decreases |parts|
  {
    if |parts| > 0 {
      FlattenMember(parts[1..]);
      forall x | x in Flatten(parts)
        ensures exists i :: 0 <= i < |parts| && x in parts[i]
      {
        if x !in parts[0] {
          var i :| 0 <= i < |parts[1..]| && x in parts[1..][i];
          assert x in parts[i + 1];
        }
      }
    }
  }

  /** The selection over the found files, starting from fresh statistics for
      every station and nothing selected. */
  function PlanOf(entries: seq<Entry>, ids: seq<string>, date0: DateTime, date1: DateTime): (r: Result<Plan>)
    requires forall e :: e in entries ==> e.station in ids
    ensures r.Err? ==> r.error == ValueError
    ensures r.Ok? ==> forall s :: s in r.value.stats <==> s in ids
  {
    Select(entries, Judges(date0, date1), Plan([], [], InitialStats(ids), 0, 0))
  }

  /** The plan for a request. Output directories are needed first, so a missing
      temporary root fails as soon as there is a station; a missing Level 2 root
      fails as soon as there is a day to look at; an unreadable name fails the
      selection. */
  function ConvertPlan(req: Request, list: string -> seq<LocalFile>): (r: Result<Plan>)
    requires Valid(req.date0)
    ensures r.Err? ==> r.error == TypeError || r.error == ValueError
    ensures (r == Err(TypeError)) <==>
              || (req.tmpRoot.None? && |StationList(req.stations)| > 0)
              || (req.level2Root.None? && |Days(req)| > 0)
    ensures r.Ok? ==> forall s :: s in r.value.stats <==> s in StationList(req.stations)
  {
    var ids := StationList(req.stations);
    if req.tmpRoot.None? && |ids| > 0 then Err(TypeError)
    else
      var days := Days(req);
      if req.level2Root.None? && |days| > 0 then Err(TypeError)
      else PlanOf(Entries(days, ids, Root(req.level2Root), Root(req.tmpRoot), list), ids, req.date0, req.date1)
  }

  /** A root as a path; a missing root is never joined, so its stand-in does not
      matter. */
  function Root(root: Option<string>): string
  {
    if root.Some? then root.value else ""
  }

  /** The file names returned to the caller: the base names of the selected
      files, in selection order. */
  function ReturnedNames(p: Plan): (names: seq<string>)
    ensures |names| == |p.inFiles|
    ensures forall j :: 0 <= j < |names| ==> EndsWith(p.inFiles[j], names[j])
  {
    seq(|p.inFiles|, j requires 0 <= j < |p.inFiles| => Basename(p.inFiles[j]))
  }

  /** Every returned name carries a time, to the minute, inside the closed
      window [date0, date1], and as many names are returned as files counted for
      conversion. */
  lemma ReturnedNamesInWindow(entries: seq<Entry>, ids: seq<string>, date0: DateTime, date1: DateTime)
    requires forall e :: e in entries ==> e.station in ids
    requires PlanOf(entries, ids, date0, date1).Ok?
    ensures var p := PlanOf(entries, ids, date0, date1).value;
      |ReturnedNames(p)| == p.numConvert == |p.outDirs|
    ensures var p := PlanOf(entries, ids, date0, date1).value;
      forall j :: 0 <= j < |ReturnedNames(p)| ==> InWindow(ReturnedNames(p)[j], date0, date1)
  {
    var init := Plan([], [], InitialStats(ids), 0, 0);
    var verdict := Judges(date0, date1);
    assert forall i :: 0 <= i < |entries| ==> entries[i].station in init.stats by {
      forall i | 0 <= i < |entries| ensures entries[i].station in init.stats {
        assert entries[i] in entries;
      }
    }
    var p := Select(entries, verdict, init).value;
    assert p == PlanOf(entries, ids, date0, date1).value;
    SelectFiles(entries, verdict, init);
    SelectTotals(entries, verdict, init);
    var kept := KeptEntries(entries, verdict);
    assert p.inFiles == Paths(kept) && p.outDirs == OutDirs(kept) && p.numConvert == |kept|;
    KeptEntriesMembers(entries, verdict);
    var names := ReturnedNames(p);
    forall j | 0 <= j < |names| ensures InWindow(names[j], date0, date1) {
      var e := kept[j];
      assert e in kept && names[j] == Basename(e.file.path);
      KeptIsInWindow(date0, date1, e);
    }
  }

  /** The name carries a time inside the closed window [date0, date1]. */
  predicate InWindow(name: string, date0: DateTime, date1: DateTime)
  {
    FileStamp(name).Some? && NotAfter(date0, FileStamp(name).value) && NotAfter(FileStamp(name).value, date1)
  }

  lemma KeptIsInWindow(date0: DateTime, date1: DateTime, e: Entry)
    requires Judges(date0, date1)(e) == Kept
    ensures InWindow(Basename(e.file.path), date0, date1)
  {
    assert Judge(date0, date1, e) == Kept;
  }

  /** Each station's statistics in the plan: nothing converted yet, and one file
      to convert and its size for every selected file of that station. */
  lemma PlanStationStats(entries: seq<Entry>, ids: seq<string>, date0: DateTime, date1: DateTime, s: string)
    requires forall e :: e in entries ==> e.station in ids
    requires PlanOf(entries, ids, date0, date1).Ok?
    requires s in ids
    ensures var p := PlanOf(entries, ids, date0, date1).value;
      var kept := KeptEntries(entries, Judges(date0, date1));
      p.stats[s] == StationRecord(StationBytes(kept, s), 0, StationCount(kept, s), 0)
  {
    var init := Plan([], [], InitialStats(ids), 0, 0);
    SelectStats(entries, Judges(date0, date1), init, s);
    assert init.stats[s] == Fresh;
  }

  // ---------------------------------------------------------------------------
  // Batch-file lines

  /** One line of a batch file: input file, output directory, configuration. */
  function BatchLine(inFile: string, outDir: string, config: string): (line: string)
    ensures line == Join([inFile, outDir, config], ",")
  {
    assert [inFile, outDir, config][1..] == [outDir, config];
    assert [outDir, config][1..] == [config];
    assert Join([outDir, config], ",") == outDir + "," + config;
    inFile + "," + outDir + "," + config
  }

  /** A batch line splits back into its three fields when none of them contains
      a comma. */
  lemma BatchLineFields(inFile: string, outDir: string, config: string)
    requires Avoids(inFile, ',') && Avoids(outDir, ',') && Avoids(config, ',')
    ensures Split(BatchLine(inFile, outDir, config), ",") == [inFile, outDir, config]
  {
    SplitJoin([inFile, outDir, config], ",");
  }

  /** The batch lines, one per input file in order; the output directories are
      indexed alongside, so too few of them raise `IndexError`. */
  function BatchLines(inFiles: seq<string>, outDirs: seq<string>, config: string): (r: Result<seq<string>>)
    ensures r.Err? <==> |outDirs| < |inFiles|
    ensures r.Err? ==> r.error == IndexError
    ensures r.Ok? ==> |r.value| == |inFiles|
    ensures r.Ok? ==> forall j :: 0 <= j < |inFiles| && Avoids(inFiles[j], ',') && Avoids(outDirs[j], ',') && Avoids(config, ',')
                        ==> Split(r.value[j], ",") == [inFiles[j], outDirs[j], config]
  {
    if |outDirs| < |inFiles| then Err(IndexError)
    else
      var lines := seq(|inFiles|, j requires 0 <= j < |inFiles| => BatchLine(inFiles[j], outDirs[j], config));
      forall j | 0 <= j < |inFiles| && Avoids(inFiles[j], ',') && Avoids(outDirs[j], ',') && Avoids(config, ',')
        ensures Split(lines[j], ",") == [inFiles[j], outDirs[j], config]
      {
        BatchLineFields(inFiles[j], outDirs[j], config);
      }
      Ok(lines)
  }

  /** The text of a batch file: every line followed by a newline. */
  function BatchFileText(rows: seq<string>): (text: string)
    ensures text == Join(rows + [""], "\n")
  {
    if |rows| == 0 then ""
    else
      var rest := BatchFileText(rows[1..]);
      assert (rows + [""])[1..] == rows[1..] + [""];
      rows[0] + "\n" + rest
  }

  /** Reading a batch file back line by line gives its lines, then the empty text
      after the final newline. */
  lemma BatchFileRoundTrip(rows: seq<string>)
    requires forall j :: 0 <= j < |rows| ==> Avoids(rows[j], '\n')
    ensures Split(BatchFileText(rows), "\n") == rows + [""]
  {
    var parts := rows + [""];
    var sep := "\n";
    forall i | 0 <= i < |parts| ensures Avoids(parts[i], sep[0]) {
      if i < |rows| {
        assert parts[i] == rows[i];
      }
    }
    SplitJoin(parts, sep);
  }

  // ---------------------------------------------------------------------------
  // Partition of the lines over the batch files

  function Min(a: int, b: int): int
  {
    if a <= b then a else b
  }

  /** Lines per batch file: the floor quotient, raised to 1 when it is 0. */
  function Chunk(n: nat, c: int): (nn: nat)
    requires c >= 1
    ensures nn >= 1
    ensures n >= c ==> nn == n / c
  {
    if n / c == 0 then 1 else n / c
  }

  /** The boundaries as written: `i * nn` for `i` in 0..c, the last one raised to
      the number of lines when it falls short. */
  function BoundsAsWritten(n: nat, c: int): (b: seq<nat>)
    requires c >= 1
    ensures |b| == c + 1
  {
    var nn := Chunk(n, c);
    var b := seq(c + 1, i requires 0 <= i <= c => i * nn);
    if b[c] < n then b[c := n] else b
  }

  /** `[lines[j] for j in range(a, b)]`: an index past the end raises
      `IndexError`. */
  function Rows(lines: seq<string>, a: nat, b: nat): (r: Result<seq<string>>)
    ensures r.Err? <==> a < b && b > |lines|
    ensures r.Err? ==> r.error == IndexError
    ensures r.Ok? ==> r.value == (if a < b then lines[a..b] else [])
  {
    if b <= a then Ok([]) else if b > |lines| then Err(IndexError) else Ok(lines[a..b])
  }

  /** Writing batch files `i ..` from the boundaries, in order; the first bad
      index ends everything. */
  function Fill(lines: seq<string>, bounds: seq<nat>, i: nat): (r: Result<seq<seq<string>>>)
    requires i < |bounds|
    ensures r.Ok? ==> |r.value| == |bounds| - 1 - i
    ensures r.Err? ==> r.error == IndexError
    decreases |bounds| - i
  {
    if i + 1 == |bounds| then Ok([])
    else match Rows(lines, bounds[i], bounds[i + 1])
      case Err(e) => Err(e)
      case Ok(rows) =>
        match Fill(lines, bounds, i + 1)
        case Err(e) => Err(e)
        case Ok(rest) => Ok([rows] + rest)
  }

  /** The partition as written. A zero `concurrency` divides by zero; a negative
      one leaves no boundaries, so reading the last one raises `IndexError`. */
  function PartitionAsWritten(lines: seq<string>, c: int): (r: Result<seq<seq<string>>>)
    ensures c == 0 <==> r == Err(ZeroDivisionError)
    ensures c < 0 ==> r == Err(IndexError)
    ensures r.Ok? ==> |r.value| == c
    ensures r.Err? ==> r.error == ZeroDivisionError || r.error == IndexError
  {
    if c == 0 then Err(ZeroDivisionError)
    else if c < 0 then Err(IndexError)
    else Fill(lines, BoundsAsWritten(|lines|, c), 0)
  }

  predicate Monotone(b: seq<nat>)
  {
    forall i, j :: 0 <= i <= j < |b| ==> b[i] <= b[j]
  }

  /** The batches between consecutive boundaries from `i` on. */
  function Slices(lines: seq<string>, bounds: seq<nat>, i: nat): (r: seq<seq<string>>)
    requires i < |bounds| && Monotone(bounds) && bounds[|bounds| - 1] <= |lines|
    ensures |r| == |bounds| - 1 - i
    ensures forall k :: 0 <= k < |r| ==> r[k] == lines[bounds[i + k]..bounds[i + k + 1]]
    decreases |bounds| - i
  {
    if i + 1 == |bounds| then [] else [lines[bounds[i]..bounds[i + 1]]] + Slices(lines, bounds, i + 1)
  }

  /** Consecutive slices put back together give the lines between the first and
      last boundary, each once and in order. */
  lemma {:induction false} SlicesCover(lines: seq<string>, bounds: seq<nat>, i: nat)
    requires i < |bounds| && Monotone(bounds) && bounds[|bounds| - 1] <= |lines|
    ensures Flatten(Slices(lines, bounds, i)) == lines[bounds[i]..bounds[|bounds| - 1]]
    decreases |bounds| - i
  {
    if i + 1 < |bounds| {
      SlicesCover(lines, bounds, i + 1);
      var a, b, z := bounds[i], bounds[i + 1], bounds[|bounds| - 1];
      assert lines[a..b] + lines[b..z] == lines[a..z];
    }
  }

  /** Within bounds, writing the batch files never fails and writes exactly the
      slices. */
  lemma {:induction false} FillWithinBounds(lines: seq<string>, bounds: seq<nat>, i: nat)
    requires i < |bounds| && Monotone(bounds) && bounds[|bounds| - 1] <= |lines|
    ensures Fill(lines, bounds, i) == Ok(Slices(lines, bounds, i))
    decreases |bounds| - i
  {
    if i + 1 < |bounds| {
      FillWithinBounds(lines, bounds, i + 1);
      assert lines[bounds[i]..bounds[i]] == [];
    }
  }

  /** When the last batch reaches past the end, writing fails with
      `IndexError`. */
  lemma {:induction false} FillOverrun(lines: seq<string>, bounds: seq<nat>, i: nat)
    requires i + 1 < |bounds| && Monotone(bounds)
    requires bounds[|bounds| - 2] < bounds[|bounds| - 1] && bounds[|bounds| - 1] > |lines|
    ensures Fill(lines, bounds, i) == Err(IndexError)
    decreases |bounds| - i
  {
    if Rows(lines, bounds[i], bounds[i + 1]).Ok? {
      FillOverrun(lines, bounds, i + 1);
    }
  }

  /** Corrected boundaries: every boundary is capped at the number of lines and
      the last one is the number of lines. */
  function Bounds(n: nat, c: int): (b: seq<nat>)
    requires c >= 1
    ensures |b| == c + 1 && b[0] == 0 && b[c] == n
    ensures Monotone(b)
  {
    var nn := Chunk(n, c);
    var b := seq(c + 1, i requires 0 <= i <= c => if i == c then n else Min(i * nn, n));
    forall i, j | 0 <= i <= j <= c ensures b[i] <= b[j] {
      if j < c {
        assert i * nn <= j * nn by { MulMonotone(i, j, nn); }
      }
    }
    b
  }

  lemma MulMonotone(i: nat, j: nat, k: nat)
    requires i <= j
    ensures i * k <= j * k
  {
  }

  /** The corrected partition: `c` batch files whose lines, put back together,
      are all the lines, each once and in order. */
  function Partition(lines: seq<string>, c: int): (r: Result<seq<seq<string>>>)
    ensures c == 0 <==> r == Err(ZeroDivisionError)
    ensures c < 0 <==> r == Err(IndexError)
    ensures c >= 1 ==> r.Ok? && |r.value| == c && Flatten(r.value) == lines
  {
    if c == 0 then Err(ZeroDivisionError)
    else if c < 0 then Err(IndexError)
    else
      var b := Bounds(|lines|, c);
      SlicesCover(lines, b, 0);
      assert lines[0..|lines|] == lines;
      Ok(Slices(lines, b, 0))
  }

  /** With at least as many lines as batch files, no boundary is capped, so the
      two sets of boundaries are the same. */
  lemma BoundsAgree(n: nat, c: int)
    requires 1 <= c <= n
    ensures BoundsAsWritten(n, c) == Bounds(n, c)
    ensures forall i :: 0 <= i < c ==> Bounds(n, c)[i] == i * (n / c)
  {
    var nn := Chunk(n, c);
    var w := BoundsAsWritten(n, c);
    var b := Bounds(n, c);
    assert c * nn <= n;
    forall i | 0 <= i < c ensures w[i] == b[i] == i * nn {
      MulMonotone(i, c, nn);
    }
  }

  /** With at least as many lines as batch files, the two partitions agree. */
  lemma PartitionsAgree(lines: seq<string>, c: int)
    requires 1 <= c <= |lines|
    ensures PartitionAsWritten(lines, c) == Partition(lines, c)
  {
    BoundsAgree(|lines|, c);
    FillWithinBounds(lines, Bounds(|lines|, c), 0);
  }

  /** With at least as many lines as batch files, every batch but the last has
      the floor quotient of lines, and the last also takes the remainder. */
  lemma BatchSizes(lines: seq<string>, c: int)
    requires 1 <= c <= |lines|
    ensures var p := Partition(lines, c).value;
      && (forall i :: 0 <= i < c - 1 ==> |p[i]| == |lines| / c)
      && |p[c - 1]| == |lines| / c + |lines| % c
  {
    var n := |lines|;
    BoundsAgree(n, c);
    var p := Partition(lines, c).value;
    var b := Bounds(n, c);
    assert p == Slices(lines, b, 0);
    forall i | 0 <= i < c - 1 ensures |p[i]| == n / c {
      assert |p[i]| == b[i + 1] - b[i] by {
        assert p[i] == lines[b[i]..b[i + 1]];
      }
      BatchWidth(b, i, n / c);
    }
    assert |p[c - 1]| == n - b[c - 1] by {
      assert p[c - 1] == lines[b[c - 1]..b[c]];
    }
    LastBatch(n, c);
  }

  lemma BatchWidth(b: seq<nat>, i: nat, nn: nat)
    requires i + 1 < |b| && b[i] == i * nn && b[i + 1] == (i + 1) * nn
    ensures b[i + 1] - b[i] == nn
  {
    MulStep(i, nn);
  }

  lemma LastBatch(n: nat, c: int)
    requires 1 <= c
    ensures n - (c - 1) * (n / c) == n / c + n % c
  {
    var q, r := n / c, n % c;
    assert n == c * q + r;
    MulStep(c - 1, q);
  }

  lemma MulStep(i: nat, k: nat)
    ensures (i + 1) * k == i * k + k
  {
  }

  /** With fewer lines than batch files (but at least one), the boundaries run
      one line per file past the end, and writing fails with `IndexError`. */
  lemma PartitionAsWrittenOverruns(lines: seq<string>, c: int)
    requires 0 < |lines| < c
    ensures PartitionAsWritten(lines, c) == Err(IndexError)
  {
    var w := BoundsAsWritten(|lines|, c);
    assert forall i :: 0 <= i <= c ==> w[i] == i;
    FillOverrun(lines, w, 0);
  }

  /** The smallest case: one line and two batch files. */
  lemma OneLineTwoFiles()
    ensures PartitionAsWritten(["a.ar2v,out,cfg.xml"], 2) == Err(IndexError)
    ensures Partition(["a.ar2v,out,cfg.xml"], 2) == Ok([["a.ar2v,out,cfg.xml"], []])
  {
    var lines := ["a.ar2v,out,cfg.xml"];
    PartitionAsWrittenOverruns(lines, 2);
    var b := Bounds(1, 2);
    assert b[1] == 1;
    var p := Partition(lines, 2).value;
    assert p == Slices(lines, b, 0);
    assert p[0] == lines[0..1] == lines;
    assert p[1] == lines[1..1] == [];
    assert p == [lines, []];
  }

  // ---------------------------------------------------------------------------
  // Overall status

  /** `all(code == 0 for code in codes)`. */
  function AllClean(codes: seq<int>): (ok: bool)
    ensures ok <==> forall i :: 0 <= i < |codes| ==> codes[i] == 0
  {
    if |codes| == 0 then true else codes[0] == 0 && AllClean(codes[1..])
  }

  /** A wct-export conversion: the batch lines, nothing to do when there are
      none, otherwise the partition as written and one export per batch file,
      whose exit codes `exitCode` supplies; the result is true exactly when every
      export exited with 0. More batch files than lines overrun the lines. */
  function WctConvert(inFiles: seq<string>, outDirs: seq<string>, config: string, c: int,
                      exitCode: nat -> int): (r: Result<bool>)
    ensures |outDirs| >= |inFiles| == 0 ==> r == Ok(true)
    ensures |outDirs| < |inFiles| ==> r == Err(IndexError)
    ensures |outDirs| >= |inFiles| >= c >= 1 ==>
              r.Ok? && (r.value <==> forall i: nat :: i < c ==> exitCode(i) == 0)
    ensures 0 < |inFiles| <= |outDirs| && |inFiles| < c ==> r == Err(IndexError)
    ensures |outDirs| >= |inFiles| > 0 && c == 0 ==> r == Err(ZeroDivisionError)
    ensures |outDirs| >= |inFiles| > 0 && c < 0 ==> r == Err(IndexError)
  {
    match BatchLines(inFiles, outDirs, config)
    case Err(e) => Err(e)
    case Ok(lines) =>
      if |lines| == 0 then Ok(true)
      else
        assert 1 <= c <= |lines| ==> PartitionAsWritten(lines, c) == Partition(lines, c) by {
          if 1 <= c <= |lines| { PartitionsAgree(lines, c); }
        }
        assert |lines| < c ==> PartitionAsWritten(lines, c) == Err(IndexError) by {
          if |lines| < c { PartitionAsWrittenOverruns(lines, c); }
        }
        match PartitionAsWritten(lines, c)
        case Err(e) => Err(e)
        case Ok(batches) =>
          var codes := seq(|batches|, i requires 0 <= i < |batches| => exitCode(i));
          assert forall i: nat :: i < c ==> codes[i] == exitCode(i);
          Ok(AllClean(codes))
  }
}
