/** Local directory layout of NEXRAD Level 2 data:
    `<root>/NEXRAD/level2/<YYYY>/<YYYYMM>/<YYYYMMDD>/<STATION>/`. */
module Level2Directory {
  import opened Common
  import opened Calendar

  /** A station argument: one station ID, or a list or tuple of them. */
  datatype Stations = One(id: string) | Many(ids: seq<string>)

  /** A single ID is treated as a one-element list. */
  function StationList(s: Stations): seq<string>
  {
    match s
    case One(id) => [id]
    case Many(ids) => ids
  }

  /** The three values returned: one directory per station, their common parent
      for the day, and the Level 2 root. */
  datatype Layout = Layout(stationDirs: seq<string>, parent: string, level2Root: string)

  /** `root` followed by a separator, unless it is empty or already ends in one. */
  function WithSeparator(root: string): string
  {
    if root == "" || EndsWith(root, "/") then root else root + "/"
  }

  /** A station ID that is used as a plain relative path component. */
  predicate PlainComponent(s: string)
  {
    |s| > 0 && s[0] != '/' && s[|s| - 1] != '/'
  }

  function StationDir(parent: string, station: string): (dir: string)
    ensures PlainComponent(station) ==> dir == WithSeparator(parent) + station + "/"
  {
    PathJoin(PathJoin(parent, station), "")
  }

  /** Joining a relative component inserts exactly one separator. */
  lemma JoinRelative(a: string, b: string)
    requires |b| > 0 && b[0] != '/'
    ensures PathJoin(a, b) == WithSeparator(a) + b
  {
  }

  /** Joining a plain component onto a path that does not end in a separator. */
  function JoinComponent(a: string, b: string): (r: string)
    requires |a| > 0 && a[|a| - 1] != '/'
    requires PlainComponent(b)
    ensures r == a + "/" + b
    ensures |r| > 0 && r[|r| - 1] != '/'
  {
    JoinRelative(a, b);
    assert WithSeparator(a) == a + "/";
    PathJoin(a, b)
  }

  /** `<root>/NEXRAD/level2`. */
  function Level2Root(root: string): (r: string)
    ensures r == WithSeparator(root) + "NEXRAD/level2"
  {
    var a := PathJoin(root, "NEXRAD");
    JoinRelative(root, "NEXRAD");
    JoinRelative(a, "level2");
    assert WithSeparator(a) == a + "/";
    PathJoin(a, "level2")
  }

  /** `<level2Root>/YYYY/YYYYMM/YYYYMMDD/`, with a trailing separator. */
  function DayParent(level2Root: string, date: DateTime): (r: string)
    requires Valid(date) && |level2Root| > 0 && level2Root[|level2Root| - 1] != '/'
    ensures r == level2Root + "/" + Format([Year4], date) + "/"
                 + Format([Year4, Month2], date) + "/"
                 + Format(DateFormat, date) + "/"
  {
    var yyyy := Format([Year4], date);
    var yyyymm := Format([Year4, Month2], date);
    var yyyymmdd := Format(DateFormat, date);
    DigitsNotAbsolute(yyyy, date, [Year4]);
    DigitsNotAbsolute(yyyymm, date, [Year4, Month2]);
    DigitsNotAbsolute(yyyymmdd, date, DateFormat);
    var a := JoinComponent(level2Root, yyyy);
    var b := JoinComponent(a, yyyymm);
    var c := JoinComponent(b, yyyymmdd);
    assert WithSeparator(c) == c + "/";
    PathJoin(c, "")
  }

  /** Directories for `date` and `stations` under `root`. */
  function Directories(date: DateTime, stations: Stations, root: string): (r: Layout)
    requires Valid(date)
    ensures r.level2Root == WithSeparator(root) + "NEXRAD/level2"
    ensures r.parent == r.level2Root + "/" + Format([Year4], date) + "/"
                        + Format([Year4, Month2], date) + "/"
                        + Format(DateFormat, date) + "/"
    ensures |r.stationDirs| == |StationList(stations)|
    ensures stations.One? ==> |r.stationDirs| == 1
    ensures forall i :: 0 <= i < |r.stationDirs| ==>
              r.stationDirs[i] == StationDir(r.parent, StationList(stations)[i])
    ensures forall i :: 0 <= i < |r.stationDirs| && PlainComponent(StationList(stations)[i]) ==>
              r.stationDirs[i] == r.parent + StationList(stations)[i] + "/"
  {
    var level2Root := Level2Root(root);
    var parent := DayParent(level2Root, date);
    Layout(StationDirs(parent, StationList(stations)), parent, level2Root)
  }

  /** One directory per station, in order, under a parent ending in a separator. */
  function StationDirs(parent: string, ids: seq<string>): (dirs: seq<string>)
    requires |parent| > 0 && parent[|parent| - 1] == '/'
    ensures |dirs| == |ids|
    ensures forall i :: 0 <= i < |ids| ==> dirs[i] == StationDir(parent, ids[i])
    ensures forall i :: 0 <= i < |ids| && PlainComponent(ids[i]) ==> dirs[i] == parent + ids[i] + "/"
  {
    assert WithSeparator(parent) == parent;
    seq(|ids|, i requires 0 <= i < |ids| => StationDir(parent, ids[i]))
  }

  /** A formatted date field is a non-empty run of digits, so joining it never
      restarts the path or doubles a separator. */
  lemma DigitsNotAbsolute(s: string, date: DateTime, fmt: seq<Directive>)
    requires Valid(date) && |fmt| > 0 && s == Format(fmt, date)
    requires forall i :: 0 <= i < |fmt| ==> !fmt[i].Lit?
    ensures PlainComponent(s)
  {
    FormatIsDigits(fmt, date);
  }

  lemma {:induction false} FormatIsDigits(fmt: seq<Directive>, date: DateTime)
    requires Valid(date) && |fmt| > 0
    requires forall i :: 0 <= i < |fmt| ==> !fmt[i].Lit?
    ensures |Format(fmt, date)| > 0 && AllDigits(Format(fmt, date))
    decreases |fmt|
  {
    if |fmt| > 1 {
      FormatIsDigits(fmt[1..], date);
    }
  }

  /** A station directory extends its parent when the station is relative. */
  lemma StationDirExtends(parent: string, station: string)
    requires |parent| > 0 && parent[|parent| - 1] == '/'
    requires |station| == 0 || station[0] != '/'
    ensures parent <= StationDir(parent, station)
  {
    assert PathJoin(parent, station) == parent + station;
    var j := parent + station;
    assert j <= PathJoin(j, "");
  }

  /** The day's parent directory is a prefix of every relative station directory. */
  lemma ParentIsPrefix(date: DateTime, stations: Stations, root: string, i: nat)
    requires Valid(date)
    requires i < |StationList(stations)|
    requires |StationList(stations)[i]| == 0 || StationList(stations)[i][0] != '/'
    ensures Directories(date, stations, root).parent <= Directories(date, stations, root).stationDirs[i]
  {
    var r := Directories(date, stations, root);
    var st := StationList(stations)[i];
    var front := r.level2Root + "/" + Format([Year4], date) + "/" + Format([Year4, Month2], date) + "/"
                 + Format(DateFormat, date);
    assert r.parent == front + "/";
    assert r.parent[|r.parent| - 1] == '/';
    assert r.stationDirs[i] == StationDir(r.parent, st);
    StationDirExtends(r.parent, st);
  }


  lemma {:induction false} FormatLength(fmt: seq<Directive>, date: DateTime)
    requires FourDigitYear(date)
    ensures |Format(fmt, date)| == FormatWidth(fmt)
    decreases |fmt|
  {
    if |fmt| > 0 {
      FormatLength(fmt[1..], date);
      assert Pow10(2) == 100 && Pow10(4) == 10000;
    }
  }

  /** With four-digit years the three date components have widths 4, 6 and 8. */
  lemma DateComponentWidths(date: DateTime)
    requires FourDigitYear(date)
    ensures |Format([Year4], date)| == 4
    ensures |Format([Year4, Month2], date)| == 6
    ensures |Format(DateFormat, date)| == 8
  {
    FormatLength([Year4], date);
    FormatLength([Year4, Month2], date);
    FormatLength(DateFormat, date);
    assert [Year4, Month2][1..] == [Month2];
    assert DateFormat[1..] == [Month2, Day2] && DateFormat[2..] == [Day2];
    assert [Month2, Day2][1..] == [Day2];
  }
}
