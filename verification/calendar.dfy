/** Calendar arithmetic and the fixed-width `strptime`/`strftime` forms used by the
    system: a date-time to the second, the proleptic Gregorian calendar, the
    "plus one day" step, chronological order, and parsing/formatting with the
    directives %Y %m %d %H %M %S and literal characters. */
module Calendar {
  import opened Common

  datatype DateTime = DateTime(year: int, month: int, day: int, hour: int, minute: int, second: int)

  predicate IsLeap(y: int)
  {
    y % 4 == 0 && (y % 100 != 0 || y % 400 == 0)
  }

  function DaysInMonth(y: int, m: int): (n: int)
    requires 1 <= m <= 12
    ensures 28 <= n <= 31
  {
    if m == 2 then (if IsLeap(y) then 29 else 28)
    else if m == 4 || m == 6 || m == 9 || m == 11 then 30
    else 31
  }

  /** The values `datetime` accepts (years are not bounded above here). */
  predicate Valid(d: DateTime)
  {
    && 1 <= d.year
    && 1 <= d.month <= 12
    && 1 <= d.day <= DaysInMonth(d.year, d.month)
    && 0 <= d.hour < 24
    && 0 <= d.minute < 60
    && 0 <= d.second < 60
  }

  /** A position on the time line that orders valid date-times chronologically. */
  function Key(d: DateTime): int
  {
    ((((d.year * 12 + (d.month - 1)) * 31 + (d.day - 1)) * 24 + d.hour) * 60 + d.minute) * 60 + d.second
  }

  /** `a < b` between datetime values. */
  predicate Before(a: DateTime, b: DateTime)
  {
    Key(a) < Key(b)
  }

  /** `a <= b` between datetime values. */
  predicate NotAfter(a: DateTime, b: DateTime)
  {
    Key(a) <= Key(b)
  }

  /** Field-by-field comparison, the order `datetime` defines. */
  predicate LexBefore(a: DateTime, b: DateTime)
  {
    || a.year < b.year
    || (a.year == b.year && a.month < b.month)
    || (a.year == b.year && a.month == b.month && a.day < b.day)
    || (a.year == b.year && a.month == b.month && a.day == b.day && a.hour < b.hour)
    || (a.year == b.year && a.month == b.month && a.day == b.day && a.hour == b.hour && a.minute < b.minute)
    || (a.year == b.year && a.month == b.month && a.day == b.day && a.hour == b.hour && a.minute == b.minute
        && a.second < b.second)
  }

  /** The key order is exactly the field-by-field order on valid date-times. */
  lemma BeforeIsLexicographic(a: DateTime, b: DateTime)
    requires Valid(a) && Valid(b)
    ensures Before(a, b) <==> LexBefore(a, b)
  {
    var ta := (a.hour * 60 + a.minute) * 60 + a.second;
    var tb := (b.hour * 60 + b.minute) * 60 + b.second;
    assert 0 <= ta < 86400 && 0 <= tb < 86400;
    var da := (a.year * 12 + (a.month - 1)) * 31 + (a.day - 1);
    var db := (b.year * 12 + (b.month - 1)) * 31 + (b.day - 1);
    assert Key(a) == da * 86400 + ta && Key(b) == db * 86400 + tb;
    assert Key(a) < Key(b) <==> da < db || (da == db && ta < tb);
    var ma := a.year * 12 + (a.month - 1);
    var mb := b.year * 12 + (b.month - 1);
    assert da < db <==> ma < mb || (ma == mb && a.day < b.day);
    assert ma < mb <==> a.year < b.year || (a.year == b.year && a.month < b.month);
  }

  /** `datetime(d.year, d.month, d.day, 0)`. */
  function Midnight(d: DateTime): (r: DateTime)
    ensures Valid(d) ==> Valid(r) && NotAfter(r, d)
    ensures r.year == d.year && r.month == d.month && r.day == d.day
    ensures r.hour == 0 && r.minute == 0 && r.second == 0
  {
    DateTime(d.year, d.month, d.day, 0, 0, 0)
  }

  /** `d + timedelta(days = 1)`: the same clock time on the next calendar day. */
  function NextDay(d: DateTime): (r: DateTime)
    requires Valid(d)
    ensures Valid(r) && Key(d) < Key(r)
    ensures r.hour == d.hour && r.minute == d.minute && r.second == d.second
  {
    if d.day < DaysInMonth(d.year, d.month) then d.(day := d.day + 1)
    else if d.month < 12 then d.(month := d.month + 1, day := 1)
    else d.(year := d.year + 1, month := 1, day := 1)
  }

  /** The loop condition: `end >= d` when `inclusive`, `end > d` otherwise. */
  predicate Continues(d: DateTime, end: DateTime, inclusive: bool)
  {
    if inclusive then NotAfter(d, end) else Before(d, end)
  }

  /** The days visited by `while end > d: ... d += 1 day` (when `inclusive` is false)
      or `while end >= d: ...` (when it is true). */
  function DayLoop(d: DateTime, end: DateTime, inclusive: bool): (days: seq<DateTime>)
    requires Valid(d)
    ensures forall i :: 0 <= i < |days| ==> Valid(days[i]) && Continues(days[i], end, inclusive)
    ensures |days| > 0 ==> days[0] == d
    ensures |days| == 0 <==> !Continues(d, end, inclusive)
    decreases Key(end) - Key(d)
  {
    if Continues(d, end, inclusive) then [d] + DayLoop(NextDay(d), end, inclusive) else []
  }

  /** The loop steps one day at a time and stops at the first day past the end. */
  lemma {:induction false} DayLoopSteps(d: DateTime, end: DateTime, inclusive: bool)
    requires Valid(d)
    ensures var days := DayLoop(d, end, inclusive);
      forall i :: 0 <= i < |days| - 1 ==> days[i + 1] == NextDay(days[i])
    ensures var days := DayLoop(d, end, inclusive);
      |days| > 0 ==> !Continues(NextDay(days[|days| - 1]), end, inclusive)
    decreases Key(end) - Key(d)
  {
    if Continues(d, end, inclusive) {
      var rest := DayLoop(NextDay(d), end, inclusive);
      DayLoopSteps(NextDay(d), end, inclusive);
      var days := [d] + rest;
      assert DayLoop(d, end, inclusive) == days;
      forall i | 0 <= i < |days| - 1 ensures days[i + 1] == NextDay(days[i]) {
        if i > 0 {
          assert days[i] == rest[i - 1] && days[i + 1] == rest[i];
        }
      }
      if |rest| > 0 {
        assert days[|days| - 1] == rest[|rest| - 1];
      }
    }
  }

  /** Stepping from a midnight to the next midnight visits exactly one day. */
  lemma OneDayWindow(d: DateTime)
    requires Valid(d)
    ensures DayLoop(Midnight(d), NextDay(Midnight(d)), false) == [Midnight(d)]
  {
    var m := Midnight(d);
    assert DayLoop(NextDay(m), NextDay(m), false) == [];
  }

  /** A `strftime`/`strptime` directive. */
  datatype Directive = Year4 | Month2 | Day2 | Hour2 | Minute2 | Second2 | Lit(c: char)

  function Width(f: Directive): nat
  {
    match f
    case Year4 => 4
    case Lit(_) => 1
    case _ => 2
  }

  function FormatWidth(fmt: seq<Directive>): nat
  {
    if |fmt| == 0 then 0 else Width(fmt[0]) + FormatWidth(fmt[1..])
  }

  /** The field a directive reads. */
  function Get(d: DateTime, f: Directive): int
  {
    match f
    case Year4 => d.year
    case Month2 => d.month
    case Day2 => d.day
    case Hour2 => d.hour
    case Minute2 => d.minute
    case Second2 => d.second
    case Lit(_) => 0
  }

  /** The field a directive writes. */
  function Set(d: DateTime, f: Directive, v: int): DateTime
  {
    match f
    case Year4 => d.(year := v)
    case Month2 => d.(month := v)
    case Day2 => d.(day := v)
    case Hour2 => d.(hour := v)
    case Minute2 => d.(minute := v)
    case Second2 => d.(second := v)
    case Lit(_) => d
  }

  /** `strptime`'s starting point for fields the format does not mention. */
  const Default := DateTime(1900, 1, 1, 0, 0, 0)

  const ScanTimeFormat: seq<Directive> :=
    [Year4, Month2, Day2, Lit('_'), Hour2, Minute2, Second2]
  const MinuteFormat: seq<Directive> := [Year4, Month2, Day2, Lit('_'), Hour2, Minute2]
  const CompactMinuteFormat: seq<Directive> := [Year4, Month2, Day2, Hour2, Minute2]
  const DateFormat: seq<Directive> := [Year4, Month2, Day2]

  /** Read `s` against the format, field by field, starting from `acc`. */
  function Scan(fmt: seq<Directive>, s: string, acc: DateTime): (r: Option<DateTime>)
    ensures r.Some? ==> |s| == FormatWidth(fmt)
  {
    if |fmt| == 0 then (if |s| == 0 then Some(acc) else None)
    else
      var w := Width(fmt[0]);
      if |s| < w then None
      else match fmt[0]
        case Lit(c) => if s[0] == c then Scan(fmt[1..], s[1..], acc) else None
        case _ =>
          if AllDigits(s[..w]) then Scan(fmt[1..], s[w..], Set(acc, fmt[0], DigitsValue(s[..w])))
          else None
  }

  /** `datetime.strptime(s, fmt)` for fixed-width digit fields: `None` is the
      `ValueError` raised for a malformed text or an impossible date. */
  function Parse(fmt: seq<Directive>, s: string): (r: Option<DateTime>)
    ensures r.Some? ==> Valid(r.value) && |s| == FormatWidth(fmt)
  {
    match Scan(fmt, s, Default)
    case Some(d) => if Valid(d) then Some(d) else None
    case None => None
  }

  /** `d.strftime(fmt)` with zero-padded fields. */
  function Format(fmt: seq<Directive>, d: DateTime): string
    requires d.year >= 0 && d.month >= 0 && d.day >= 0 && d.hour >= 0 && d.minute >= 0 && d.second >= 0
  {
    if |fmt| == 0 then ""
    else
      var head := match fmt[0]
        case Lit(c) => [c]
        case _ => ZeroPad(Get(d, fmt[0]), Width(fmt[0]));
      head + Format(fmt[1..], d)
  }

  /** What parsing the formatted text sets: the fields the format mentions,
      copied from `d`, over `acc`. */
  function Project(fmt: seq<Directive>, d: DateTime, acc: DateTime): DateTime
  {
    if |fmt| == 0 then acc else Project(fmt[1..], d, Set(acc, fmt[0], Get(d, fmt[0])))
  }

  predicate FourDigitYear(d: DateTime)
  {
    Valid(d) && d.year <= 9999
  }

  lemma {:induction false} ScanFormat(fmt: seq<Directive>, d: DateTime, acc: DateTime)
    requires FourDigitYear(d)
    ensures Scan(fmt, Format(fmt, d), acc) == Some(Project(fmt, d, acc))
    decreases |fmt|
  {
    if |fmt| > 0 {
      var s := Format(fmt, d);
      var f := fmt[0];
      var w := Width(f);
      var rest := Format(fmt[1..], d);
      match f
      case Lit(c) =>
        assert s == [c] + rest;
        assert s[1..] == rest;
        ScanFormat(fmt[1..], d, acc);
      case _ =>
        var head := ZeroPad(Get(d, f), w);
        assert Get(d, f) < Pow10(w) by {
          assert Pow10(2) == 100;
          assert Pow10(4) == 10000;
        }
        assert |head| == w;
        assert s == head + rest;
        assert s[..w] == head && s[w..] == rest;
        ScanFormat(fmt[1..], d, Set(acc, f, Get(d, f)));
    }
  }

  /** Round trip: parsing what `strftime` printed gives back the date-time, for every
      four-digit-year date whose fields outside the format are the defaults. */
  lemma ParseFormat(fmt: seq<Directive>, d: DateTime)
    requires FourDigitYear(d) && Project(fmt, d, Default) == d
    ensures Parse(fmt, Format(fmt, d)) == Some(d)
  {
    ScanFormat(fmt, d, Default);
  }

  /** Each field of the projection comes from `d` when the format mentions it and
      from `acc` otherwise. */
  lemma {:induction false} ProjectFields(fmt: seq<Directive>, d: DateTime, acc: DateTime, f: Directive)
    requires !f.Lit?
    ensures Get(Project(fmt, d, acc), f) == if f in fmt then Get(d, f) else Get(acc, f)
    decreases |fmt|
  {
    if |fmt| > 0 {
      ProjectFields(fmt[1..], d, Set(acc, fmt[0], Get(d, fmt[0])), f);
      assert f in fmt <==> f == fmt[0] || f in fmt[1..];
    }
  }

  /** Two date-times that agree on the fields a format mentions print the same. */
  lemma {:induction false} FormatReadsOnlyItsFields(fmt: seq<Directive>, d: DateTime, e: DateTime)
    requires FourDigitYear(d) && FourDigitYear(e)
    requires forall f :: f in fmt ==> Get(d, f) == Get(e, f)
    ensures Format(fmt, d) == Format(fmt, e)
    decreases |fmt|
  {
    if |fmt| > 0 {
      FormatReadsOnlyItsFields(fmt[1..], d, e);
    }
  }

  /** The scan-time format mentions every field, so it round-trips every date-time. */
  lemma ScanTimeRoundTrip(d: DateTime)
    requires FourDigitYear(d)
    ensures Parse(ScanTimeFormat, Format(ScanTimeFormat, d)) == Some(d)
  {
    var p := Project(ScanTimeFormat, d, Default);
    ProjectFields(ScanTimeFormat, d, Default, Year4);
    ProjectFields(ScanTimeFormat, d, Default, Month2);
    ProjectFields(ScanTimeFormat, d, Default, Day2);
    ProjectFields(ScanTimeFormat, d, Default, Hour2);
    ProjectFields(ScanTimeFormat, d, Default, Minute2);
    ProjectFields(ScanTimeFormat, d, Default, Second2);
    assert p == d;
    ParseFormat(ScanTimeFormat, d);
  }

  /** The compact minute format drops only the seconds, so it round-trips every
      date-time that falls on a whole minute. */
  lemma CompactMinuteRoundTrip(d: DateTime)
    requires FourDigitYear(d) && d.second == 0
    ensures Parse(CompactMinuteFormat, Format(CompactMinuteFormat, d)) == Some(d)
  {
    ProjectFields(CompactMinuteFormat, d, Default, Year4);
    ProjectFields(CompactMinuteFormat, d, Default, Month2);
    ProjectFields(CompactMinuteFormat, d, Default, Day2);
    ProjectFields(CompactMinuteFormat, d, Default, Hour2);
    ProjectFields(CompactMinuteFormat, d, Default, Minute2);
    ProjectFields(CompactMinuteFormat, d, Default, Second2);
    assert Project(CompactMinuteFormat, d, Default) == d;
    ParseFormat(CompactMinuteFormat, d);
  }

  /** A format that prints the year, month and day but no clock field keeps the
      calendar day and reads back midnight. */
  lemma DayFormatRoundTrip(fmt: seq<Directive>, d: DateTime)
    requires FourDigitYear(d)
    requires Year4 in fmt && Month2 in fmt && Day2 in fmt
    requires Hour2 !in fmt && Minute2 !in fmt && Second2 !in fmt
    ensures Parse(fmt, Format(fmt, d)) == Some(Midnight(d))
  {
    var m := Midnight(d);
    ProjectFields(fmt, m, Default, Year4);
    ProjectFields(fmt, m, Default, Month2);
    ProjectFields(fmt, m, Default, Day2);
    ProjectFields(fmt, m, Default, Hour2);
    ProjectFields(fmt, m, Default, Minute2);
    ProjectFields(fmt, m, Default, Second2);
    assert Project(fmt, m, Default) == m;
    ParseFormat(fmt, m);
    forall f | f in fmt
      ensures Get(d, f) == Get(m, f)
    {
      assert !f.Hour2? && !f.Minute2? && !f.Second2?;
    }
    FormatReadsOnlyItsFields(fmt, d, m);
  }

  /** The date-only format keeps the calendar day and reads back midnight. */
  lemma DateRoundTrip(d: DateTime)
    requires FourDigitYear(d)
    ensures Parse(DateFormat, Format(DateFormat, d)) == Some(Midnight(d))
  {
    DayFormatRoundTrip(DateFormat, d);
  }

  /** A text of the wrong length never parses, whatever the format. */
  lemma ParseNeedsExactWidth(fmt: seq<Directive>, s: string)
    requires |s| != FormatWidth(fmt)
    ensures Parse(fmt, s) == None
  {
  }
}
