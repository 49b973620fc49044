/** The ASOS station table: a fixed-width text file whose first line names the
    columns, whose second line of dashes gives their widths, and whose other
    lines are stations; plus the queries over the parsed table. */
module AsosInfo {
  import opened Common
  import opened Calendar

  // ---------------------------------------------------------------------------
  // Column widths

  /** The leading run of non-whitespace characters. */
  function Run(s: string): (w: string)
    ensures w <= s
    ensures forall i :: 0 <= i < |w| ==> !IsSpace(w[i])
    ensures |w| < |s| ==> IsSpace(s[|w|])
  {
    if |s| == 0 || IsSpace(s[0]) then "" else [s[0]] + Run(s[1..])
  }

  /** `s.split()`: the maximal runs of non-whitespace characters, in order. */
  function Words(s: string): (ws: seq<string>)
    ensures forall i :: 0 <= i < |ws| ==> |ws[i]| > 0 && forall j :: 0 <= j < |ws[i]| ==> !IsSpace(ws[i][j])
    decreases |s|
  {
    if |s| == 0 then []
    else if IsSpace(s[0]) then Words(s[1..])
    else
      var w := Run(s);
      [w] + Words(s[|w|..])
  }

  /** The characters of `s` that are not whitespace. */
  function Ink(s: string): (r: string)
  {
    if |s| == 0 then "" else (if IsSpace(s[0]) then "" else [s[0]]) + Ink(s[1..])
  }

  lemma {:induction false} InkAppend(a: string, b: string)
    ensures Ink(a + b) == Ink(a) + Ink(b)
    decreases |a|
  {
    if |a| > 0 {
      assert (a + b)[0] == a[0];
      assert (a + b)[1..] == a[1..] + b;
      InkAppend(a[1..], b);
      var head := if IsSpace(a[0]) then "" else [a[0]];
      assert Ink(a + b) == head + Ink(a[1..] + b);
      assert Ink(a) == head + Ink(a[1..]);
      assert head + (Ink(a[1..]) + Ink(b)) == (head + Ink(a[1..])) + Ink(b);
    } else {
      assert a + b == b;
    }
  }

  lemma {:induction false} InkOfRun(s: string)
    ensures Ink(Run(s)) == Run(s)
    decreases |s|
  {
    if |s| > 0 && !IsSpace(s[0]) {
      InkOfRun(s[1..]);
      assert Run(s) == [s[0]] + Run(s[1..]);
      InkAppend([s[0]], Run(s[1..]));
    }
  }

  /** Splitting drops exactly the whitespace: the words put back together are
      the non-whitespace characters of the line, in order. */
  lemma {:induction false} WordsKeepInk(s: string)
    ensures Flatten(Words(s)) == Ink(s)
    decreases |s|
  {
    if |s| > 0 {
      if IsSpace(s[0]) {
        WordsKeepInk(s[1..]);
      } else {
        var w := Run(s);
        WordsKeepInk(s[|w|..]);
        assert s == w + s[|w|..];
        InkAppend(w, s[|w|..]);
        InkOfRun(s);
        assert Words(s) == [w] + Words(s[|w|..]);
      }
    }
  }

  /** Only whitespace. */
  predicate Blank(s: string)
  {
    forall i :: 0 <= i < |s| ==> IsSpace(s[i])
  }

  /** A possible word: non-empty, without whitespace. */
  predicate Solid(w: string)
  {
    |w| > 0 && forall i :: 0 <= i < |w| ==> !IsSpace(w[i])
  }

  lemma {:induction false} WordsSkipBlank(sp: string, t: string)
    requires Blank(sp)
    ensures Words(sp + t) == Words(t)
    decreases |sp|
  {
    if |sp| > 0 {
      assert (sp + t)[1..] == sp[1..] + t;
      WordsSkipBlank(sp[1..], t);
    } else {
      assert sp + t == t;
    }
  }

  lemma {:induction false} RunOfWord(w: string, t: string)
    requires forall i :: 0 <= i < |w| ==> !IsSpace(w[i])
    requires |t| == 0 || IsSpace(t[0])
    ensures Run(w + t) == w
    decreases |w|
  {
    if |w| > 0 {
      assert (w + t)[1..] == w[1..] + t;
      RunOfWord(w[1..], t);
      assert w == [w[0]] + w[1..];
    } else {
      assert w + t == t;
    }
  }

  /** A word followed by whitespace or the end is split off whole. */
  lemma WordsCons(w: string, t: string)
    requires Solid(w)
    requires |t| == 0 || IsSpace(t[0])
    ensures Words(w + t) == [w] + Words(t)
  {
    RunOfWord(w, t);
    assert (w + t)[|w|..] == t;
  }

  /** Words joined by whitespace, with whitespace after, split back into those
      words. */
  lemma {:induction false} WordsOfJoinTrail(ws: seq<string>, sep: string, trail: string)
    requires forall i :: 0 <= i < |ws| ==> Solid(ws[i])
    requires |sep| > 0 && Blank(sep) && Blank(trail)
    ensures Words(Join(ws, sep) + trail) == ws
    decreases |ws|
  {
    WordsSkipBlank(trail, "");
    assert trail + "" == trail;
    if |ws| == 0 {
      assert Join(ws, sep) + trail == trail;
    } else if |ws| == 1 {
      WordsCons(ws[0], trail);
    } else if |ws| > 1 {
      var rest := Join(ws[1..], sep) + trail;
      JoinStep(ws, sep, trail);
      WordThenBlank(ws[0], sep, rest);
      WordsOfJoinTrail(ws[1..], sep, trail);
      calc {
        Words(Join(ws, sep) + trail);
        Words(ws[0] + (sep + rest));
        [ws[0]] + Words(rest);
        [ws[0]] + ws[1..];
        ws;
      }
    }
  }

  lemma JoinStep(ws: seq<string>, sep: string, trail: string)
    requires |ws| > 1
    ensures Join(ws, sep) + trail == ws[0] + (sep + (Join(ws[1..], sep) + trail))
  {
  }

  /** A word, then non-empty whitespace: the word is split off and the whitespace
      dropped. */
  lemma WordThenBlank(w: string, sp: string, rest: string)
    requires Solid(w) && |sp| > 0 && Blank(sp)
    ensures Words(w + (sp + rest)) == [w] + Words(rest)
  {
    assert (sp + rest)[0] == sp[0];
    WordsCons(w, sp + rest);
    WordsSkipBlank(sp, rest);
  }

  /** Splitting a line of words joined by whitespace, with whitespace before and
      after, gives back exactly the words: each word is one maximal run. */
  lemma WordsOfJoin(ws: seq<string>, sep: string, pad: string, trail: string)
    requires forall i :: 0 <= i < |ws| ==> Solid(ws[i])
    requires |sep| > 0 && Blank(sep) && Blank(pad) && Blank(trail)
    ensures Words(pad + Join(ws, sep) + trail) == ws
  {
    assert pad + Join(ws, sep) + trail == pad + (Join(ws, sep) + trail);
    WordsSkipBlank(pad, Join(ws, sep) + trail);
    WordsOfJoinTrail(ws, sep, trail);
  }

  /** The column widths: the lengths of the runs of dashes on the separator
      line. */
  function Widths(separator: string): (ws: seq<nat>)
    ensures |ws| == |Words(separator)|
    ensures forall i :: 0 <= i < |ws| ==> ws[i] == |Words(separator)[i]| && ws[i] >= 1
  {
    var words := Words(separator);
    seq(|words|, i requires 0 <= i < |words| => |words[i]|)
  }

  /** A separator line of runs of dashes (or any non-space marks) between
      whitespace gives one column per run, as wide as the run. */
  lemma WidthsOfRule(runs: seq<string>, sep: string, pad: string, trail: string)
    requires forall i :: 0 <= i < |runs| ==> Solid(runs[i])
    requires |sep| > 0 && Blank(sep) && Blank(pad) && Blank(trail)
    ensures Widths(pad + Join(runs, sep) + trail) == seq(|runs|, i requires 0 <= i < |runs| => |runs[i]|)
  {
    WordsOfJoin(runs, sep, pad, trail);
  }

  // ---------------------------------------------------------------------------
  // Fields

  /** A parsed cell: a date, a whole number, a number with a fraction or
      exponent (kept as its literal), or text. */
  datatype Field = Date(date: DateTime) | Int(n: nat) | Float(literal: string) | Text(s: string)

  /** The name of the column that holds station begin dates. */
  const DateKey := "BEGDT"

  function Lower(c: char): char
  {
    if 'A' <= c <= 'Z' then (c as int + 32) as char else c
  }

  /** An exponent part after `e`: an optional sign, then one or more digits. */
  predicate IsExponent(t: string)
  {
    var u := if |t| > 0 && (t[0] == '+' || t[0] == '-') then t[1..] else t;
    |u| > 0 && AllDigits(u)
  }

  /** A mantissa: digits with at most one decimal point, and at least one
      digit. */
  predicate IsMantissa(m: string)
  {
    && (forall i :: 0 <= i < |m| ==> IsDigit(m[i]) || m[i] == '.')
    && multiset(m)['.'] <= 1
    && exists i :: 0 <= i < |m| && IsDigit(m[i])
  }

  /** Index of the first `e` or `E`, or the length when there is none. */
  function ExponentMark(t: string): (k: nat)
    ensures k <= |t|
    ensures forall i :: 0 <= i < k ==> Lower(t[i]) != 'e'
    ensures k < |t| ==> Lower(t[k]) == 'e'
  {
    if |t| == 0 || Lower(t[0]) == 'e' then 0 else 1 + ExponentMark(t[1..])
  }

  /** Text that `float` accepts: an optional sign, then a decimal number with an
      optional exponent, or `inf`, `infinity` or `nan` in any case. Digit
      separators `_` are not modelled. */
  predicate IsFloatLiteral(s: string)
  {
    var t := if |s| > 0 && (s[0] == '+' || s[0] == '-') then s[1..] else s;
    var k := ExponentMark(t);
    var lower := seq(|t|, i requires 0 <= i < |t| => Lower(t[i]));
    || (IsMantissa(t[..k]) && (k == |t| || IsExponent(t[k + 1..])))
    || lower == "inf" || lower == "infinity" || lower == "nan"
  }

  /** `strptime` with `%Y%m%d`. */
  function ReadDate(info: string): (d: Option<DateTime>)
    ensures d.Some? ==> Valid(d.value) && |info| == 8
  {
    Parse(DateFormat, info)
  }

  /** The conversion of one stripped cell: a cell of a date column becomes a
      date or fails with `ValueError`; the header text itself is left alone. */
  function Convert(info: string, dateColumn: bool): (r: Result<Field>)
    ensures r.Err? <==> dateColumn && info != DateKey && ReadDate(info).None?
    ensures r.Err? ==> r.error == ValueError
  {
    if dateColumn && info != DateKey then
      match ReadDate(info)
      case None => Err(ValueError)
      case Some(d) => Ok(Date(d))
    else if |info| > 0 && AllDigits(info) then Ok(Int(DigitsValue(info)))
    else if IsFloatLiteral(info) then Ok(Float(info))
    else Ok(Text(info))
  }

  /** What each kind of field means: a date only from a date column; digits
      give a whole number of that value; text is kept only when it is neither
      digits nor a float literal. */
  lemma ConvertMeaning(info: string, dateColumn: bool)
    ensures var r := Convert(info, dateColumn);
      && (r.Ok? && r.value.Date? ==> dateColumn && Valid(r.value.date) && |info| == 8)
      && (r.Ok? && r.value.Int? ==> |info| > 0 && AllDigits(info) && r.value.n == DigitsValue(info))
      && (r.Ok? && r.value.Float? ==> r.value.literal == info && IsFloatLiteral(info) && !(|info| > 0 && AllDigits(info)))
      && (r.Ok? && r.value.Text? ==> r.value.s == info && !(|info| > 0 && AllDigits(info)) && !IsFloatLiteral(info))
      && (!dateColumn || info == DateKey ==> r.Ok? && !r.value.Date?)
  {
  }

  /** Digits become a whole number, leading zeros and all. */
  lemma ConvertDigits()
    ensures Convert("0042", false) == Ok(Int(42))
  {
    assert AllDigits("0042");
    assert "0042"[..3] == "004" && "004"[..2] == "00" && "00"[..1] == "0" && "0"[..0] == "";
    assert DigitsValue("0042") == 42;
  }

  /** A signed decimal is a float. */
  lemma ConvertSignedDecimal()
    ensures Convert("-97.5", false) == Ok(Float("-97.5"))
  {
    var m := "-97.5"[1..];
    assert m == "97.5" && ExponentMark(m) == 4 && m[..4] == m;
    assert multiset(m)['.'] == 1;
    assert IsDigit(m[0]);
    assert IsFloatLiteral("-97.5");
    assert !AllDigits("-97.5") by { assert !IsDigit("-97.5"[0]); }
  }

  /** An exponent makes a float too. */
  lemma ConvertExponent()
    ensures Convert("1e5", false) == Ok(Float("1e5"))
  {
    var e := "1e5";
    assert ExponentMark(e) == 1 && e[..1] == "1" && e[2..] == "5";
    assert multiset("1")['.'] == 0;
    assert IsDigit("1"[0]);
    assert IsExponent("5");
    assert !AllDigits(e) by { assert !IsDigit(e[1]); }
  }

  /** A station identifier stays text. */
  lemma ConvertIdentifier()
    ensures Convert("KDEN", false) == Ok(Text("KDEN"))
  {
    var k := "KDEN";
    assert !AllDigits(k) by { assert !IsDigit(k[0]); }
    assert k[1..] == "DEN" && "DEN"[1..] == "EN";
    assert ExponentMark("EN") == 0;
    assert ExponentMark(k) == 2;
    assert !IsMantissa(k[..2]) by { assert !IsDigit(k[0]) && k[0] != '.'; }
    var lk := seq(|k|, i requires 0 <= i < |k| => Lower(k[i]));
    assert lk[0] == 'k';
    assert !IsFloatLiteral(k);
  }

  // ---------------------------------------------------------------------------
  // Lines

  /** Where column `i` starts: after the earlier columns and one separating
      character after each. */
  function Start(widths: seq<nat>, i: nat): (n: nat)
    requires i <= |widths|
    ensures i > 0 ==> n >= i
  {
    if i == 0 then 0 else Start(widths, i - 1) + widths[i - 1] + 1
  }

  /** The stripped text of the cell `width` characters wide at `offset`. */
  function Cell(line: string, offset: nat, width: nat): string
  {
    Strip(PySlice(line, offset, offset + width))
  }

  /** Whitespace strips to nothing. */
  lemma BlankStrips(s: string)
    requires forall i :: 0 <= i < |s| ==> IsSpace(s[i])
    ensures Strip(s) == ""
  {
    var r := RStrip(s);
    assert |r| > 0 ==> IsSpace(r[|r| - 1]) by {
      if |r| > 0 {
        assert r[|r| - 1] == s[|r| - 1];
      }
    }
  }

  /** Whether column `i` is the date column, or `IndexError` when there are
      fewer keys than columns. Before the keys are known no column is one. */
  function IsDateColumn(keys: Option<seq<Field>>, i: nat): Result<bool>
  {
    match keys
    case None => Ok(false)
    case Some(ks) => if i < |ks| then Ok(ks[i] == Text(DateKey)) else Err(IndexError)
  }

  /** Column `i` of a line: its cell, converted with the date rule when the
      keys name it the date column. */
  function ColumnField(line: string, keys: Option<seq<Field>>, i: nat, offset: nat, width: nat): Result<Field>
  {
    match IsDateColumn(keys, i)
    case Err(e) => Err(e)
    case Ok(isDate) => Convert(Cell(line, offset, width), isDate)
  }

  /** The line parser's loop from column `i` on, with the running offset;
      `field(k, offset, width)` gives column `k`. */
  function Columns(widths: seq<nat>, field: (nat, nat, nat) -> Result<Field>, i: nat, offset: nat): (r: Result<seq<Field>>)
    requires i <= |widths|
    ensures r.Ok? ==> |r.value| == |widths| - i
    decreases |widths| - i
  {
    if i == |widths| then Ok([])
    else match field(i, offset, widths[i])
      case Err(e) => Err(e)
      case Ok(f) =>
        match Columns(widths, field, i + 1, offset + widths[i] + 1)
        case Err(e) => Err(e)
        case Ok(fs) => Ok([f] + fs)
  }

  /** The columns of `line` read against `keys`. */
  function Fields(line: string, keys: Option<seq<Field>>): (nat, nat, nat) -> Result<Field>
  {
    (k: nat, offset: nat, width: nat) => ColumnField(line, keys, k, offset, width)
  }

  /** The fields of one line, one per column. */
  function ParseLine(line: string, widths: seq<nat>, keys: Option<seq<Field>>): (r: Result<seq<Field>>)
    ensures r.Ok? ==> |r.value| == |widths|
  {
    Columns(widths, Fields(line, keys), 0, 0)
  }

  /** The running offset of the loop is the closed-form start of each column,
      and each field is that column's value. */
  lemma {:induction false} ColumnsSpec(widths: seq<nat>, field: (nat, nat, nat) -> Result<Field>, i: nat)
    requires i <= |widths|
    requires Columns(widths, field, i, Start(widths, i)).Ok?
    ensures var fs := Columns(widths, field, i, Start(widths, i)).value;
      forall k :: i <= k < |widths| ==> field(k, Start(widths, k), widths[k]) == Ok(fs[k - i])
    decreases |widths| - i
  {
    if i < |widths| {
      var o := Start(widths, i);
      assert Start(widths, i + 1) == o + widths[i] + 1;
      var fs := Columns(widths, field, i, o).value;
      var head := field(i, o, widths[i]);
      var rest := Columns(widths, field, i + 1, o + widths[i] + 1);
      assert head.Ok? && rest.Ok? && fs == [head.value] + rest.value;
      ColumnsSpec(widths, field, i + 1);
      forall k | i <= k < |widths| ensures field(k, Start(widths, k), widths[k]) == Ok(fs[k - i]) {
        if k > i {
          assert fs[k - i] == rest.value[k - (i + 1)];
        }
      }
    }
  }

  /** A line fails exactly when one of its columns fails. */
  lemma {:induction false} ColumnsFail(widths: seq<nat>, field: (nat, nat, nat) -> Result<Field>, i: nat)
    requires i <= |widths|
    ensures Columns(widths, field, i, Start(widths, i)).Err? <==>
              exists k :: i <= k < |widths| && field(k, Start(widths, k), widths[k]).Err?
    decreases |widths| - i
  {
    if i < |widths| {
      assert Start(widths, i + 1) == Start(widths, i) + widths[i] + 1;
      ColumnsFail(widths, field, i + 1);
    }
  }

  /** The loop fails only with an error some column gives. */
  lemma {:induction false} ColumnsError(widths: seq<nat>, field: (nat, nat, nat) -> Result<Field>, i: nat, offset: nat, e: Error)
    requires i <= |widths|
    requires forall k: nat, o: nat, w: nat :: k < |widths| && field(k, o, w).Err? ==> field(k, o, w).error == e
    ensures Columns(widths, field, i, offset).Err? ==> Columns(widths, field, i, offset).error == e
    decreases |widths| - i
  {
    if i < |widths| {
      ColumnsError(widths, field, i + 1, offset + widths[i] + 1, e);
    }
  }

  /** The loop succeeds when no column can fail. */
  lemma {:induction false} ColumnsSucceed(widths: seq<nat>, field: (nat, nat, nat) -> Result<Field>, i: nat, offset: nat)
    requires i <= |widths|
    requires forall k: nat, o: nat, w: nat :: k < |widths| ==> field(k, o, w).Ok?
    ensures Columns(widths, field, i, offset).Ok?
    decreases |widths| - i
  {
    if i < |widths| {
      ColumnsSucceed(widths, field, i + 1, offset + widths[i] + 1);
    }
  }

  /** A column that starts past the end of the line reads as empty text, or
      fails with `ValueError` when it is the date column. */
  lemma ShortLineCell(line: string, keys: Option<seq<Field>>, k: nat, offset: nat, width: nat)
    requires offset >= |line| && IsDateColumn(keys, k).Ok?
    ensures ColumnField(line, keys, k, offset, width) ==
              if IsDateColumn(keys, k).value then Err(ValueError) else Ok(Text(""))
  {
    assert Cell(line, offset, width) == "" by {
      BlankStrips("");
    }
    assert ExponentMark("") == 0;
    assert !IsFloatLiteral("");
  }

  /** With as many keys as columns, a station line can fail only on a date, and
      then with `ValueError`. */
  lemma StationLineErrors(line: string, widths: seq<nat>, keys: seq<Field>)
    requires |keys| == |widths|
    ensures ParseLine(line, widths, Some(keys)).Err? ==> ParseLine(line, widths, Some(keys)).error == ValueError
  {
    var field := Fields(line, Some(keys));
    forall k: nat, o: nat, w: nat | k < |widths| && field(k, o, w).Err? ensures field(k, o, w).error == ValueError {
      assert IsDateColumn(Some(keys), k).Ok?;
    }
    ColumnsError(widths, field, 0, 0, ValueError);
  }

  /** The column names: the header line's fields. Without keys no column is a
      date column, so a header always parses. */
  function HeaderKeys(header: string, widths: seq<nat>): (keys: seq<Field>)
    ensures |keys| == |widths|
    ensures ParseLine(header, widths, None) == Ok(keys)
  {
    var field := Fields(header, None);
    assert forall k: nat, o: nat, w: nat :: k < |widths| ==> field(k, o, w).Ok?;
    ColumnsSucceed(widths, field, 0, 0);
    ParseLine(header, widths, None).value
  }

  // ---------------------------------------------------------------------------
  // Records

  /** `dict(zip(keys, values))`: pairs up to the shorter list, a later duplicate
      key overwriting an earlier one. */
  function Record(keys: seq<Field>, values: seq<Field>): (r: map<Field, Field>)
    ensures r.Keys == set i | 0 <= i < |keys| && i < |values| :: keys[i]
    decreases |keys|
  {
    var n := if |keys| < |values| then |keys| else |values|;
    if n == 0 then map[]
    else Record(keys[..n - 1], values[..n - 1])[keys[n - 1] := values[n - 1]]
  }

  /** Each key maps to the value at its last position. */
  lemma {:induction false} RecordLastWins(keys: seq<Field>, values: seq<Field>, i: nat)
    requires i < |keys| && i < |values|
    requires forall j :: i < j < |keys| && j < |values| ==> keys[j] != keys[i]
    ensures Record(keys, values)[keys[i]] == values[i]
    decreases |keys|
  {
    var n := if |keys| < |values| then |keys| else |values|;
    if i < n - 1 {
      var ks := keys[..n - 1];
      var vs := values[..n - 1];
      assert ks[i] == keys[i];
      RecordLastWins(ks, vs, i);
    }
  }

  /** The parsed file: the column names and one record per station line. */
  datatype Table = Table(keys: seq<Field>, rows: seq<map<Field, Field>>)

  /** The records of `lines`, each parsed against the column names; the first
      line that fails stops the parse. */
  function Rows(lines: seq<string>, widths: seq<nat>, keys: seq<Field>): (r: Result<seq<map<Field, Field>>>)
    ensures r.Ok? ==> |r.value| == |lines|
    ensures r.Err? <==> exists i :: 0 <= i < |lines| && ParseLine(lines[i], widths, Some(keys)).Err?
  {
    if |lines| == 0 then Ok([])
    else match ParseLine(lines[0], widths, Some(keys))
      case Err(e) => Err(e)
      case Ok(fields) =>
        match Rows(lines[1..], widths, keys)
        case Err(e) =>
          var i :| 0 <= i < |lines[1..]| && ParseLine(lines[1..][i], widths, Some(keys)).Err?;
          assert lines[i + 1] == lines[1..][i];
          Err(e)
        case Ok(rows) =>
          assert forall i :: 1 <= i < |lines| ==> lines[i] == lines[1..][i - 1];
          Ok([Record(keys, fields)] + rows)
  }

  /** Each record pairs the column names with that line's fields. */
  lemma {:induction false} RowsAt(lines: seq<string>, widths: seq<nat>, keys: seq<Field>, i: nat)
    requires Rows(lines, widths, keys).Ok? && i < |lines|
    ensures ParseLine(lines[i], widths, Some(keys)).Ok?
    ensures Rows(lines, widths, keys).value[i] == Record(keys, ParseLine(lines[i], widths, Some(keys)).value)
    decreases |lines|
  {
    RowsCons(lines, widths, keys);
    if i > 0 {
      RowsAt(lines[1..], widths, keys, i - 1);
      assert lines[1..][i - 1] == lines[i];
    }
  }

  /** A parsed table is its first record followed by the rest. */
  lemma RowsCons(lines: seq<string>, widths: seq<nat>, keys: seq<Field>)
    requires |lines| > 0 && Rows(lines, widths, keys).Ok?
    ensures ParseLine(lines[0], widths, Some(keys)).Ok? && Rows(lines[1..], widths, keys).Ok?
    ensures Rows(lines, widths, keys).value
            == [Record(keys, ParseLine(lines[0], widths, Some(keys)).value)] + Rows(lines[1..], widths, keys).value
  {
  }

  /** Line `i` of the file, or the empty text past its end. */
  function Line(file: seq<string>, i: nat): string
  {
    if i < |file| then file[i] else ""
  }

  /** The station lines: everything after the header and the separator. */
  function StationLines(file: seq<string>): (lines: seq<string>)
    ensures |file| >= 2 ==> lines == file[2..]
    ensures |file| < 2 ==> lines == []
  {
    if |file| < 2 then [] else file[2..]
  }

  /** The whole file: the first line names the columns, the second gives their
      widths, the rest are stations, one record each. */
  function ParseFile(file: seq<string>): (r: Result<Table>)
    ensures r.Ok? ==> r.value.keys == HeaderKeys(Line(file, 0), Widths(Line(file, 1)))
    ensures r.Ok? ==> |r.value.rows| == |StationLines(file)|
  {
    var widths := Widths(Line(file, 1));
    var keys := HeaderKeys(Line(file, 0), widths);
    match Rows(StationLines(file), widths, keys)
    case Err(e) => Err(e)
    case Ok(rows) => Ok(Table(keys, rows))
  }

  /** Parsing fails only on a bad begin date. */
  lemma ParseFileErrors(file: seq<string>)
    ensures ParseFile(file).Err? ==> ParseFile(file).error == ValueError
  {
    var widths := Widths(Line(file, 1));
    var keys := HeaderKeys(Line(file, 0), widths);
    var lines := StationLines(file);
    if Rows(lines, widths, keys).Err? {
      var i :| 0 <= i < |lines| && ParseLine(lines[i], widths, Some(keys)).Err?;
      StationLineErrors(lines[i], widths, keys);
      RowsFirstError(lines, widths, keys);
    }
  }

  /** The error of the rows is that of the first line that fails. */
  lemma {:induction false} RowsFirstError(lines: seq<string>, widths: seq<nat>, keys: seq<Field>)
    requires |keys| == |widths|
    ensures Rows(lines, widths, keys).Err? ==> Rows(lines, widths, keys).error == ValueError
    decreases |lines|
  {
    if |lines| > 0 {
      StationLineErrors(lines[0], widths, keys);
      RowsFirstError(lines[1..], widths, keys);
    }
  }

  /** A blank station line fails in the date column: its cell is empty. */
  lemma BlankLineFails(line: string, widths: seq<nat>, keys: seq<Field>, k: nat)
    requires forall i :: 0 <= i < |line| ==> IsSpace(line[i])
    requires k < |widths| && k < |keys| && keys[k] == Text(DateKey)
    ensures ParseLine(line, widths, Some(keys)).Err?
  {
    var field := Fields(line, Some(keys));
    assert field(k, Start(widths, k), widths[k]) == Err(ValueError) by {
      BlankStrips(PySlice(line, Start(widths, k), Start(widths, k) + widths[k]));
    }
    ColumnsFail(widths, field, 0);
  }

  /** So one blank line among the stations of a file with a date column makes
      the whole parse fail. */
  lemma BlankLineFailsFile(file: seq<string>, j: nat, k: nat)
    requires 2 <= j < |file| && forall i :: 0 <= i < |file[j]| ==> IsSpace(file[j][i])
    ensures k < |Widths(file[1])| && HeaderKeys(file[0], Widths(file[1]))[k] == Text(DateKey) ==>
              ParseFile(file).Err?
  {
    if k < |Widths(file[1])| && HeaderKeys(file[0], Widths(file[1]))[k] == Text(DateKey) {
      assert Line(file, 0) == file[0] && Line(file, 1) == file[1];
      var widths := Widths(file[1]);
      var keys := HeaderKeys(file[0], widths);
      var lines := StationLines(file);
      BlankLineFails(file[j], widths, keys, k);
      assert lines[j - 2] == file[j];
      assert Rows(lines, widths, keys).Err?;
      ParseFileFailsWithRows(file);
    }
  }

  /** The file fails as soon as its station lines fail. */
  lemma ParseFileFailsWithRows(file: seq<string>)
    ensures var widths := Widths(Line(file, 1));
            Rows(StationLines(file), widths, HeaderKeys(Line(file, 0), widths)).Err? ==> ParseFile(file).Err?
  {
  }

  // ---------------------------------------------------------------------------
  // Ordering text

  /** Python's ordering of text: by code point, a proper prefix first. */
  predicate Less(a: string, b: string)
    decreases |a|
  {
    if |a| == 0 then |b| > 0
    else if |b| == 0 then false
    else if a[0] == b[0] then Less(a[1..], b[1..])
    else a[0] < b[0]
  }

  lemma {:induction false} LessIrreflexive(a: string)
    ensures !Less(a, a)
    decreases |a|
  {
    if |a| > 0 {
      LessIrreflexive(a[1..]);
    }
  }

  lemma {:induction false} LessTotal(a: string, b: string)
    requires a != b
    ensures Less(a, b) || Less(b, a)
    decreases |a|
  {
    if |a| > 0 && |b| > 0 && a[0] == b[0] {
      assert a == [a[0]] + a[1..] && b == [b[0]] + b[1..];
      LessTotal(a[1..], b[1..]);
    }
  }

  lemma {:induction false} LessTransitive(a: string, b: string, c: string)
    requires Less(a, b) && Less(b, c)
    ensures Less(a, c)
    decreases |a|
  {
    if |a| > 0 && a[0] == b[0] && b[0] == c[0] {
      LessTransitive(a[1..], b[1..], c[1..]);
    }
  }

  /** Strictly increasing, hence free of duplicates. */
  predicate Increasing(s: seq<string>)
  {
    forall i, j :: 0 <= i < j < |s| ==> Less(s[i], s[j])
  }

  /** Put `x` into its place in an increasing list, unless it is already there. */
  function Insert(x: string, s: seq<string>): (r: seq<string>)
    requires Increasing(s)
    ensures Increasing(r)
    ensures forall y :: y in r <==> y in s || y == x
    decreases |s|
  {
    if |s| == 0 then [x]
    else if x == s[0] then s
    else if Less(x, s[0]) then
      assert forall j :: 0 <= j < |s| ==> Less(x, s[j]) by {
        forall j | 0 < j < |s| ensures Less(x, s[j]) {
          LessTransitive(x, s[0], s[j]);
        }
      }
      [x] + s
    else
      var rest := Insert(x, s[1..]);
      LessTotal(x, s[0]);
      assert forall y :: y in rest ==> Less(s[0], y) by {
        forall y | y in rest ensures Less(s[0], y) {
          if y != x {
            var j :| 0 <= j < |s[1..]| && s[1..][j] == y;
            assert s[j + 1] == y;
          }
        }
      }
      [s[0]] + rest
  }

  /** `sorted(set(values))`. */
  function SortedUnique(values: seq<string>): (r: seq<string>)
    ensures Increasing(r)
    ensures forall y :: y in r <==> y in values
  {
    if |values| == 0 then []
    else
      var last := values[|values| - 1];
      var r := Insert(last, SortedUnique(values[..|values| - 1]));
      assert forall y :: y in values <==> y in values[..|values| - 1] || y == last by {
        assert values == values[..|values| - 1] + [last];
      }
      r
  }

  /** The head of an increasing list is below every other element. */
  lemma HeadIsLeast(s: seq<string>, y: string)
    requires Increasing(s) && |s| > 0 && y in s
    ensures y == s[0] || Less(s[0], y)
  {
  }

  /** An increasing list holding a given set of values is that set's unique
      ordering. */
  lemma {:induction false} IncreasingUnique(a: seq<string>, b: seq<string>)
    requires Increasing(a) && Increasing(b)
    requires forall y :: y in a <==> y in b
    ensures a == b
    decreases |a|
  {
    if |a| > 0 {
      assert a[0] in b;
    }
    if |b| > 0 {
      assert b[0] in a;
    }
    if |a| > 0 && |b| > 0 {
      HeadIsLeast(a, b[0]);
      HeadIsLeast(b, a[0]);
      if a[0] != b[0] {
        LessTransitive(a[0], b[0], a[0]);
        LessIrreflexive(a[0]);
        assert false;
      } else {
        forall y ensures y in a[1..] <==> y in b[1..] {
          if y in a[1..] {
            var j :| 0 <= j < |a[1..]| && a[1..][j] == y;
            assert Less(a[0], a[j + 1]);
            LessIrreflexive(a[0]);
            assert y in b;
            var m :| 0 <= m < |b| && b[m] == y;
            assert m != 0;
            assert y == b[1..][m - 1];
          }
          if y in b[1..] {
            var j :| 0 <= j < |b[1..]| && b[1..][j] == y;
            assert Less(b[0], b[j + 1]);
            LessIrreflexive(b[0]);
            assert y in a;
            var m :| 0 <= m < |a| && a[m] == y;
            assert m != 0;
            assert y == a[1..][m - 1];
          }
        }
        IncreasingUnique(a[1..], b[1..]);
        assert a == [a[0]] + a[1..] && b == [b[0]] + b[1..];
      }
    }
  }

  /** The order in which stations are listed does not change the result. */
  lemma SortedUniqueIgnoresOrder(a: seq<string>, b: seq<string>)
    requires multiset(a) == multiset(b)
    ensures SortedUnique(a) == SortedUnique(b)
  {
    assert forall y :: y in a <==> y in multiset(a);
    assert forall y :: y in b <==> y in multiset(b);
    IncreasingUnique(SortedUnique(a), SortedUnique(b));
  }

  // ---------------------------------------------------------------------------
  // Queries

  /** The value of `key` in every record, or `KeyError` when some record lacks
      it. */
  function Column(rows: seq<map<Field, Field>>, key: Field): (r: Result<seq<Field>>)
    ensures r.Err? <==> exists i :: 0 <= i < |rows| && key !in rows[i]
    ensures r.Err? ==> r.error == KeyError
    ensures r.Ok? ==> |r.value| == |rows| && forall i :: 0 <= i < |rows| ==> r.value[i] == rows[i][key]
  {
    if exists i :: 0 <= i < |rows| && key !in rows[i] then Err(KeyError)
    else Ok(seq(|rows|, i requires 0 <= i < |rows| => rows[i][key]))
  }

  /** The distinct values of a text column in increasing order; `KeyError` when
      a record lacks the column, `TypeError` when a value is not text. */
  function Distinct(rows: seq<map<Field, Field>>, key: Field): (r: Result<seq<string>>)
    ensures r.Err? <==> (exists i :: 0 <= i < |rows| && key !in rows[i])
                        || (exists i :: 0 <= i < |rows| && key in rows[i] && !rows[i][key].Text?)
    ensures r.Ok? ==> Increasing(r.value)
    ensures r.Ok? ==> forall y :: y in r.value <==> exists i :: 0 <= i < |rows| && rows[i][key] == Text(y)
  {
    match Column(rows, key)
    case Err(e) => Err(e)
    case Ok(values) =>
      if exists i :: 0 <= i < |values| && !values[i].Text? then Err(TypeError)
      else
        var texts := seq(|values|, i requires 0 <= i < |values| => values[i].s);
        var r := SortedUnique(texts);
        forall y ensures y in texts <==> exists i :: 0 <= i < |rows| && rows[i][key] == Text(y) {
          if y in texts {
            var i :| 0 <= i < |texts| && texts[i] == y;
            assert rows[i][key] == Text(y);
          }
          if exists i :: 0 <= i < |rows| && rows[i][key] == Text(y) {
            var i :| 0 <= i < |rows| && rows[i][key] == Text(y);
            assert texts[i] == y;
          }
        }
        Ok(r)
  }

  /** The countries of all stations. */
  function Countries(t: Table): (r: Result<seq<string>>)
    ensures r.Err? <==> exists i :: 0 <= i < |t.rows| && (Text("COUNTRY") !in t.rows[i] || !t.rows[i][Text("COUNTRY")].Text?)
    ensures r.Ok? ==> Increasing(r.value)
    ensures r.Ok? ==> forall y :: y in r.value <==> exists i :: 0 <= i < |t.rows| && t.rows[i][Text("COUNTRY")] == Text(y)
  {
    Distinct(t.rows, Text("COUNTRY"))
  }

  /** The states of all stations. */
  function States(t: Table): (r: Result<seq<string>>)
    ensures r.Err? <==> exists i :: 0 <= i < |t.rows| && (Text("ST") !in t.rows[i] || !t.rows[i][Text("ST")].Text?)
    ensures r.Ok? ==> Increasing(r.value)
    ensures r.Ok? ==> forall y :: y in r.value <==> exists i :: 0 <= i < |t.rows| && t.rows[i][Text("ST")] == Text(y)
  {
    Distinct(t.rows, Text("ST"))
  }

  /** ASCII upper case. */
  function Upper(s: string): (r: string)
    ensures |r| == |s|
  {
    seq(|s|, i requires 0 <= i < |s| => if 'a' <= s[i] <= 'z' then (s[i] as int - 32) as char else s[i])
  }

  /** The records whose state is `code`. */
  function InState(rows: seq<map<Field, Field>>, code: string): (r: seq<map<Field, Field>>)
    requires forall i :: 0 <= i < |rows| ==> Text("ST") in rows[i]
  {
    if |rows| == 0 then []
    else (if rows[0][Text("ST")] == Text(code) then [rows[0]] else []) + InState(rows[1..], code)
  }

  /** Reference filter: the indices below `n` of the records whose state is
      `code`, in ascending order. */
  function MatchingIndices(rows: seq<map<Field, Field>>, code: string, n: nat): (idx: seq<nat>)
    requires n <= |rows| && forall i :: 0 <= i < |rows| ==> Text("ST") in rows[i]
    ensures forall k :: 0 <= k < |idx| ==> idx[k] < n && rows[idx[k]][Text("ST")] == Text(code)
    ensures forall k, l :: 0 <= k < l < |idx| ==> idx[k] < idx[l]
    ensures forall i :: 0 <= i < n && rows[i][Text("ST")] == Text(code) ==> i in idx
  {
    if n == 0 then []
    else MatchingIndices(rows, code, n - 1) + (if rows[n - 1][Text("ST")] == Text(code) then [n - 1] else [])
  }

  lemma {:induction false} InStateAppend(a: seq<map<Field, Field>>, b: seq<map<Field, Field>>, code: string)
    requires forall i :: 0 <= i < |a| ==> Text("ST") in a[i]
    requires forall i :: 0 <= i < |b| ==> Text("ST") in b[i]
    ensures forall i :: 0 <= i < |a + b| ==> Text("ST") in (a + b)[i]
    ensures InState(a + b, code) == InState(a, code) + InState(b, code)
    decreases |a|
  {
    if |a| > 0 {
      assert (a + b)[1..] == a[1..] + b;
      InStateAppend(a[1..], b, code);
    } else {
      assert a + b == b;
    }
  }

  /** The kept records are the records at the matching indices, in order. */
  lemma {:induction false} InStatePrefix(rows: seq<map<Field, Field>>, code: string, n: nat)
    requires n <= |rows| && forall i :: 0 <= i < |rows| ==> Text("ST") in rows[i]
    ensures var r, idx := InState(rows[..n], code), MatchingIndices(rows, code, n);
            |r| == |idx| && forall k :: 0 <= k < |idx| ==> r[k] == rows[idx[k]]
  {
    if n > 0 {
      InStatePrefix(rows, code, n - 1);
      assert rows[..n] == rows[..n - 1] + [rows[n - 1]];
      InStateAppend(rows[..n - 1], [rows[n - 1]], code);
      assert [rows[n - 1]][1..] == [];
    }
  }

  /** Keeping the records of a state keeps exactly those, each as often as it
      occurs and in their order: the records at the matching indices. */
  lemma InStateSpec(rows: seq<map<Field, Field>>, code: string)
    requires forall i :: 0 <= i < |rows| ==> Text("ST") in rows[i]
    ensures forall m :: m in InState(rows, code) <==> m in rows && m[Text("ST")] == Text(code)
    ensures |InState(rows, code)| <= |rows|
    ensures var r, idx := InState(rows, code), MatchingIndices(rows, code, |rows|);
            |r| == |idx| && forall k :: 0 <= k < |idx| ==> r[k] == rows[idx[k]]
  {
    InStatePrefix(rows, code, |rows|);
    assert rows[..|rows|] == rows;
    var r, idx := InState(rows, code), MatchingIndices(rows, code, |rows|);
    forall m | m in rows && m[Text("ST")] == Text(code) ensures m in r {
      var i :| 0 <= i < |rows| && rows[i] == m;
      var k :| 0 <= k < |idx| && idx[k] == i;
      assert r[k] == m;
    }
    IncreasingIndicesFit(idx, |rows|);
  }

  /** Strictly increasing indices below `n` number at most `n`. */
  lemma {:induction false} IncreasingIndicesFit(idx: seq<nat>, n: nat)
    requires forall k :: 0 <= k < |idx| ==> idx[k] < n
    requires forall k, l :: 0 <= k < l < |idx| ==> idx[k] < idx[l]
    ensures |idx| <= n
    decreases n
  {
    if |idx| > 0 {
      var last := |idx| - 1;
      IncreasingIndicesFit(idx[..last], idx[last]);
    }
  }

  /** The stations of a state given by its two-letter code in either case; any
      other length gives no stations, and a record without a state fails with
      `KeyError`. */
  function GetState(t: Table, state: string): (r: Result<seq<map<Field, Field>>>)
    ensures |state| != 2 ==> r == Ok([])
    ensures |state| == 2 ==> (r.Err? <==> exists i :: 0 <= i < |t.rows| && Text("ST") !in t.rows[i])
    ensures r.Err? ==> r.error == KeyError
    ensures |state| == 2 && r.Ok? ==>
              forall m :: m in r.value <==> m in t.rows && m[Text("ST")] == Text(Upper(state))
    ensures |state| == 2 && r.Ok? ==>
              var idx := MatchingIndices(t.rows, Upper(state), |t.rows|);
              |r.value| == |idx| && forall k :: 0 <= k < |idx| ==> r.value[k] == t.rows[idx[k]]
  {
    if |state| != 2 then Ok([])
    else if exists i :: 0 <= i < |t.rows| && Text("ST") !in t.rows[i] then Err(KeyError)
    else
      InStateSpec(t.rows, Upper(state));
      Ok(InState(t.rows, Upper(state)))
  }

  /** Lower-case codes find the same stations as upper-case ones. */
  lemma GetStateIgnoresCase(t: Table, a: string, b: string)
    requires |a| == 2 && Upper(a) == Upper(b)
    ensures GetState(t, a) == GetState(t, b)
  {
  }
}
