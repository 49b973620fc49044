/** The wct-export wrapper: how the exporter's output lines are grouped into log
    messages, and how the command that runs the exporter is put together from
    the shebang line of its launch script. */
module WctExport {
  import opened Common

  // ---------------------------------------------------------------------------
  // Reading lines

  /** The lines a reader sees before end of file. `readline` returns the empty
      text only at end of file, and from then on at every call; `results` holds the
      successive results. */
  function Stream(results: seq<string>): (lines: seq<string>)
    ensures lines <= results
    ensures forall i :: 0 <= i < |lines| ==> lines[i] != ""
    ensures |lines| < |results| ==> results[|lines|] == ""
  {
    if |results| == 0 || results[0] == "" then [] else [results[0]] + Stream(results[1..])
  }

  // ---------------------------------------------------------------------------
  // Grouping output lines into messages

  /** A line that opens a block: it mentions `PROCESSING`. */
  predicate Opens(line: string)
  {
    Contains(line, "PROCESSING")
  }

  /** A line that closes a block: it reports `100%`. */
  predicate Closes(line: string)
  {
    Contains(line, "100%")
  }

  /** Index of the first line, from `k` on, that reports completion. */
  function BlockEnd(lines: seq<string>, k: nat): (j: Option<nat>)
    requires k <= |lines|
    ensures j.Some? ==> k <= j.value < |lines| && Closes(lines[j.value])
    ensures j.Some? ==> forall i :: k <= i < j.value ==> !Closes(lines[i])
    ensures j.None? ==> forall i :: k <= i < |lines| ==> !Closes(lines[i])
    decreases |lines| - k
  {
    if k == |lines| then None
    else if Closes(lines[k]) then Some(k)
    else BlockEnd(lines, k + 1)
  }

  /** The length of the group the handler forms first: one line, or for a line
      mentioning `PROCESSING` every line through the first `100%` (possibly
      itself); none when that block never completes. */
  function HeadLength(lines: seq<string>): (n: Option<nat>)
    requires |lines| > 0
    ensures n.Some? ==> 0 < n.value <= |lines|
    ensures !Opens(lines[0]) ==> n == Some(1)
    ensures Opens(lines[0]) && n.Some? ==>
              Closes(lines[n.value - 1]) && forall i :: 0 <= i < n.value - 1 ==> !Closes(lines[i])
    ensures Opens(lines[0]) && n.None? ==> forall i :: 0 <= i < |lines| ==> !Closes(lines[i])
  {
    if Opens(lines[0]) then
      match BlockEnd(lines, 0)
      case None => None
      case Some(j) => Some(j + 1)
    else Some(1)
  }

  /** The groups of lines logged together, in order, and whether the handler
      ends up waiting forever inside a block that never completes. */
  datatype Grouping = Grouping(groups: seq<seq<string>>, blocked: bool)

  /** The handler's loop: a line mentioning `PROCESSING` opens a block that runs
      through the first line reporting `100%` (possibly itself); any other line
      is a group on its own. */
  function Groups(lines: seq<string>): (r: Grouping)
    ensures |r.groups| <= |lines|
    ensures forall k :: 0 <= k < |r.groups| ==> |r.groups[k]| > 0
    decreases |lines|
  {
    if |lines| == 0 then Grouping([], false)
    else match HeadLength(lines)
      case None => Grouping([], true)
      case Some(n) =>
        var rest := Groups(lines[n..]);
        Grouping([lines[..n]] + rest.groups, rest.blocked)
  }

  /** A head block followed by the groups of the lines after it. */
  lemma GroupsStep(lines: seq<string>)
    requires |lines| > 0 && HeadLength(lines).Some?
    ensures var n := HeadLength(lines).value;
            && Groups(lines).groups == [lines[..n]] + Groups(lines[n..]).groups
            && Groups(lines).blocked == Groups(lines[n..]).blocked
  {
  }

  /** A group as the handler forms it: a single line without `PROCESSING`, or a
      block that starts with a `PROCESSING` line and ends at its first `100%`
      line. */
  predicate WellFormed(g: seq<string>)
  {
    || (|g| == 1 && !Opens(g[0]))
    || (&& |g| >= 1 && Opens(g[0]) && Closes(g[|g| - 1])
        && forall i :: 0 <= i < |g| - 1 ==> !Closes(g[i]))
  }

  /** The logged text of a group: its lines joined with nothing, then stripped of
      trailing whitespace; for a single line that is the line itself, stripped. */
  function Message(g: seq<string>): (m: string)
    ensures |g| == 1 ==> m == RStrip(g[0])
  {
    assert |g| == 1 ==> Flatten(g) == g[0] by {
      if |g| == 1 {
        assert g[1..] == [];
        assert Flatten(g[1..]) == [];
      }
    }
    RStrip(Flatten(g))
  }

  /** The messages logged, in order. */
  function Messages(lines: seq<string>): (ms: seq<string>)
    ensures |ms| == |Groups(lines).groups|
    ensures forall i :: 0 <= i < |ms| ==> ms[i] == Message(Groups(lines).groups[i])
  {
    var gs := Groups(lines).groups;
    seq(|gs|, i requires 0 <= i < |gs| => Message(gs[i]))
  }

  /** Grouping repeats and reorders nothing: the groups put back together are a
      prefix of the lines read, and all of them unless the handler is stuck in an
      unfinished block, whose lines are read but never logged. */
  lemma {:induction false} GroupsCover(lines: seq<string>)
    ensures Flatten(Groups(lines).groups) <= lines
    ensures !Groups(lines).blocked ==> Flatten(Groups(lines).groups) == lines
    decreases |lines|
  {
    if |lines| > 0 && HeadLength(lines).Some? {
      var n := HeadLength(lines).value;
      var tail := lines[n..];
      GroupsStep(lines);
      GroupsCover(tail);
      FlattenCons(lines[..n], Groups(tail).groups);
      assert lines == lines[..n] + tail;
    }
  }

  /** Every group has the shape the handler gives it. */
  lemma {:induction false} GroupsWellFormed(lines: seq<string>)
    ensures forall i :: 0 <= i < |Groups(lines).groups| ==> WellFormed(Groups(lines).groups[i])
    decreases |lines|
  {
    if |lines| > 0 && HeadLength(lines).Some? {
      var n := HeadLength(lines).value;
      var r := Groups(lines);
      var tail := lines[n..];
      GroupsWellFormed(tail);
      assert r.groups == [lines[..n]] + Groups(tail).groups;
      assert WellFormed(lines[..n]);
      forall i | 0 < i < |r.groups| ensures WellFormed(r.groups[i]) {
        assert r.groups[i] == Groups(tail).groups[i - 1];
      }
    }
  }

  /** When the handler is stuck, the lines not yet logged start with a
      `PROCESSING` line and none of them reports `100%`; otherwise it is not
      stuck. */
  lemma GroupsBlocked(lines: seq<string>)
    ensures Groups(lines).blocked <==>
              exists k :: 0 <= k < |lines| && Opens(lines[k]) && (forall j :: k <= j < |lines| ==> !Closes(lines[j]))
                          && k == |Flatten(Groups(lines).groups)|
  {
    GroupsCover(lines);
    if Groups(lines).blocked {
      var k := BlockedAt(lines);
    }
  }

  /** Where a stuck handler is stuck: at the first line not logged. */
  lemma {:induction false} BlockedAt(lines: seq<string>) returns (k: nat)
    requires Groups(lines).blocked
    ensures k < |lines| && Opens(lines[k]) && (forall j :: k <= j < |lines| ==> !Closes(lines[j]))
    ensures k == |Flatten(Groups(lines).groups)|
    decreases |lines|
  {
    var r := Groups(lines);
    if HeadLength(lines).None? {
      assert r.groups == [];
      assert Flatten(r.groups) == [];
      k := 0;
    } else {
      var d := HeadLength(lines).value;
      var tail := lines[d..];
      var rest := Groups(tail);
      var k' := BlockedAt(tail);
      FlattenCons(lines[..d], rest.groups);
      k := d + k';
      assert lines[k] == tail[k'];
      forall j | k <= j < |lines| ensures !Closes(lines[j]) {
        assert lines[j] == tail[j - d];
      }
    }
  }

  /** A run of lines without `PROCESSING` is logged line by line, each line
      stripped of trailing whitespace. */
  lemma {:induction false} PlainLines(lines: seq<string>)
    requires forall i :: 0 <= i < |lines| ==> !Opens(lines[i])
    ensures !Groups(lines).blocked
    ensures Messages(lines) == seq(|lines|, i requires 0 <= i < |lines| => RStrip(lines[i]))
    decreases |lines|
  {
    if |lines| > 0 {
      PlainLines(lines[1..]);
      var gs := Groups(lines).groups;
      assert HeadLength(lines) == Some(1) && lines[..1] == [lines[0]];
      GroupsStep(lines);
      assert |gs| == |lines|;
      forall i | 0 <= i < |lines| ensures Messages(lines)[i] == RStrip(lines[i]) {
        if i > 0 {
          assert gs[i] == Groups(lines[1..]).groups[i - 1];
          assert Messages(lines[1..])[i - 1] == RStrip(lines[1..][i - 1]);
        }
      }
    }
  }

  /** A block whose opening line already reports `100%` is that one line. */
  lemma OneLineBlock(line: string, rest: seq<string>)
    requires Opens(line) && Closes(line)
    ensures Groups([line] + rest) == Grouping([[line]] + Groups(rest).groups, Groups(rest).blocked)
  {
    var lines := [line] + rest;
    assert BlockEnd(lines, 0) == Some(0);
    assert lines[..1] == [line] && lines[1..] == rest;
  }

  // ---------------------------------------------------------------------------
  // Command construction

  /** Index of the first line of the launch script that contains `#!`; with no
      such line the search reads the empty end-of-file text forever. */
  function FindShebang(script: seq<string>): (k: Option<nat>)
    ensures k.Some? ==> k.value < |script| && Contains(script[k.value], "#!")
    ensures k.Some? ==> forall i :: 0 <= i < k.value ==> !Contains(script[i], "#!")
    ensures k.None? <==> forall i :: 0 <= i < |script| ==> !Contains(script[i], "#!")
    decreases |script|
  {
    if |script| == 0 then None
    else if Contains(script[0], "#!") then Some(0)
    else match FindShebang(script[1..])
      case None => None
      case Some(k) => Some(k + 1)
  }

  /** The shell named by a shebang line: the line stripped, with every `#!`
      removed. */
  function Shell(line: string): string
  {
    Replace(Strip(line), "#!", "")
  }

  /** For an ordinary shebang, `#!` followed by a path without `#`, the shell is
      that path. */
  lemma ShebangShell(line: string, path: string)
    requires Strip(line) == "#!" + path && Avoids(path, '#')
    ensures Shell(line) == path
  {
    var sep := "#!";
    assert sep[0] == '#';
    SplitAvoidingThenSep("", sep, path);
    assert "" + sep + path == "#!" + path;
    SplitAvoiding(path, sep);
    var parts := Split("#!" + path, sep);
    assert parts == ["", path];
    assert parts[1..] == [path];
    assert Join(parts, "") == "" + "" + Join([path], "");
  }

  /** Removal is a single left-to-right pass: `##!!` loses its inner `#!` and
      leaves another one behind. */
  lemma RemovalIsSinglePass()
    ensures Replace("##!!", "#!", "") == "#!"
  {
    var s := "##!!";
    var sep := "#!";
    assert s[..2] == "##" && "##" != sep by {
      assert "##"[1] != sep[1];
    }
    assert !(sep <= s);
    assert s[1..] == "#!!";
    assert sep <= s[1..];
    assert s[1..][2..] == "!";
    assert Split("!", sep) == ["!"];
    assert Split("#!!", sep) == [""] + ["!"];
    var rest := Split(s[1..], sep);
    assert rest == ["", "!"];
    assert Split(s, sep) == [['#'] + rest[0]] + rest[1..];
    assert ['#'] + rest[0] == "#" && rest[1..] == ["!"];
    assert Split(s, sep) == ["#", "!"];
    assert Join(["#", "!"], "") == "#" + "" + Join(["!"], "");
  }

  /** The exporter command: the shell, the exporter script, the batch file and
      the output format; `None` when the script has no shebang line and the
      search never ends. */
  function Command(script: seq<string>, exporter: string, batchFile: string, outputFormat: string): (cmd: Option<seq<string>>)
    ensures cmd.None? <==> forall i :: 0 <= i < |script| ==> !Contains(script[i], "#!")
    ensures cmd.Some? ==> |cmd.value| == 4 && cmd.value[1..] == [exporter, batchFile, outputFormat]
  {
    match FindShebang(script)
    case None => None
    case Some(k) => Some([Shell(script[k]), exporter, batchFile, outputFormat])
  }

  /** The shell in the command comes from the first line of the script that
      holds `#!`. */
  lemma CommandShell(script: seq<string>, exporter: string, batchFile: string, outputFormat: string, k: nat)
    requires k < |script| && Contains(script[k], "#!")
    requires forall i :: 0 <= i < k ==> !Contains(script[i], "#!")
    ensures Command(script, exporter, batchFile, outputFormat) == Some([Shell(script[k]), exporter, batchFile, outputFormat])
  {
    assert FindShebang(script) == Some(k);
  }

  // ---------------------------------------------------------------------------
  // Process options

  /** A value passed as a process option. */
  datatype ProcessOption = Pipe | MergeIntoStdout | Flag(on: bool) | Given(text: string)

  /** The caller's process options with the three that the output handling
      needs forced: standard output to a pipe, standard error into standard
      output, text mode on. */
  function ProcessOptions(kwargs: map<string, ProcessOption>): (r: map<string, ProcessOption>)
    ensures r.Keys == kwargs.Keys + {"stdout", "stderr", "universal_newlines"}
    ensures r["stdout"] == Pipe && r["stderr"] == MergeIntoStdout && r["universal_newlines"] == Flag(true)
    ensures forall k :: k in kwargs && k !in {"stdout", "stderr", "universal_newlines"} ==> r[k] == kwargs[k]
  {
    kwargs["stdout" := Pipe]["stderr" := MergeIntoStdout]["universal_newlines" := Flag(true)]
  }

  /** Whatever the caller passes for the three forced options makes no
      difference. */
  lemma ForcedOptionsIgnoreCaller(a: map<string, ProcessOption>, b: map<string, ProcessOption>)
    requires forall k :: k !in {"stdout", "stderr", "universal_newlines"} ==> (k in a <==> k in b)
    requires forall k :: k in a && k !in {"stdout", "stderr", "universal_newlines"} ==> a[k] == b[k]
    ensures ProcessOptions(a) == ProcessOptions(b)
  {
  }
}
