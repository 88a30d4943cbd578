/**
 * The two reader threads of the controller shell.
 *
 * The endpoint thread reads the wireless endpoint's output line by line and
 * turns every `Status:` line into a counter row. The server thread reads the
 * ByteBlower controller's output until the scenario reports `FINISHED` or a
 * failure to initialise. The lines a process prints are given as a sequence;
 * the process itself, the remote connection and the thread machinery are
 * not modelled.
 */
module Threads {
  import opened Wrappers
  import opened PyStr
  import opened PyRe

  /** Install path of the wireless endpoint executable on the endpoint host. */
  const EpClt: string := "C:/ByteBlowerWirelessEndpoint/$PLUGINSDIR/BBWEP/byteblower-wireless-endpoint.exe"
  const StatusPrefix: string := "Status:"
  const FinishedLine: string := "FINISHED"
  const InitFailure: string := "Failed to initialize scenario"

  // ---------------------------------------------------------------------
  // Command lines

  /** A command line as the launched program reads it. */
  datatype Invocation = Invocation(program: string, positional: seq<string>, options: map<string, string>)

  predicate IsOption(arg: string) {
    arg != [] && arg[0] == '-'
  }

  /**
   * Reads arguments as `-name value` options and positional arguments. An
   * option without a value, or given twice, makes the command line invalid.
   */
  function ReadArgs(args: seq<string>): Option<(seq<string>, map<string, string>)>
    decreases |args|
  {
    if args == [] then Some(([], map[]))
    else if IsOption(args[0]) then
      if |args| < 2 then None
      else
        match ReadArgs(args[2..])
        case None => None
        case Some(rest) =>
          if args[0] in rest.1 then None else Some((rest.0, rest.1[args[0] := args[1]]))
    else
      match ReadArgs(args[1..])
      case None => None
      case Some(rest) => Some(([args[0]] + rest.0, rest.1))
  }

  /** The program a command line starts and the arguments it receives. */
  function Interpret(cmd: seq<string>): Option<Invocation> {
    if cmd == [] then None
    else
      match ReadArgs(cmd[1..])
      case None => None
      case Some(a) => Some(Invocation(cmd[0], a.0, a.1))
  }

  /** The controller command line (`-project`, `-scenario`, `-output`). */
  function ServerCommand(clt: string, project: string, scenario: string, output: string): seq<string> {
    [clt, "-project", project, "-scenario", scenario, "-output", output]
  }

  /** The controller runs `project`'s `scenario` and writes its results to `output`. */
  lemma ServerCommandInvocation(clt: string, project: string, scenario: string, output: string)
    ensures Interpret(ServerCommand(clt, project, scenario, output))
         == Some(Invocation(clt, [], map["-project" := project, "-scenario" := scenario, "-output" := output]))
  {
    var args := ServerCommand(clt, project, scenario, output)[1..];
    assert args[2..][2..][2..] == [];
    assert ReadArgs(args[2..][2..]) == Some(([], map["-output" := output]));
    assert ReadArgs(args[2..]) == Some(([], map["-output" := output, "-scenario" := scenario]));
    assert ReadArgs(args) == Some(([], map["-output" := output, "-scenario" := scenario, "-project" := project]));
    assert map["-output" := output, "-scenario" := scenario, "-project" := project]
        == map["-project" := project, "-scenario" := scenario, "-output" := output];
  }

  /** The endpoint command line: the endpoint executable and the meeting point address. */
  function EpCommand(meetingpoint: string): seq<string> {
    [EpClt, meetingpoint]
  }

  /**
   * The endpoint executable is started with the meeting point as its only
   * argument. Under the `-name value` reading of `ReadArgs`, an address
   * starting with `-` would be read as an option that lacks its value.
   */
  lemma EpCommandInvocation(meetingpoint: string)
    ensures !IsOption(meetingpoint) ==> Interpret(EpCommand(meetingpoint)) == Some(Invocation(EpClt, [meetingpoint], map[]))
    ensures IsOption(meetingpoint) ==> Interpret(EpCommand(meetingpoint)) == None
  {
    var args := EpCommand(meetingpoint)[1..];
    assert args[1..] == [];
    assert ReadArgs(args[1..]) == Some(([], map[]));
    assert [meetingpoint] + [] == [meetingpoint];
  }

  // ---------------------------------------------------------------------
  // Endpoint status lines

  /** What one line of endpoint output contributes to the counters. */
  datatype StatusLine =
    | Other                        // not a status line: ignored
    | Sample(row: seq<string>)     // a status line: one counter row
    | Malformed                    // a status line with one token: the reader dies

  /**
   * A raw line, stripped, is a status line when it starts with `Status:`.
   * Its row is its second whitespace-separated token followed by every
   * `digits.digits` match in the line, left to right.
   */
  function ParseStatus(raw: string): StatusLine {
    var line := Strip(raw);
    if !StartsWith(line, StatusPrefix) then Other
    else
      var words := Split(line);
      if |words| < 2 then Malformed
      else Sample([words[1]] + FindDecimals(line))
  }

  /** Whitespace around a line, such as its line break, does not change what it contributes. */
  lemma ParseStatusPadded(ws1: string, raw: string, ws2: string)
    requires AllSpace(ws1) && AllSpace(ws2)
    ensures ParseStatus(ws1 + raw + ws2) == ParseStatus(raw)
  {
    StripPadded(ws1, raw, ws2);
  }

  /**
   * A line is a status line only when `Status:` opens it: a line whose first
   * non-blank character is anything else is ignored, whatever follows,
   * even a `Status:` later in the line.
   */
  lemma ParseStatusMidLine(ws: string, c: char, rest: string)
    requires AllSpace(ws) && !IsSpace(c) && c != 'S'
    ensures ParseStatus(ws + [c] + rest) == Other
  {
    StripFirst(ws, c, rest);
    assert StatusPrefix[0] == 'S';
  }

  /** A status line that is one word, however long, kills the reader. */
  lemma ParseStatusLoneWord(ws1: string, w: string, ws2: string)
    requires AllSpace(ws1) && AllSpace(ws2) && NoSpace(w) && StartsWith(w, StatusPrefix)
    ensures ParseStatus(ws1 + w + ws2) == Malformed
  {
    assert |StatusPrefix| == 7;
    ParseStatusPadded(ws1, w, ws2);
    StripUnpadded(w);
    SplitSingle(w);
  }

  /** The status line an endpoint prints for a time stamp and its readings. */
  function FormatStatus(stamp: string, readings: seq<string>): string {
    Join([StatusPrefix, stamp] + readings)
  }

  lemma {:induction false} JoinEnds(words: seq<string>)
    requires words != []
    requires forall n :: 0 <= n < |words| ==> words[n] != [] && NoSpace(words[n])
    ensures Join(words) != [] && Join(words)[0] == words[0][0]
    ensures !IsSpace(Join(words)[|Join(words)| - 1])
    decreases |words|
  {
    if |words| > 1 {
      JoinEnds(words[1..]);
      JoinCons(words[0], words[1..]);
      assert [words[0]] + words[1..] == words;
    }
  }

  lemma FormatStatusShape(stamp: string, readings: seq<string>)
    requires stamp != [] && NoSpace(stamp)
    requires forall n :: 0 <= n < |readings| ==> IsDecimal(readings[n])
    ensures Strip(FormatStatus(stamp, readings)) == FormatStatus(stamp, readings)
    ensures StartsWith(FormatStatus(stamp, readings), StatusPrefix)
    ensures Split(FormatStatus(stamp, readings)) == [StatusPrefix, stamp] + readings
  {
    var words := [StatusPrefix, stamp] + readings;
    forall n | 2 <= n < |words|
      ensures words[n] != [] && NoSpace(words[n])
    {
      DecimalNoSpace(readings[n - 2]);
    }
    JoinEnds(words);
    StripUnpadded(Join(words));
    SplitJoin(words);
    JoinCons(StatusPrefix, words[1..]);
    assert [words[0]] + words[1..] == words;
  }

  lemma FormatStatusFinds(stamp: string, readings: seq<string>)
    requires forall k :: 0 <= k < |stamp| ==> stamp[k] != '.'
    requires forall n :: 0 <= n < |readings| ==> IsDecimal(readings[n])
    ensures FindDecimals(FormatStatus(stamp, readings)) == readings
  {
    FindDecimalsJoin([StatusPrefix, stamp] + readings);
    FindInWordsAppend([StatusPrefix, stamp], readings);
    FindInHeader(stamp);
    FindInWordsDecimals(readings);
  }

  /** The prefix and a dot-free stamp hold no decimal. */
  lemma FindInHeader(stamp: string)
    requires forall k :: 0 <= k < |stamp| ==> stamp[k] != '.'
    ensures FindInWords([StatusPrefix, stamp]) == []
  {
    var header := [StatusPrefix, stamp];
    assert forall k :: 0 <= k < |StatusPrefix| ==> StatusPrefix[k] != '.';
    FindInWordsNoDot(header);
  }

  /**
   * A status line printed from a dot-free time stamp and decimal readings is
   * read back as the row "stamp, readings". A dot in the stamp would make
   * its own decimals appear among the readings.
   */
  lemma ParseFormatStatus(stamp: string, readings: seq<string>)
    requires stamp != [] && NoSpace(stamp)
    requires forall k :: 0 <= k < |stamp| ==> stamp[k] != '.'
    requires forall n :: 0 <= n < |readings| ==> IsDecimal(readings[n])
    ensures ParseStatus(FormatStatus(stamp, readings)) == Sample([stamp] + readings)
  {
    FormatStatusShape(stamp, readings);
    FormatStatusFinds(stamp, readings);
  }

  // ---------------------------------------------------------------------
  // The endpoint reading loop, as a function of the lines read

  /** `f` applied to every line, in reading order. */
  function Each<T>(f: string -> T, lines: seq<string>): (r: seq<T>)
    ensures |r| == |lines|
    decreases |lines|
  {
    if lines == [] then [] else Each(f, lines[..|lines| - 1]) + [f(lines[|lines| - 1])]
  }

  lemma {:induction false} EachAt<T>(f: string -> T, lines: seq<string>, i: nat)
    requires i < |lines|
    ensures Each(f, lines)[i] == f(lines[i])
    decreases |lines|
  {
    var front := lines[..|lines| - 1];
    if i < |front| {
      EachAt(f, front, i);
      assert front[i] == lines[i];
    }
  }

  lemma {:induction false} EachAppend<T>(f: string -> T, a: seq<string>, b: seq<string>)
    ensures Each(f, a + b) == Each(f, a) + Each(f, b)
    decreases |b|
  {
    if b == [] {
      assert a + b == a;
    } else {
      var front := b[..|b| - 1];
      assert (a + b)[..|a + b| - 1] == a + front;
      assert (a + b)[|a + b| - 1] == b[|b| - 1];
      EachAppend(f, a, front);
    }
  }

  /** Rows appended while reading some lines, and whether the reader died. */
  datatype Harvest = Harvest(rows: seq<seq<string>>, crashed: bool)

  /** Reading `next` after `h`: nothing more is read once the reader has died. */
  function Then(h: Harvest, next: Harvest): Harvest {
    if h.crashed then h else Harvest(h.rows + next.rows, next.crashed)
  }

  /** The endpoint loop over lines of the given statuses, read from first to last. */
  function Harvested(sts: seq<StatusLine>): (h: Harvest)
    ensures |h.rows| <= |sts|
    decreases |sts|
  {
    if sts == [] then Harvest([], false)
    else
      var h := Harvested(sts[..|sts| - 1]);
      if h.crashed then h
      else
        match sts[|sts| - 1]
        case Other => h
        case Sample(row) => Harvest(h.rows + [row], false)
        case Malformed => Harvest(h.rows, true)
  }

  /** The endpoint loop over raw `lines`. */
  function HarvestLines(lines: seq<string>): Harvest {
    Harvested(Each(ParseStatus, lines))
  }

  /** One line read on its own: at most one row, and only from a status line. */
  lemma HarvestOne(st: StatusLine)
    ensures Harvested([st]).rows == if st.Sample? then [st.row] else []
    ensures Harvested([st]).crashed == st.Malformed?
  {
    assert [st][..0] == [];
  }

  lemma HarvestSnoc(sts: seq<StatusLine>, st: StatusLine)
    ensures Harvested(sts + [st]) == Then(Harvested(sts), Harvested([st]))
  {
    assert (sts + [st])[..|sts|] == sts;
    HarvestOne(st);
  }

  lemma ThenAssoc(h1: Harvest, h2: Harvest, h3: Harvest)
    ensures Then(Then(h1, h2), h3) == Then(h1, Then(h2, h3))
  {
    assert h1.rows + (h2.rows + h3.rows) == (h1.rows + h2.rows) + h3.rows;
  }

  /** One more line read by a reader that is still alive. */
  lemma HarvestStep(sts: seq<StatusLine>, i: nat, before: seq<seq<string>>)
    requires i < |sts| && !Harvested(sts[..i]).crashed
    ensures before + Harvested(sts[..i + 1]).rows == (before + Harvested(sts[..i]).rows) + Harvested([sts[i]]).rows
    ensures Harvested(sts[..i + 1]).crashed == sts[i].Malformed?
  {
    assert sts[..i + 1] == sts[..i] + [sts[i]];
    HarvestSnoc(sts[..i], sts[i]);
    HarvestOne(sts[i]);
    var a, b := Harvested(sts[..i]).rows, Harvested([sts[i]]).rows;
    assert before + (a + b) == (before + a) + b;
  }

  /** Once the reader has died or the lines are exhausted, the rest is not read. */
  lemma HarvestDone(sts: seq<StatusLine>, i: nat)
    requires i <= |sts| && (i == |sts| || Harvested(sts[..i]).crashed)
    ensures Harvested(sts) == Harvested(sts[..i])
  {
    assert sts == sts[..i] + sts[i..];
    HarvestAppend(sts[..i], sts[i..]);
  }

  /** Reading `a` then `b` is reading `a`, then, if the reader survived, `b`. */
  lemma {:induction false} HarvestAppend(a: seq<StatusLine>, b: seq<StatusLine>)
    ensures Harvested(a + b) == Then(Harvested(a), Harvested(b))
    decreases |b|
  {
    if b == [] {
      assert a + b == a;
      assert Harvested(a).rows + [] == Harvested(a).rows;
    } else {
      var b', st := b[..|b| - 1], b[|b| - 1];
      assert b == b' + [st];
      assert a + b == (a + b') + [st];
      HarvestAppend(a, b');
      HarvestSnoc(a + b', st);
      HarvestSnoc(b', st);
      ThenAssoc(Harvested(a), Harvested(b'), Harvested([st]));
    }
  }

  /** Reading raw lines `a` then `b`. */
  lemma HarvestLinesAppend(a: seq<string>, b: seq<string>)
    ensures HarvestLines(a + b) == Then(HarvestLines(a), HarvestLines(b))
  {
    EachAppend(ParseStatus, a, b);
    HarvestAppend(Each(ParseStatus, a), Each(ParseStatus, b));
  }

  /** A line that is not a status line changes nothing, wherever it is read. */
  lemma HarvestSkipsOther(a: seq<StatusLine>, b: seq<StatusLine>)
    ensures Harvested(a + [Other] + b) == Harvested(a + b)
  {
    HarvestOne(Other);
    HarvestAppend(a, [Other]);
    HarvestAppend(a + [Other], b);
    HarvestAppend(a, b);
    assert Harvested(a).rows + [] == Harvested(a).rows;
  }

  /** After a malformed status line nothing more is read, and it adds no row. */
  lemma HarvestStopsAtMalformed(a: seq<StatusLine>, b: seq<StatusLine>)
    ensures Harvested(a + [Malformed] + b) == Harvested(a + [Malformed])
    ensures Harvested(a + [Malformed]).rows == Harvested(a).rows
    ensures Harvested(a + [Malformed]).crashed
  {
    HarvestOne(Malformed);
    HarvestAppend(a, [Malformed]);
    HarvestAppend(a + [Malformed], b);
    assert Harvested(a).rows + [] == Harvested(a).rows;
  }

  /** Until the reader dies, every status line adds exactly its own row. */
  lemma {:induction false} HarvestSamples(rows: seq<seq<string>>)
    ensures Harvested(seq(|rows|, k requires 0 <= k < |rows| => Sample(rows[k]))) == Harvest(rows, false)
    decreases |rows|
  {
    var sts := seq(|rows|, k requires 0 <= k < |rows| => Sample(rows[k]));
    if rows != [] {
      var front := rows[..|rows| - 1];
      HarvestSamples(front);
      assert sts[..|sts| - 1] == seq(|front|, k requires 0 <= k < |front| => Sample(front[k]));
      assert front + [rows[|rows| - 1]] == rows;
    }
  }

  /** The endpoint reader thread. */
  class EpThread {
    const meetingpoint: string
    /** One row per status line read so far, in reading order. */
    var counters: seq<seq<string>>
    /** The command the endpoint process was started with, once started. */
    var popen: Option<seq<string>>
    /** The stop event. */
    var finished: bool
    /** The loop died on a status line with a single token. */
    var crashed: bool
    /** The endpoint process has been terminated. */
    var terminated: bool

    constructor (meetingpoint: string)
      ensures this.meetingpoint == meetingpoint
      ensures counters == [] && popen == None && !finished && !crashed && !terminated
    {
      this.meetingpoint := meetingpoint;
      counters := [];
      popen := None;
      finished := false;
      crashed := false;
      terminated := false;
    }

    /** The loop body on one raw line: append its row when it is a status line. */
    method Step(raw: string)
      requires !crashed
      modifies this
      ensures ParseStatus(raw).Sample? ==> counters == old(counters) + [ParseStatus(raw).row]
      ensures !ParseStatus(raw).Sample? ==> counters == old(counters)
      ensures crashed == ParseStatus(raw).Malformed?
      ensures popen == old(popen) && finished == old(finished) && terminated == old(terminated)
    {
      var status := ParseStatus(raw);
      match status
      case Other =>
      case Sample(row) =>
        counters := counters + [row];
      case Malformed =>
        crashed := true;
    }

    /**
     * Starts the endpoint process and reads its output until the stop event
     * is set, the lines run out or a malformed status line ends the thread.
     */
    method Run(lines: seq<string>)
      requires popen.None? && !crashed
      modifies this
      ensures popen == Some(EpCommand(meetingpoint))
      ensures finished == old(finished) && terminated == old(terminated)
      ensures old(finished) ==> counters == old(counters) && !crashed
      ensures !old(finished) ==> counters == old(counters) + HarvestLines(lines).rows
      ensures !old(finished) ==> crashed == HarvestLines(lines).crashed
    {
      popen := Some(EpCommand(meetingpoint));
      ghost var sts := Each(ParseStatus, lines);
      var i := 0;
      while i < |lines| && !finished && !crashed
        invariant 0 <= i <= |lines|
        invariant popen == Some(EpCommand(meetingpoint))
        invariant finished == old(finished) && terminated == old(terminated)
        invariant old(finished) ==> i == 0 && counters == old(counters) && !crashed
        invariant !old(finished) ==> counters == old(counters) + Harvested(sts[..i]).rows
        invariant !old(finished) ==> crashed == Harvested(sts[..i]).crashed
      {
        EachAt(ParseStatus, lines, i);
        HarvestOne(sts[i]);
        HarvestStep(sts, i, old(counters));
        Step(lines[i]);
        i := i + 1;
      }
      if !finished {
        HarvestDone(sts, i);
      }
    }

    /** Sets the stop event and terminates the process; fails when it was never started. */
    method Stop() returns (ok: bool)
      modifies this
      ensures finished
      ensures ok == old(popen).Some? && terminated == (old(terminated) || ok)
      ensures counters == old(counters) && popen == old(popen) && crashed == old(crashed)
    {
      finished := true;
      ok := popen.Some?;
      if ok {
        terminated := true;
      }
    }
  }

  // ---------------------------------------------------------------------
  // The controller output scanner

  /** What one line of controller output means to the server thread. */
  datatype ServerLine = Finish | InitFailed(line: string) | Progress

  /** An exact `FINISHED` ends the run; otherwise a line reporting a failed initialisation does. */
  function ClassifyServerLine(raw: string): ServerLine {
    var line := Strip(raw);
    if line == FinishedLine then Finish
    else if Contains(line, InitFailure) then InitFailed(line)
    else Progress
  }

  /** Whitespace around a line, such as its line break, does not change what it means. */
  lemma ClassifyServerLinePadded(ws1: string, raw: string, ws2: string)
    requires AllSpace(ws1) && AllSpace(ws2)
    ensures ClassifyServerLine(ws1 + raw + ws2) == ClassifyServerLine(raw)
  {
    StripPadded(ws1, raw, ws2);
  }

  lemma InitFailureShape()
    ensures |InitFailure| > |FinishedLine|
    ensures !IsSpace(InitFailure[0]) && !IsSpace(InitFailure[|InitFailure| - 1])
  {
  }

  /**
   * A failure report anywhere in a line, whatever surrounds it, ends the
   * run as failed and keeps the whole line, stripped.
   */
  lemma ClassifyServerLineReportsFailure(p: string, q: string)
    ensures ClassifyServerLine(p + InitFailure + q) == InitFailed(Strip(p + InitFailure + q))
  {
    InitFailureShape();
    var line := p + InitFailure + q;
    assert line[|p|..|p| + |InitFailure|] == InitFailure;
    StripKeepsInner(line, |p|, |p| + |InitFailure|);
  }

  /** Where the scan of the controller output stopped, if it did. */
  datatype Scan = Pending | Finished(at: nat) | Failed(at: nat, line: string)

  /** The outcome a stopping line produces at index `at`. */
  function StopAt(kind: ServerLine, at: nat): Scan {
    match kind
    case Finish => Finished(at)
    case InitFailed(line) => Failed(at, line)
    case Progress => Pending
  }

  /** The server loop over lines of the given meanings, from index `i`. */
  function ScanFrom(kinds: seq<ServerLine>, i: nat): Scan
    requires i <= |kinds|
    decreases |kinds| - i
  {
    if i == |kinds| then Pending
    else if kinds[i].Progress? then ScanFrom(kinds, i + 1)
    else StopAt(kinds[i], i)
  }

  /**
   * The scan stops at the first stopping line, and only there: it is pending
   * exactly when no line from `i` on stops it.
   */
  lemma {:induction false} ScanFromFirst(kinds: seq<ServerLine>, i: nat)
    requires i <= |kinds|
    ensures ScanFrom(kinds, i).Pending? <==> forall k :: i <= k < |kinds| ==> kinds[k].Progress?
    ensures !ScanFrom(kinds, i).Pending? ==>
      var at := ScanFrom(kinds, i).at;
      i <= at < |kinds| && !kinds[at].Progress? && ScanFrom(kinds, i) == StopAt(kinds[at], at) &&
      forall k :: i <= k < at ==> kinds[k].Progress?
    decreases |kinds| - i
  {
    if i < |kinds| && kinds[i].Progress? {
      ScanFromFirst(kinds, i + 1);
    }
  }

  /** Conversely, the first stopping line is where the scan stops. */
  lemma ScanFindsFirst(kinds: seq<ServerLine>, at: nat)
    requires at < |kinds| && !kinds[at].Progress?
    requires forall k :: 0 <= k < at ==> kinds[k].Progress?
    ensures ScanFrom(kinds, 0) == StopAt(kinds[at], at)
  {
    ScanFromFirst(kinds, 0);
  }

  /** Lines after the one that stopped the scan are never examined. */
  lemma {:induction false} ScanIgnoresLater(a: seq<ServerLine>, b: seq<ServerLine>, i: nat)
    requires i <= |a| && !ScanFrom(a, i).Pending?
    ensures ScanFrom(a + b, i) == ScanFrom(a, i)
    decreases |a| - i
  {
    assert (a + b)[i] == a[i];
    if a[i].Progress? {
      ScanIgnoresLater(a, b, i + 1);
    }
  }

  /** The server reader thread. */
  class ServerThread {
    const clt: string
    const project: string
    const scenario: string
    const output: string
    /** The line that reported a failed initialisation, once one was read. */
    var failed: Option<string>
    /** The stop event. */
    var finished: bool
    /** The command the controller process was started with, once started. */
    var popen: Option<seq<string>>
    /** The controller process has been terminated. */
    var terminated: bool

    constructor (clt: string, project: string, scenario: string, output: string)
      ensures this.clt == clt && this.project == project && this.scenario == scenario && this.output == output
      ensures failed == None && !finished && popen == None && !terminated
    {
      this.clt := clt;
      this.project := project;
      this.scenario := scenario;
      this.output := output;
      failed := None;
      finished := false;
      popen := None;
      terminated := false;
    }

    /**
     * Starts the controller and reads its output until the stop event is
     * set, the lines run out, `FINISHED` is read or a line reports that the
     * scenario failed to initialise. Returns where the reading stopped.
     */
    method Run(lines: seq<string>) returns (r: Scan)
      requires popen.None?
      modifies this
      ensures popen == Some(ServerCommand(clt, project, scenario, output))
      ensures finished == old(finished) && terminated == old(terminated)
      ensures r == if old(finished) then Pending else ScanFrom(Each(ClassifyServerLine, lines), 0)
      ensures failed == if r.Failed? then Some(r.line) else old(failed)
    {
      popen := Some(ServerCommand(clt, project, scenario, output));
      ghost var kinds := Each(ClassifyServerLine, lines);
      r := Pending;
      var i := 0;
      while i < |lines| && !finished
        invariant 0 <= i <= |lines|
        invariant popen == Some(ServerCommand(clt, project, scenario, output))
        invariant finished == old(finished) && terminated == old(terminated) && failed == old(failed)
        invariant old(finished) ==> i == 0
        invariant ScanFrom(kinds, 0) == ScanFrom(kinds, i)
      {
        var kind := ClassifyServerLine(lines[i]);
        EachAt(ClassifyServerLine, lines, i);
        match kind
        case Finish =>
          r := Finished(i);
          return;
        case InitFailed(line) =>
          failed := Some(line);
          r := Failed(i, line);
          return;
        case Progress =>
        i := i + 1;
      }
    }

    /** Sets the stop event and terminates the process; fails when it was never started. */
    method Stop() returns (ok: bool)
      modifies this
      ensures finished
      ensures ok == old(popen).Some? && terminated == (old(terminated) || ok)
      ensures failed == old(failed) && popen == old(popen)
    {
      finished := true;
      ok := popen.Some?;
      if ok {
        terminated := true;
      }
    }
  }
}
