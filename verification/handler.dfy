/**
 * The traffic handler of the controller shell: it records the project to
 * run, starts the ByteBlower controller on it together with an endpoint
 * reader thread, and stops the run by draining the controller's output and
 * checking its exit code.
 *
 * The controller process is given by what it will print and the code it
 * will exit with; the endpoint reader thread is reduced to its life cycle.
 */
module Handler {
  import opened Wrappers
  import opened PyStr
  import Threads

  /** The scenario every run uses. */
  const Scenario: string := "CloudShellPoC"
  const OutputSuffix: string := "--output"

  /** Where the controller writes its results: the log file without its extension, then `--output`, with forward slashes. */
  function OutputPath(logFile: string): string {
    ForwardSlashes(SplitExt(logFile).0 + OutputSuffix)
  }

  /** The output path is the normalised log root followed by `--output`, and holds no backslash. */
  lemma OutputPathShape(logFile: string)
    ensures OutputPath(logFile) == ForwardSlashes(SplitExt(logFile).0) + OutputSuffix
    ensures forall i :: 0 <= i < |OutputPath(logFile)| ==> OutputPath(logFile)[i] != '\\'
    ensures SplitExt(logFile).0 + SplitExt(logFile).1 == logFile
  {
    ForwardSlashesAppend(SplitExt(logFile).0, OutputSuffix);
    OutputSuffixPlain();
  }

  /** The suffix holds no backslash. */
  lemma OutputSuffixPlain()
    ensures ForwardSlashes(OutputSuffix) == OutputSuffix
  {
    assert forall i :: 0 <= i < |OutputSuffix| ==> OutputSuffix[i] != '\\';
    ForwardSlashesPlain(OutputSuffix);
  }

  /** The controller command line of a run: `project`'s `CloudShellPoC` scenario, results to `output`. */
  function ControllerCommand(clientInstallPath: string, project: string, output: string): seq<string> {
    Threads.ServerCommand(clientInstallPath, project, Scenario, output)
  }

  /** The controller reads the project, the fixed scenario and the output path as its three options. */
  lemma ControllerCommandInvocation(clientInstallPath: string, project: string, output: string)
    ensures Threads.Interpret(ControllerCommand(clientInstallPath, project, output))
         == Some(Threads.Invocation(clientInstallPath, [], map["-project" := project, "-scenario" := "CloudShellPoC", "-output" := output]))
  {
    Threads.ServerCommandInvocation(clientInstallPath, project, Scenario, output);
  }

  /**
   * The lines `for line in iter(stdout.readline, '')` visits: those before
   * the first empty read, which marks the end of the stream.
   */
  function Drained(lines: seq<string>): seq<string> {
    if lines == [] || lines[0] == "" then [] else [lines[0]] + Drained(lines[1..])
  }

  /** The drained lines are the longest prefix of the stream without an empty read. */
  lemma {:induction false} DrainedPrefix(lines: seq<string>)
    ensures Drained(lines) <= lines
    ensures forall k :: 0 <= k < |Drained(lines)| ==> Drained(lines)[k] != ""
    ensures |Drained(lines)| < |lines| ==> lines[|Drained(lines)|] == ""
  {
    if lines != [] && lines[0] != "" {
      DrainedPrefix(lines[1..]);
      assert lines == [lines[0]] + lines[1..];
    }
  }

  /** Reading past `i` non-empty lines leaves the drain of the rest. */
  lemma {:induction false} DrainedFrom(lines: seq<string>, i: nat)
    requires i <= |lines|
    requires forall k :: 0 <= k < i ==> lines[k] != ""
    ensures Drained(lines) == lines[..i] + Drained(lines[i..])
  {
    if i > 0 {
      DrainedFrom(lines[1..], i - 1);
      assert lines[1..][..i - 1] == lines[1..i];
      assert lines[1..][i - 1..] == lines[i..];
      assert [lines[0]] + lines[1..i] == lines[..i];
    }
  }

  /** A stream whose lines are all non-empty is read to the end. */
  lemma {:induction false} DrainedAll(lines: seq<string>)
    requires forall k :: 0 <= k < |lines| ==> lines[k] != ""
    ensures Drained(lines) == lines
  {
    if lines != [] {
      DrainedAll(lines[1..]);
      assert [lines[0]] + lines[1..] == lines;
    }
  }

  /** Life cycle of the endpoint reader thread. */
  datatype EpState = NotCreated | Running | Stopped

  /** The started controller: its command, whether it runs through the shell, its unread output and its exit code. */
  datatype Process = Process(cmd: seq<string>, shell: bool, output: seq<string>, stdoutOpen: bool, exitCode: int)

  /** What the handler raises. */
  datatype HandlerError =
    | NotLoaded                                       // no project loaded: no `project` attribute
    | NotStarted                                      // traffic never started: no `popen` attribute
    | StdoutClosed                                    // stopped before: reading a closed stream
    | CalledProcessError(returnCode: int, cmd: seq<string>)  // the controller exited with a nonzero code

  class ByteBlowerHandler {
    const clientInstallPath: string
    /** The file the session logger writes to. */
    const logFile: string
    var project: Option<string>
    var bbCmd: Option<seq<string>>
    var epThread: EpState
    var popen: Option<Process>
    /** The controller output echoed while stopping. */
    var printed: seq<string>

    /** A started controller was started with the recorded command, next to an endpoint thread. */
    ghost predicate Valid()
      reads this
    {
      popen.Some? ==> bbCmd == Some(popen.value.cmd) && epThread != NotCreated
    }

    constructor (clientInstallPath: string, logFile: string)
      ensures Valid()
      ensures this.clientInstallPath == clientInstallPath && this.logFile == logFile
      ensures project == None && bbCmd == None && epThread == NotCreated && popen == None && printed == []
    {
      this.clientInstallPath := clientInstallPath;
      this.logFile := logFile;
      project := None;
      bbCmd := None;
      epThread := NotCreated;
      popen := None;
      printed := [];
    }

    /** Records the project file, with forward slashes. */
    method LoadConfig(fileName: string)
      requires Valid()
      modifies this
      ensures Valid()
      ensures project == Some(ForwardSlashes(fileName))
      ensures bbCmd == old(bbCmd) && epThread == old(epThread) && popen == old(popen) && printed == old(printed)
    {
      project := Some(ForwardSlashes(fileName));
    }

    /**
     * Starts a run: builds the controller command, starts the endpoint
     * thread and the controller, which goes through the shell unless the
     * call blocks. A blocking call stops the run at once. The controller
     * will print `output` and exit with `exitCode`.
     */
    method StartTraffic(blocking: bool, output: seq<string>, exitCode: int) returns (r: Option<HandlerError>)
      requires Valid()
      modifies this
      ensures Valid()
      ensures project == old(project)
      ensures old(project).None? ==>
        r == Some(NotLoaded) && bbCmd == old(bbCmd) && epThread == old(epThread) && popen == old(popen) && printed == old(printed)
      ensures old(project).Some? ==>
        bbCmd == Some(ControllerCommand(clientInstallPath, old(project).value, OutputPath(logFile))) &&
        popen.Some? && popen.value.cmd == bbCmd.value && popen.value.shell == !blocking && popen.value.exitCode == exitCode
      ensures old(project).Some? && !blocking ==>
        r == None && epThread == Running && popen.value.output == output && popen.value.stdoutOpen && printed == old(printed)
      ensures old(project).Some? && blocking ==>
        printed == old(printed) + Drained(output) && popen.value.output == [] && !popen.value.stdoutOpen &&
        (exitCode != 0 ==> r == Some(CalledProcessError(exitCode, bbCmd.value)) && epThread == Running) &&
        (exitCode == 0 ==> r == None && epThread == Stopped)
    {
      if project.None? {
        return Some(NotLoaded);
      }
      var out := OutputPath(logFile);
      bbCmd := Some(ControllerCommand(clientInstallPath, project.value, out));
      epThread := Running;
      var shell := !blocking;
      popen := Some(Process(bbCmd.value, shell, output, true, exitCode));
      r := None;
      if blocking {
        r := StopTraffic();
      }
    }

    /**
     * Stops a run: echoes the controller's remaining output, closes it and
     * waits for the exit code. A nonzero code raises and leaves the
     * endpoint thread running; otherwise the endpoint thread is stopped.
     */
    method StopTraffic() returns (r: Option<HandlerError>)
      requires Valid()
      modifies this
      ensures Valid()
      ensures project == old(project) && bbCmd == old(bbCmd)
      ensures old(popen).None? ==>
        r == Some(NotStarted) && popen == old(popen) && epThread == old(epThread) && printed == old(printed)
      ensures old(popen).Some? && !old(popen).value.stdoutOpen ==>
        r == Some(StdoutClosed) && popen == old(popen) && epThread == old(epThread) && printed == old(printed)
      ensures old(popen).Some? && old(popen).value.stdoutOpen ==>
        var p := old(popen).value;
        printed == old(printed) + Drained(p.output) &&
        popen == Some(p.(output := [], stdoutOpen := false)) &&
        (p.exitCode != 0 ==> r == Some(CalledProcessError(p.exitCode, p.cmd)) && epThread == old(epThread)) &&
        (p.exitCode == 0 ==> r == None && epThread == Stopped)
    {
      if popen.None? {
        return Some(NotStarted);
      }
      var p := popen.value;
      if !p.stdoutOpen {
        return Some(StdoutClosed);
      }
      var i := 0;
      while i < |p.output| && p.output[i] != ""
        invariant 0 <= i <= |p.output|
        invariant forall k :: 0 <= k < i ==> p.output[k] != ""
        invariant printed == old(printed) + p.output[..i]
        invariant popen == old(popen) && epThread == old(epThread) && project == old(project) && bbCmd == old(bbCmd)
      {
        assert p.output[..i + 1] == p.output[..i] + [p.output[i]];
        printed := printed + [p.output[i]];
        i := i + 1;
      }
      DrainedFrom(p.output, i);
      assert Drained(p.output[i..]) == [];
      assert p.output[..i] + [] == p.output[..i];
      popen := Some(p.(output := [], stdoutOpen := false));
      var returnCode := p.exitCode;
      if returnCode != 0 {
        return Some(CalledProcessError(returnCode, bbCmd.value));
      }
      epThread := Stopped;
      r := None;
    }
  }
}
