# ByteBlower Controller Shell 2G — a Dafny model of its traffic core

The ByteBlower Controller Shell drives ByteBlower traffic runs from
CloudShell. This project models the parts of it that decide what a run does
and what it reports:

- **The traffic handler** (`Handler`). `load_config` records the project file with
  forward slashes. `start_traffic` builds the controller command line: the
  client, `-project`, `-scenario CloudShellPoC`, and `-output` set to the log
  file's root plus `--output`. It then starts an endpoint thread and the
  controller, through the shell unless the call blocks, and a blocking call
  stops the run at once. `stop_traffic` echoes the controller's output up to
  the first empty read, closes the stream and waits. A nonzero exit code
  raises `CalledProcessError` and leaves the endpoint thread running;
  otherwise it stops the endpoint thread.
- **The reader threads** (`Threads`).
  - The endpoint thread starts the wireless endpoint with the meeting point
    as its only argument. It reads the endpoint's output line by line: every
    stripped line that starts with `Status:` appends one counter row. The row
    is the line's second whitespace-separated token, then every `\d+\.\d+`
    match in the line, left to right. A status line with a single token
    kills the thread.
  - The server thread starts the controller and reads its output until a
    line is exactly `FINISHED` or reports `Failed to initialize scenario`.
    In the second case it keeps that line.
- **The intended-rate table** (`IntendedRate`). This is `load_config` of the
  test module `tests/test_byteblower_xml.py`, which computes each ByteBlower
  port's intended transmit rate from a project file. Only ports whose `physicalInterfaceId` is an integer
  count. Each flow a port sources is resolved to its first flow template
  and, through the integer after the last `.` of the template's frame
  reference, to a frame (Python indexing, negative indices included). A
  flow's rate is `8000 * frame bytes / frameInterval` Mbps, truncated toward
  zero, where the frame's byte count is `len(hex) / 2` with Python 2's floor
  division of integers. A port's rate is the sum of its distinct flows' rates.

The code calls `strip`, `split`, `split('.')`, `startswith`, `in`, `replace`, `int()` and
`ntpath.splitext` on strings; these are modelled in `PyStr`, together with
`rfind`, which `ntpath.splitext` uses internally and through which
`split('.')[-1]` is modelled. `re.findall(r'\d+\.\d+', …)`
is modelled in `PyRe`. `PyStr` also defines `' '.join` and `str()`, which
the code does not call: they serve only to state round trips (`SplitJoin`,
`ParseFormatStatus`, `ParseIntShowInt`). The dictionaries of the rate
computation are modelled in `Dicts` as keeping insertion order, which Python
2 dictionaries do not (see "## Left out").

Processes are given by what they print (a sequence of lines) and the code
they exit with. The file system is the set of paths that exist. A project
file is the parsed list of its `ByteBlowerGuiPort`, `FlowTemplate` and `Frame`
elements. A thread's stop event is a boolean field.

## Model

The functions that define the model (ParseStatus, ClassifyServerLine, ScanFrom, Harvested, HarvestLines, FindDecimals, ResolveFlow, FillFlows, PortsFrom, Mbps, FlowRate, SumFrom, PortRate, RatesFrom, IntendedRates, OutputPath, Drained, the command builders, ParseInt, Strip, LastField) have no rows of their own: each lemma row below states a property of the function it names, at that function's source lines, and each method row ties a loop of the source to one of them.

| member | source | states |
|---|---|---|
| Threads.ServerCommandInvocation | src/byteblower_threads.py:35 | the controller receives the project, the scenario and the output path as its `-project`, `-scenario` and `-output` options, and nothing else |
| Threads.EpCommandInvocation | src/byteblower_threads.py:73 | the endpoint executable receives the meeting point as its only positional argument, under the `-name value` reading of command lines assumed for both executables |
| Threads.ParseStatusPadded | src/byteblower_threads.py:78-82 | whitespace around a line, such as its line break, does not change what the line contributes |
| Threads.ParseStatusMidLine | src/byteblower_threads.py:80 | a line whose first non-blank character is not the `S` of `Status:` is ignored, whatever follows it, even a later `Status:` |
| Threads.ParseStatusLoneWord | src/byteblower_threads.py:80-82 | a status line that is a single word, with any whitespace around it, kills the reader |
| Threads.ParseFormatStatus | src/byteblower_threads.py:80-82 | a status line printed from a dot-free time stamp and decimal readings is read back as exactly the row "stamp, readings" |
| Threads.HarvestOne | src/byteblower_threads.py:80-83 | one line read adds a row only when it is a status line, and the reader dies only on a malformed one |
| Threads.HarvestAppend | src/byteblower_threads.py:76-84 | reading `a` then `b` gives the rows of `a`, then, if the reader survived `a`, the rows of `b` |
| Threads.HarvestLinesAppend | src/byteblower_threads.py:76-84 | the same for raw lines: the counters of a concatenated output are those of its two parts, in order |
| Threads.HarvestSkipsOther | src/byteblower_threads.py:80-81 | a line that is not a status line changes neither the counters nor the reader's fate, wherever it occurs |
| Threads.HarvestStopsAtMalformed | src/byteblower_threads.py:82 | after a status line with a single token nothing more is read, that line adds no row, and the reader is dead |
| Threads.HarvestSamples | src/byteblower_threads.py:82-83 | a run of well-formed status lines appends exactly their rows, in order, and the reader survives |
| Threads.EpThread.constructor | src/byteblower_threads.py:51-62 | a new endpoint thread has no counters, no process and no stop request |
| Threads.EpThread.Step | src/byteblower_threads.py:78-83 | one iteration appends the row of a status line, leaves the counters alone otherwise, and dies on a malformed status line |
| Threads.EpThread.Run | src/byteblower_threads.py:70-84 | the endpoint is started with its command line; unless stopped beforehand, the counters grow by exactly the rows of the output read until the reader dies or the output ends, and the thread dies exactly when a malformed status line was read |
| Threads.EpThread.Stop | src/byteblower_threads.py:64-68 | sets the stop event, keeps the counters, and terminates the process exactly when one was started |
| Threads.ClassifyServerLinePadded | src/byteblower_threads.py:39-45 | whitespace around a controller line does not change what it means to the scan |
| Threads.ClassifyServerLineReportsFailure | src/byteblower_threads.py:39-45 | a line that holds `Failed to initialize scenario` anywhere, whatever surrounds it, ends the scan as failed and is kept whole, stripped |
| Threads.ScanFromFirst | src/byteblower_threads.py:38-46 | the scan is still pending exactly when no line from the start on stops it; otherwise it stops at a stopping line with only progress lines before it |
| Threads.ScanFindsFirst | src/byteblower_threads.py:38-46 | the first stopping line is the one where the scan stops, with its own outcome |
| Threads.ScanIgnoresLater | src/byteblower_threads.py:41-45 | output after the line that stopped the scan does not change the outcome |
| Threads.ServerThread.constructor | src/byteblower_threads.py:14-25 | a new server thread has no failure, no process and no stop request |
| Threads.ServerThread.Run | src/byteblower_threads.py:33-46 | the controller is started with its command line; unless stopped beforehand, the thread stops at the first stopping line of the output, and records the failure line exactly when that line reports a failed initialisation |
| Threads.ServerThread.Stop | src/byteblower_threads.py:27-31 | sets the stop event and terminates the controller exactly when it was started |
| PyRe.MatchAt | src/byteblower_threads.py:82 | a match found at a position is digits, a dot and digits that cannot be extended to the right |
| PyRe.MatchAtComplete | src/byteblower_threads.py:82 | every such greedy match is the one found at its start |
| PyRe.FindDecimalsLeftmost | src/byteblower_threads.py:82 | the first match is the leftmost position where the pattern matches, taken greedily, and the scan resumes right after it, so no match is skipped and matches do not overlap |
| PyRe.FindDecimalsNoMatch | src/byteblower_threads.py:82 | a string where the pattern matches at no position yields no match |
| PyRe.FindDecimalsAddress | src/byteblower_threads.py:82 | the dotted address `192.168.0.3` yields `192.168` and `0.3` |
| PyRe.FindDecimalsWhole | src/byteblower_threads.py:82 | a lone decimal is found whole |
| PyRe.FindDecimalsNoDot | src/byteblower_threads.py:82 | a string without a dot holds no match |
| PyRe.FindDecimalsSeparated | src/byteblower_threads.py:82 | no match runs across a character that is neither a digit nor a dot: scanning splits over it |
| PyRe.FindDecimalsJoin | src/byteblower_threads.py:82 | scanning words joined by single spaces finds the matches of each word, in order |
| PyRe.FindInWordsNoDot | src/byteblower_threads.py:82 | words without a dot hold no match |
| PyStr.TrimLeftSuffix | src/byteblower_threads.py:78 | stripping on the left removes a whitespace head and keeps the rest |
| PyStr.TrimRightPrefix | src/byteblower_threads.py:78 | stripping on the right removes a whitespace tail and keeps the rest |
| PyStr.StripEnds | src/byteblower_threads.py:39 | a stripped line starts and ends with a non-whitespace character |
| PyStr.StripFramed | src/byteblower_threads.py:39 | stripping removes only whitespace, and only at the two ends |
| PyStr.StripPadded | src/byteblower_threads.py:39 | whitespace around a string does not change what it strips to |
| PyStr.StripKeepsInner | src/byteblower_threads.py:39 | text that starts and ends with a non-whitespace character survives stripping whole |
| PyStr.Split | src/byteblower_threads.py:82 | the tokens of a line are non-empty and hold no whitespace |
| PyStr.SplitJoin | src/byteblower_threads.py:82 | splitting tokens joined by single spaces gives the tokens back |
| PyStr.ForwardSlashes | src/byteblower_handler.py:37 | the normalised path has the input's length, every backslash becomes a slash and nothing else changes |
| PyStr.ForwardSlashesIdempotent | src/byteblower_handler.py:37 | normalising a normalised path changes nothing |
| PyStr.ForwardSlashesAppend | src/byteblower_handler.py:71 | normalising a concatenation normalises each part |
| PyStr.SplitExt | src/byteblower_handler.py:71 | root and extension concatenate to the path; the extension is empty or a dot followed by no dot or separator, and it is taken only when the base name before it is not all dots |
| PyStr.RFind | tests/test_byteblower_xml.py:46 | the index found holds the separator and no later index does; -1 when there is none |
| PyStr.LastFieldTail | tests/test_byteblower_xml.py:46 | the last field is a tail of the string without the separator, preceded by the separator unless it is the whole string |
| PyStr.ParseIntShowInt | tests/test_byteblower_xml.py:46 | `int(str(n)) == n` for every integer |
| PyStr.ParseIntNeedsDigit | tests/test_byteblower_xml.py:39 | `int()` of a string without a decimal digit raises |
| Dicts.Put | tests/test_byteblower_xml.py:41-47 | an assignment stores the value under the key, keeps an existing key in its place and appends a new key at the end |
| Dicts.PutSame | tests/test_byteblower_xml.py:43-47 | assigning the value a key already holds changes nothing |
| Dicts.PutPut | tests/test_byteblower_xml.py:41 | a second assignment to the same key overwrites the first |
| IntendedRate.FindTemplateFirst | tests/test_byteblower_xml.py:44 | there is no template exactly when none has the flow's name; otherwise it is the first with that name |
| IntendedRate.PyIndex | tests/test_byteblower_xml.py:47 | a list of length `len` has an element at `n` exactly when `-len <= n < len`, found at `n` or `n + len` |
| IntendedRate.FrameIndexOf | tests/test_byteblower_xml.py:46 | a frame reference `<prefix>.<n>` selects frame `n`, whatever the prefix holds |
| IntendedRate.ResolveFlowCases | tests/test_byteblower_xml.py:43-47 | a flow fails as missing exactly when no template of the document has its name; otherwise its entry holds the first template of that name, and a frame exactly when the index after the last `.` of its frame reference is an integer, the frame Python indexing selects; an index that selects no frame fails the flow |
| IntendedRate.FillFlowsComplete | tests/test_byteblower_xml.py:42-47 | when every flow resolves with a frame, the port records exactly the old flows plus the named ones, each under its own name |
| IntendedRate.FillFlowsRepeat | tests/test_byteblower_xml.py:42-47 | naming a flow again changes nothing: a duplicate flow is counted once |
| IntendedRate.FillFlowsFails | tests/test_byteblower_xml.py:44-49 | the first flow that raises decides the outcome: its error is the error of the whole port |
| IntendedRate.PortsFromKeys | tests/test_byteblower_xml.py:37-49 | the table records exactly the ports whose `physicalInterfaceId` is an integer |
| IntendedRate.PortsFromFlowsOk | tests/test_byteblower_xml.py:37-49 | the first pass succeeds only when the flows of every counted port are recorded without raising |
| IntendedRate.PortsFromOk | tests/test_byteblower_xml.py:37-49 | conversely, the first pass succeeds whenever the flows of every counted port are recorded without raising |
| IntendedRate.PortsFromUntouched | tests/test_byteblower_xml.py:37-49 | a name that no counted port has keeps what the record held under it |
| IntendedRate.PortsFromVals | tests/test_byteblower_xml.py:37-49 | under a port's name the first pass records the flows of the last counted port of that name |
| IntendedRate.LastCountedExists | tests/test_byteblower_xml.py:37-41 | every counted port shares its name with a last counted port of that name |
| IntendedRate.MbpsTruncates | tests/test_byteblower_xml.py:57-61 | a flow's rate has the sign of its interval, and its magnitude is the exact rate with the fraction dropped |
| IntendedRate.SumFromOk | tests/test_byteblower_xml.py:56-61 | a port's rate is defined exactly when every flow's rate is |
| IntendedRate.RatesFromTable | tests/test_byteblower_xml.py:53-61 | the second pass succeeds exactly when every port's rate does, and stores each port's rate under its name |
| IntendedRate.IntendedRatesTable | tests/test_byteblower_xml.py:24-63 | a successful table has an entry for exactly the counted ports; the entry under a name is the rate of the flows that the last counted port of that name sources, as the first pass records them from the document |
| IntendedRate.IntendedRatesFlows | tests/test_byteblower_xml.py:38-61 | in a successful table, every flow the last counted port of a name sources resolved with its frame, so its flows are recorded once per distinct name with their resolved entries, and the entry is the sum of their rates |
| IntendedRate.PortRateOk | tests/test_byteblower_xml.py:42-61 | a port whose every named flow resolves with a frame and a nonzero interval has its flows recorded and a defined rate |
| IntendedRate.IntendedRatesOk | tests/test_byteblower_xml.py:26-61 | an existing project whose counted ports source only flows that resolve with a frame and a nonzero interval yields a table |
| IntendedRate.PortRateFrames | tests/test_byteblower_xml.py:55-61 | a port's rate is defined only when every recorded flow has its frame |
| IntendedRate.FillFlowsFrames | tests/test_byteblower_xml.py:42-47 | when every recorded flow has its frame, every named flow resolved with its frame |
| IntendedRate.PortRateEmpty | tests/test_byteblower_xml.py:55 | a port without recorded flows rates 0 |
| IntendedRate.FrameBlastingExample | tests/test_byteblower_xml.py:15-21 | a 1500-byte frame every 60000 ns is 200 Mbps |
| IntendedRate.TruncatedPerFlow | tests/test_byteblower_xml.py:59-61 | truncation is per flow: two 0.5 Mbps flows give a port rate of 0, not 1 |
| IntendedRate.LoadConfig | tests/test_byteblower_xml.py:24-63 | the computed table is the intended-rate table of the project, including its error cases |
| IntendedRate.RecordPorts | tests/test_byteblower_xml.py:36-49 | the first pass records the flows of every counted port, in document order |
| IntendedRate.RecordFlows | tests/test_byteblower_xml.py:42-47 | the flows of one port are recorded in order; the flow whose frame index is not an integer ends the port |
| IntendedRate.Totals | tests/test_byteblower_xml.py:52-61 | the second pass stores every port's rate, port by port |
| IntendedRate.PortTotal | tests/test_byteblower_xml.py:55-61 | a port's running total, starting at 0, ends as the sum of its flows' truncated rates, or as the first flow's error |
| Handler.OutputPathShape | src/byteblower_handler.py:71 | the output path is the normalised log-file root followed by `--output`, holds no backslash, and the root is the log file without its extension |
| Handler.ControllerCommandInvocation | src/byteblower_handler.py:68-72 | the controller reads the project, the `CloudShellPoC` scenario and the output path as its three options |
| Handler.DrainedPrefix | src/byteblower_handler.py:83-84 | the echoed lines are the longest prefix of the output without an empty read |
| Handler.DrainedAll | src/byteblower_handler.py:83-84 | an output with no empty line is echoed entirely |
| Handler.ByteBlowerHandler.constructor | src/byteblower_handler.py:19-25 | a new handler knows the client install path and log file, and has no project, command, endpoint thread or process |
| Handler.ByteBlowerHandler.LoadConfig | src/byteblower_handler.py:35-39 | the project becomes the file name with forward slashes; nothing else changes |
| Handler.ByteBlowerHandler.StartTraffic | src/byteblower_handler.py:67-80 | without a project it raises and changes nothing; otherwise it records the controller command, starts the endpoint thread and the controller (through the shell exactly when not blocking); a non-blocking call leaves the run going, and a blocking one ends as a stop does |
| Handler.ByteBlowerHandler.StopTraffic | src/byteblower_handler.py:82-89 | it raises when traffic was never started or the stream is already closed; otherwise it echoes the output up to the first empty read and closes the stream; a nonzero exit code raises `CalledProcessError` with that code and the command and leaves the endpoint thread running; exit code 0 stops the endpoint thread |

## Left out

- Processes, threads and the network: `subprocess.Popen`, the `rpyc` connection to the endpoint host, `threading.Event` waits and timeouts, `join` and daemon threads. A process's output is the parameter sequence of lines. The stop event is checked once per loop iteration, and a stop racing a running loop is not modelled.
- End of output in the reader threads: at end of file `readline` returns an empty string forever. The Python loops keep polling until stopped. The model's loops end when the given lines run out, and the server scan then reports `Pending`.
- Logging and printing. The handler's echoed lines are kept in the `printed` field. The rate table that `load_config` only prints and does not return is the model's result.
- `src/ep_thread.py` is not part of this model. The endpoint thread the handler starts is reduced to its life cycle (`EpState`).
- The handler's `initialize` (ByteBlower API server and meeting point registration), `tearDown`, `get_rt_statistics` and `get_statistics` do nothing the model could state. Lines 41-65 of `load_config` follow a `return` and never run.
- XML parsing. The project is given as parsed records, and every attribute the computation reads is assumed present: the `KeyError` or `AttributeError` of a missing attribute or element is not modelled. `frameInterval` is an integer; a non-numeric value, which `float()` would reject, is not modelled.
- Floating point. The rate is computed exactly and truncated toward zero, as `int()` does; rounding of the float expression near an integer boundary is not modelled.
- The missing-project branch of the test module's `load_config` raises a `NameError` (it formats `self.project` outside a class) rather than the `EnvironmentError` it builds. Either way the computation fails; the model reports `ConfigNotFound` with the normalised path.
- Dictionary order. Python 2 iterates dictionaries in hash order; the model iterates in insertion order. The totals do not depend on it, but which error is reported first when several flows fail can; the model does not prove the order independence.
- `shell=True` is recorded as a flag; how a shell would interpret the command list is not modelled. `os.path` is taken to be `ntpath`, the Windows flavour, where both `\` and `/` separate path components.
- Stopping a thread. Both `stop` methods call `join` before `terminate`. In Python, `join` on a thread that never started raises `RuntimeError`, and a thread whose `run` ended before it created its process (the endpoint connection failed) has no process to terminate, so `terminate` raises `AttributeError`. The model's `Stop` does not wait for the thread; it returns `false` instead of raising when no process was started.
- Command lines are read as `-name value` options followed by positional arguments (`ReadArgs`). This is an assumption about the controller client and the endpoint executable, whose argument parsing is not part of this model; under it, a meeting point address starting with `-` would be read as an option.
- Python 2 strings are byte strings; whitespace is space, tab, newline, carriage return, vertical tab and form feed. No encoding is modelled.
