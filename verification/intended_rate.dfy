/**
 * The intended transmit rate of every ByteBlower port of a project file,
 * in Mbps, as `load_config` of the test module computes it.
 *
 * A port counts when its `physicalInterfaceId` is an integer. Each flow the
 * port sources is resolved to the first flow template of that name, and the
 * template to a frame by the integer after the last `.` of its frame
 * reference. A flow's rate is 10^9 / frameInterval frames per second of
 * (hex length / 2) bytes, in megabits, truncated toward zero; a port's rate
 * is the sum of its flows' rates.
 */
module IntendedRate {
  import opened Wrappers
  import opened PyStr
  import opened Dicts

  // ---------------------------------------------------------------------
  // The project document

  datatype GuiPort = GuiPort(name: string, physicalInterfaceId: string, theSourceOfFlow: string)

  /** `frameInterval` is in nanoseconds; `frame` names a frame as `<prefix>.<index>`. */
  datatype FlowTemplate = FlowTemplate(flow: string, frameInterval: int, frame: string)

  datatype Frame = Frame(bytesHexString: string)

  /** The `ByteBlowerGuiPort`, `FlowTemplate` and `Frame` elements, in document order. */
  datatype Document = Document(ports: seq<GuiPort>, templates: seq<FlowTemplate>, frames: seq<Frame>)

  /** Why the computation raises instead of producing a table. */
  datatype LoadError =
    | ConfigNotFound(path: string)            // no file at the normalised path
    | NoTemplate(flow: string)                // no flow template of that name: `[0]` of an empty list
    | FrameOutOfRange(index: int)             // the frame index is outside the frame list
    | FrameMissing(port: string, flow: string)  // the frame index was not an integer: no 'frame' key
    | ZeroInterval(flow: string)              // a zero frame interval: division by zero

  /** What the first pass records for one flow; `frame` is absent when its index was not an integer. */
  datatype Entry = Entry(template: FlowTemplate, frame: Option<Frame>)

  type Flows = Dict<Entry>
  type Ports = Dict<Flows>

  ghost predicate ValidPorts(ports: Ports) {
    Valid(ports) && forall n :: n in ports.vals ==> Valid(ports.vals[n])
  }

  // ---------------------------------------------------------------------
  // Resolving one flow

  /** The first template of the document named `flow`. */
  function FindTemplate(templates: seq<FlowTemplate>, flow: string): Option<FlowTemplate>
    decreases |templates|
  {
    if templates == [] then None
    else if templates[0].flow == flow then Some(templates[0])
    else FindTemplate(templates[1..], flow)
  }

  /** There is no template exactly when none has the name; otherwise it is the first that has it. */
  lemma {:induction false} FindTemplateFirst(templates: seq<FlowTemplate>, flow: string)
    ensures FindTemplate(templates, flow).None? <==> forall n :: 0 <= n < |templates| ==> templates[n].flow != flow
    ensures FindTemplate(templates, flow).Some? ==> (FindTemplate(templates, flow).value.flow == flow &&
      exists n :: 0 <= n < |templates| && templates[n] == FindTemplate(templates, flow).value &&
        forall m :: 0 <= m < n ==> templates[m].flow != flow)
    decreases |templates|
  {
    if templates != [] && templates[0].flow != flow {
      FindTemplateFirst(templates[1..], flow);
      assert forall n :: 1 <= n < |templates| ==> templates[n] == templates[1..][n - 1];
      if FindTemplate(templates, flow).Some? {
        var n :| 0 <= n < |templates[1..]| && templates[1..][n] == FindTemplate(templates, flow).value &&
          forall m :: 0 <= m < n ==> templates[1..][m].flow != flow;
        assert templates[n + 1] == FindTemplate(templates, flow).value;
        assert forall m :: 0 <= m < n + 1 ==> templates[m].flow != flow by {
          forall m | 0 <= m < n + 1 ensures templates[m].flow != flow {
            if m > 0 { assert templates[m] == templates[1..][m - 1]; }
          }
        }
      }
    } else if templates != [] {
      assert templates[0] == FindTemplate(templates, flow).value;
    }
  }

  /** Python indexing of a list of length `len`: negative indices count from the end. */
  function PyIndex(len: nat, n: int): (k: Option<nat>)
    ensures k.Some? <==> 0 <= n + len && n < len
    ensures k.Some? ==> k.value < len && (k.value == n || k.value == n + len)
  {
    if 0 <= n < len then Some(n)
    else if 0 <= n + len && n < 0 then Some(n + len)
    else None
  }

  /** The frame index a template refers to: `int(frame.split('.')[-1])`. */
  function FrameIndex(t: FlowTemplate): Option<int> {
    ParseInt(LastField(t.frame, '.'))
  }

  /**
   * The record of one flow. A missing template or a frame index outside the
   * frame list raises; an index that is not an integer leaves the flow
   * without a frame.
   */
  function ResolveFlow(doc: Document, flow: string): Result<Entry, LoadError> {
    match FindTemplate(doc.templates, flow)
    case None => Failure(NoTemplate(flow))
    case Some(t) =>
      match FrameIndex(t)
      case None => Success(Entry(t, None))
      case Some(n) =>
        match PyIndex(|doc.frames|, n)
        case None => Failure(FrameOutOfRange(n))
        case Some(k) => Success(Entry(t, Some(doc.frames[k])))
  }

  // ---------------------------------------------------------------------
  // First pass: the flows of every port

  /** The port's `physicalInterfaceId` is an integer. */
  predicate Counted(p: GuiPort) {
    ParseInt(p.physicalInterfaceId).Some?
  }

  /**
   * Records the flows `names` of one port into `d`, in order. A flow whose
   * frame index is not an integer is recorded without a frame and ends the
   * port: the `ValueError` leaves the port's loop.
   */
  function FillFlows(doc: Document, names: seq<string>, d: Flows): (r: Result<Flows, LoadError>)
    requires Valid(d)
    ensures r.Success? ==> Valid(r.value)
    decreases |names|
  {
    if names == [] then Success(d)
    else
      match ResolveFlow(doc, names[0])
      case Failure(e) => Failure(e)
      case Success(entry) =>
        var d' := Put(d, names[0], entry);
        if entry.frame.None? then Success(d') else FillFlows(doc, names[1..], d')
  }

  /** Records every counted port of `ports` into `acc`, in order; a later port of the same name replaces an earlier one. */
  function PortsFrom(doc: Document, ports: seq<GuiPort>, acc: Ports): (r: Result<Ports, LoadError>)
    requires ValidPorts(acc)
    ensures r.Success? ==> ValidPorts(r.value)
    decreases |ports|
  {
    if ports == [] then Success(acc)
    else if !Counted(ports[0]) then PortsFrom(doc, ports[1..], acc)
    else
      match FillFlows(doc, Split(ports[0].theSourceOfFlow), Empty())
      case Failure(e) => Failure(e)
      case Success(flows) => PortsFrom(doc, ports[1..], Put(acc, ports[0].name, flows))
  }

  // ---------------------------------------------------------------------
  // Second pass: rates

  /**
   * `int(1e9 / interval * bytes * 8 / 1e6)` computed exactly: the quotient
   * of 8000 * bytes by the interval, truncated toward zero.
   */
  function Mbps(interval: int, bytes: nat): int
    requires interval != 0
  {
    if interval > 0 then 8000 * bytes / interval else -(8000 * bytes / -interval)
  }

  /**
   * The rate has the sign of the interval, and its magnitude is the exact
   * rate with the fraction dropped.
   */
  lemma MbpsTruncates(interval: int, bytes: nat)
    requires interval != 0
    ensures Mbps(interval, bytes) * interval >= 0
    ensures Abs(Mbps(interval, bytes)) * Abs(interval) <= 8000 * bytes < (Abs(Mbps(interval, bytes)) + 1) * Abs(interval)
  {
  }

  function Abs(n: int): nat {
    if n < 0 then -n else n
  }

  /** The rate of one recorded flow of `port`: its frame is `len(hex) / 2` bytes long. */
  function FlowRate(port: string, flow: string, e: Entry): Result<int, LoadError> {
    if e.frame.None? then Failure(FrameMissing(port, flow))
    else if e.template.frameInterval == 0 then Failure(ZeroInterval(flow))
    else Success(Mbps(e.template.frameInterval, |e.frame.value.bytesHexString| / 2))
  }

  /** The sum of the rates of the recorded flows of `port` from the `m`-th on; the first failing flow raises. */
  function SumFrom(port: string, flows: Flows, m: nat): Result<int, LoadError>
    requires Valid(flows) && m <= |flows.keys|
    decreases |flows.keys| - m
  {
    if m == |flows.keys| then Success(0)
    else
      match FlowRate(port, flows.keys[m], flows.vals[flows.keys[m]])
      case Failure(e) => Failure(e)
      case Success(x) =>
        match SumFrom(port, flows, m + 1)
        case Failure(e) => Failure(e)
        case Success(y) => Success(x + y)
  }

  /** The rate of a port: the sum over its recorded flows, each flow once. */
  function PortRate(port: string, flows: Flows): Result<int, LoadError>
    requires Valid(flows)
  {
    SumFrom(port, flows, 0)
  }

  /** `tx` with the port's rate stored under `name`, unless computing it raised. */
  function WithRate(tx: Dict<int>, name: string, rate: Result<int, LoadError>): (r: Result<Dict<int>, LoadError>)
    requires Valid(tx)
    ensures r.Success? ==> Valid(r.value)
  {
    match rate
    case Failure(e) => Failure(e)
    case Success(x) => Success(Put(tx, name, x))
  }

  /** Adds the rates of the ports `names` to `acc`, in order. */
  function RatesFrom(ports: Ports, names: seq<string>, acc: Dict<int>): (r: Result<Dict<int>, LoadError>)
    requires ValidPorts(ports) && Valid(acc)
    requires forall n :: n in names ==> n in ports.vals
    ensures r.Success? ==> Valid(r.value)
    decreases |names|
  {
    if names == [] then Success(acc)
    else
      match WithRate(acc, names[0], PortRate(names[0], ports.vals[names[0]]))
      case Failure(e) => Failure(e)
      case Success(acc') => RatesFrom(ports, names[1..], acc')
  }

  /** The intended rate of every counted port of the project at `fileName`. */
  function IntendedRates(fileName: string, present: set<string>, doc: Document): Result<Dict<int>, LoadError> {
    var project := ForwardSlashes(fileName);
    if project !in present then Failure(ConfigNotFound(project))
    else
      match PortsFrom(doc, doc.ports, Empty())
      case Failure(e) => Failure(e)
      case Success(ports) => RatesFrom(ports, ports.keys, Empty())
  }

  // ---------------------------------------------------------------------
  // The computation

  /**
   * Computes the intended-rate table: a first pass records the flows of
   * every counted port, a second pass sums their rates port by port. The
   * file system is given as the set of paths that exist and the parsed
   * project as `doc`.
   */
  method LoadConfig(fileName: string, present: set<string>, doc: Document) returns (r: Result<Dict<int>, LoadError>)
    ensures r == IntendedRates(fileName, present, doc)
  {
    var project := ForwardSlashes(fileName);
    if project !in present {
      return Failure(ConfigNotFound(project));
    }
    var recorded := RecordPorts(doc);
    match recorded
    case Failure(e) =>
      return Failure(e);
    case Success(ports) =>
      r := Totals(ports);
  }

  /** The first pass over the ports of the document. */
  method RecordPorts(doc: Document) returns (r: Result<Ports, LoadError>)
    ensures r == PortsFrom(doc, doc.ports, Empty())
  {
    var ports: Ports := Empty();
    var i := 0;
    while i < |doc.ports|
      invariant 0 <= i <= |doc.ports| && ValidPorts(ports)
      invariant PortsFrom(doc, doc.ports, Empty()) == PortsFrom(doc, doc.ports[i..], ports)
    {
      var port := doc.ports[i];
      assert doc.ports[i..][1..] == doc.ports[i + 1..];
      if ParseInt(port.physicalInterfaceId).Some? {
        var flows := RecordFlows(doc, Split(port.theSourceOfFlow));
        match flows
        case Failure(e) =>
          return Failure(e);
        case Success(d) =>
          ports := Put(ports, port.name, d);
      }
      i := i + 1;
    }
    return Success(ports);
  }

  /** The flows of one port; a frame index that is not an integer leaves the loop. */
  method RecordFlows(doc: Document, names: seq<string>) returns (r: Result<Flows, LoadError>)
    ensures r == FillFlows(doc, names, Empty())
  {
    var flows: Flows := Empty();
    var j := 0;
    while j < |names|
      invariant 0 <= j <= |names| && Valid(flows)
      invariant FillFlows(doc, names, Empty()) == FillFlows(doc, names[j..], flows)
    {
      assert names[j..][1..] == names[j + 1..];
      var resolved := ResolveFlow(doc, names[j]);
      match resolved
      case Failure(e) =>
        return Failure(e);
      case Success(entry) =>
        flows := Put(flows, names[j], entry);
        if entry.frame.None? {
          return Success(flows);
        }
      j := j + 1;
    }
    return Success(flows);
  }

  /** The second pass: every port's total, accumulated in the table. */
  method Totals(ports: Ports) returns (r: Result<Dict<int>, LoadError>)
    requires ValidPorts(ports)
    ensures r == RatesFrom(ports, ports.keys, Empty())
  {
    var tx: Dict<int> := Empty();
    var k := 0;
    while k < |ports.keys|
      invariant 0 <= k <= |ports.keys| && Valid(tx)
      invariant RatesFrom(ports, ports.keys, Empty()) == RatesFrom(ports, ports.keys[k..], tx)
    {
      var name := ports.keys[k];
      assert ports.keys[k..][1..] == ports.keys[k + 1..];
      var rate := PortTotal(name, ports.vals[name]);
      match rate
      case Failure(e) =>
        return Failure(e);
      case Success(total) =>
        tx := Put(tx, name, total);
      k := k + 1;
    }
    return Success(tx);
  }

  /** The port's total starts at 0 and the rate of each of its flows is added to it. */
  method PortTotal(name: string, flows: Flows) returns (r: Result<int, LoadError>)
    requires Valid(flows)
    ensures r == PortRate(name, flows)
  {
    var total := 0;
    var m := 0;
    while m < |flows.keys|
      invariant 0 <= m <= |flows.keys|
      invariant PortRate(name, flows) == Plus(total, SumFrom(name, flows, m))
    {
      PlusStep(name, flows, m, total);
      var rate := FlowRate(name, flows.keys[m], flows.vals[flows.keys[m]]);
      match rate
      case Failure(e) =>
        return Failure(e);
      case Success(x) =>
        total := total + x;
      m := m + 1;
    }
    return Success(total);
  }

  /** `n` added to a sum that may have raised. */
  function Plus(n: int, r: Result<int, LoadError>): Result<int, LoadError> {
    match r
    case Failure(e) => Failure(e)
    case Success(x) => Success(n + x)
  }

  /** One more flow of the running sum: its rate is added to the total, or its failure is the result. */
  lemma PlusStep(port: string, flows: Flows, m: nat, total: int)
    requires Valid(flows) && m < |flows.keys|
    ensures Plus(total, SumFrom(port, flows, m)) ==
      match FlowRate(port, flows.keys[m], flows.vals[flows.keys[m]])
      case Failure(e) => Failure(e)
      case Success(x) => Plus(total + x, SumFrom(port, flows, m + 1))
  {
  }

  // ---------------------------------------------------------------------
  // Properties

  /**
   * A flow fails as missing exactly when no template of the document has its
   * name. Otherwise its entry holds the first template with that name, and
   * a frame exactly when the index after the last `.` of the template's frame
   * reference is an integer; that frame is the one Python indexing selects.
   * An index that selects nothing fails the flow.
   */
  lemma ResolveFlowCases(doc: Document, flow: string)
    ensures ResolveFlow(doc, flow) == Failure(NoTemplate(flow)) <==>
      forall n :: 0 <= n < |doc.templates| ==> doc.templates[n].flow != flow
    ensures ResolveFlow(doc, flow).Success? ==>
      var e := ResolveFlow(doc, flow).value;
      (exists n :: 0 <= n < |doc.templates| && doc.templates[n] == e.template && e.template.flow == flow &&
        forall m :: 0 <= m < n ==> doc.templates[m].flow != flow) &&
      (e.frame.None? <==> ParseInt(LastField(e.template.frame, '.')).None?) &&
      (e.frame.Some? ==> exists k :: (0 <= k < |doc.frames| && e.frame.value == doc.frames[k] &&
        var i := ParseInt(LastField(e.template.frame, '.')).value; k == i || k == i + |doc.frames|))
    ensures ResolveFlow(doc, flow).Failure? && ResolveFlow(doc, flow).error.FrameOutOfRange? ==>
      var i := ResolveFlow(doc, flow).error.index;
      (i < -|doc.frames| || |doc.frames| <= i) &&
      exists n :: 0 <= n < |doc.templates| && doc.templates[n].flow == flow && FrameIndex(doc.templates[n]) == Some(i)
  {
    FindTemplateFirst(doc.templates, flow);
    match FindTemplate(doc.templates, flow)
    case None =>
    case Some(t) =>
      assert ResolveFlow(doc, flow).Success? || ResolveFlow(doc, flow).error.FrameOutOfRange?;
      match FrameIndex(t)
      case None =>
        assert ResolveFlow(doc, flow) == Success(Entry(t, None));
      case Some(i) =>
        var k := PyIndex(|doc.frames|, i);
        assert ResolveFlow(doc, flow) == if k.None? then Failure(FrameOutOfRange(i)) else Success(Entry(t, Some(doc.frames[k.value])));
  }

  /** A frame reference `<prefix>.<n>` selects frame `n`, whatever the prefix holds. */
  lemma FrameIndexOf(flow: string, interval: int, prefix: string, n: int)
    ensures FrameIndex(FlowTemplate(flow, interval, prefix + "." + ShowInt(n))) == Some(n)
  {
    var s := ShowInt(n);
    var f := prefix + "." + s;
    assert forall k :: 0 <= k < |s| ==> s[k] != '.' by {
      if n < 0 {
        assert s == "-" + ShowNat(-n);
        assert forall k :: 1 <= k < |s| ==> s[k] == ShowNat(-n)[k - 1];
      }
    }
    var r := LastField(f, '.');
    LastFieldTail(f, '.');
    assert f[|prefix|] == '.';
    assert r == f[|f| - |s|..] == s;
    ParseIntShowInt(n);
  }

  /** Flows are recorded in the order given; once every one of them resolves with a frame, all are recorded, each under its own name. */
  lemma {:induction false} FillFlowsComplete(doc: Document, names: seq<string>, d: Flows)
    requires Valid(d)
    requires forall f :: f in names ==> ResolveFlow(doc, f).Success? && ResolveFlow(doc, f).value.frame.Some?
    ensures FillFlows(doc, names, d).Success?
    ensures forall f :: f in FillFlows(doc, names, d).value.vals <==> f in d.vals || f in names
    ensures forall f :: f in names ==> FillFlows(doc, names, d).value.vals[f] == ResolveFlow(doc, f).value
    ensures forall f :: f in d.vals && f !in names ==> FillFlows(doc, names, d).value.vals[f] == d.vals[f]
    decreases |names|
  {
    if names != [] {
      var d' := Put(d, names[0], ResolveFlow(doc, names[0]).value);
      assert forall f :: f in names[1..] ==> f in names;
      FillFlowsComplete(doc, names[1..], d');
      assert forall f :: f in names ==> f == names[0] || f in names[1..];
    }
  }

  /** Naming a flow again, once it is recorded with its frame, changes nothing: it is counted once. */
  lemma FillFlowsRepeat(doc: Document, flow: string, rest: seq<string>, d: Flows)
    requires Valid(d) && flow in d.vals && d.vals[flow].frame.Some?
    requires ResolveFlow(doc, flow) == Success(d.vals[flow])
    ensures FillFlows(doc, [flow] + rest, d) == FillFlows(doc, rest, d)
  {
    PutSame(d, flow);
    assert ([flow] + rest)[1..] == rest;
  }

  /** The first flow that raises decides the port: a flow without a template makes the whole table fail. */
  lemma {:induction false} FillFlowsFails(doc: Document, names: seq<string>, d: Flows, i: nat)
    requires Valid(d) && i < |names|
    requires forall n :: 0 <= n < i ==> ResolveFlow(doc, names[n]).Success? && ResolveFlow(doc, names[n]).value.frame.Some?
    requires ResolveFlow(doc, names[i]).Failure?
    ensures FillFlows(doc, names, d) == Failure(ResolveFlow(doc, names[i]).error)
    decreases i
  {
    if i > 0 {
      var d' := Put(d, names[0], ResolveFlow(doc, names[0]).value);
      assert forall n :: 0 <= n < i - 1 ==> names[1..][n] == names[n + 1];
      assert names[1..][i - 1] == names[i];
      FillFlowsFails(doc, names[1..], d', i - 1);
      FillFlowsStep(doc, names, d);
    } else {
      FillFlowsStop(doc, names, d);
    }
  }

  /** A flow that resolves with a frame is recorded and the next one follows. */
  lemma FillFlowsStep(doc: Document, names: seq<string>, d: Flows)
    requires Valid(d) && names != []
    requires ResolveFlow(doc, names[0]).Success? && ResolveFlow(doc, names[0]).value.frame.Some?
    ensures FillFlows(doc, names, d) == FillFlows(doc, names[1..], Put(d, names[0], ResolveFlow(doc, names[0]).value))
  {
  }

  /** A flow that raises ends the port with its error. */
  lemma FillFlowsStop(doc: Document, names: seq<string>, d: Flows)
    requires Valid(d) && names != [] && ResolveFlow(doc, names[0]).Failure?
    ensures FillFlows(doc, names, d) == Failure(ResolveFlow(doc, names[0]).error)
  {
  }

  /** The table records exactly the ports whose `physicalInterfaceId` is an integer. */
  lemma {:induction false} PortsFromKeys(doc: Document, ports: seq<GuiPort>, acc: Ports)
    requires ValidPorts(acc) && PortsFrom(doc, ports, acc).Success?
    ensures forall n :: n in PortsFrom(doc, ports, acc).value.vals <==>
      n in acc.vals || exists p :: p in ports && Counted(p) && p.name == n
    decreases |ports|
  {
    if ports != [] {
      assert forall p :: p in ports <==> p == ports[0] || p in ports[1..];
      if !Counted(ports[0]) {
        PortsFromKeys(doc, ports[1..], acc);
      } else {
        var flows := FillFlows(doc, Split(ports[0].theSourceOfFlow), Empty()).value;
        PortsFromKeys(doc, ports[1..], Put(acc, ports[0].name, flows));
      }
    }
  }

  /** The port at `i` is counted, and no counted port after it has its name. */
  predicate LastCounted(ports: seq<GuiPort>, i: int) {
    0 <= i < |ports| && Counted(ports[i]) &&
    forall j :: i < j < |ports| ==> !(Counted(ports[j]) && ports[j].name == ports[i].name)
  }

  /** What the first pass holds after port `p`, once its flows are recorded. */
  function Advance(doc: Document, p: GuiPort, acc: Ports): Ports
    requires ValidPorts(acc)
    requires !Counted(p) || FillFlows(doc, Split(p.theSourceOfFlow), Empty()).Success?
  {
    if Counted(p) then Put(acc, p.name, FillFlows(doc, Split(p.theSourceOfFlow), Empty()).value) else acc
  }

  /** The ports that follow the first one, and what the first pass holds after it. */
  lemma PortsFromStep(doc: Document, ports: seq<GuiPort>, acc: Ports)
    requires ValidPorts(acc) && ports != []
    requires !Counted(ports[0]) || FillFlows(doc, Split(ports[0].theSourceOfFlow), Empty()).Success?
    ensures ValidPorts(Advance(doc, ports[0], acc))
    ensures PortsFrom(doc, ports, acc) == PortsFrom(doc, ports[1..], Advance(doc, ports[0], acc))
  {
  }

  /** Every counted port's name is that of a last counted port, so the table covers it. */
  lemma {:induction false} LastCountedExists(ports: seq<GuiPort>, i: nat)
    requires i < |ports| && Counted(ports[i])
    ensures exists j :: LastCounted(ports, j) && ports[j].name == ports[i].name
    decreases |ports| - i
  {
    if !LastCounted(ports, i) {
      var j :| i < j < |ports| && Counted(ports[j]) && ports[j].name == ports[i].name;
      LastCountedExists(ports, j);
    }
  }

  /** The first pass succeeds only when the flows of every counted port do. */
  lemma {:induction false} PortsFromFlowsOk(doc: Document, ports: seq<GuiPort>, acc: Ports)
    requires ValidPorts(acc) && PortsFrom(doc, ports, acc).Success?
    ensures forall i :: 0 <= i < |ports| && Counted(ports[i]) ==>
      FillFlows(doc, Split(ports[i].theSourceOfFlow), Empty()).Success?
    decreases |ports|
  {
    if ports != [] {
      PortsFromStep(doc, ports, acc);
      PortsFromFlowsOk(doc, ports[1..], Advance(doc, ports[0], acc));
      assert forall i :: 1 <= i < |ports| ==> ports[i] == ports[1..][i - 1];
    }
  }

  /** Conversely, the first pass succeeds when the flows of every counted port do. */
  lemma {:induction false} PortsFromOk(doc: Document, ports: seq<GuiPort>, acc: Ports)
    requires ValidPorts(acc)
    requires forall i :: 0 <= i < |ports| && Counted(ports[i]) ==>
      FillFlows(doc, Split(ports[i].theSourceOfFlow), Empty()).Success?
    ensures PortsFrom(doc, ports, acc).Success?
    decreases |ports|
  {
    if ports != [] {
      PortsFromStep(doc, ports, acc);
      var tail := ports[1..];
      forall i | 0 <= i < |tail| && Counted(tail[i])
        ensures FillFlows(doc, Split(tail[i].theSourceOfFlow), Empty()).Success?
      {
        assert tail[i] == ports[i + 1];
      }
      PortsFromOk(doc, tail, Advance(doc, ports[0], acc));
    }
  }

  /** A name no counted port has keeps what the first pass held under it. */
  lemma {:induction false} PortsFromUntouched(doc: Document, ports: seq<GuiPort>, acc: Ports, n: string)
    requires ValidPorts(acc) && PortsFrom(doc, ports, acc).Success? && n in acc.vals
    requires forall j :: 0 <= j < |ports| ==> !(Counted(ports[j]) && ports[j].name == n)
    ensures n in PortsFrom(doc, ports, acc).value.vals && PortsFrom(doc, ports, acc).value.vals[n] == acc.vals[n]
    decreases |ports|
  {
    if ports != [] {
      PortsFromFlowsOk(doc, ports, acc);
      PortsFromStep(doc, ports, acc);
      assert forall j :: 0 <= j < |ports[1..]| ==> ports[1..][j] == ports[j + 1];
      PortsFromUntouched(doc, ports[1..], Advance(doc, ports[0], acc), n);
    }
  }

  /** Past the first port, the last counted port is one place earlier. */
  lemma LastCountedTail(ports: seq<GuiPort>, i: nat)
    requires LastCounted(ports, i) && 0 < i
    ensures LastCounted(ports[1..], i - 1)
  {
    var tail := ports[1..];
    forall j | i - 1 < j < |tail|
      ensures !(Counted(tail[j]) && tail[j].name == tail[i - 1].name)
    {
      assert tail[j] == ports[j + 1];
    }
  }

  /** When the first port is the last counted one of its name, no later counted port has it. */
  lemma LastCountedHead(ports: seq<GuiPort>)
    requires LastCounted(ports, 0)
    ensures forall j :: 0 <= j < |ports[1..]| ==> !(Counted(ports[1..][j]) && ports[1..][j].name == ports[0].name)
  {
    forall j | 0 <= j < |ports[1..]|
      ensures !(Counted(ports[1..][j]) && ports[1..][j].name == ports[0].name)
    {
      assert ports[1..][j] == ports[j + 1];
    }
  }

  /**
   * Under a port's name the first pass records the flows of the last
   * counted port of that name.
   */
  lemma {:induction false} PortsFromVals(doc: Document, ports: seq<GuiPort>, acc: Ports, i: nat)
    requires ValidPorts(acc) && PortsFrom(doc, ports, acc).Success? && LastCounted(ports, i)
    ensures FillFlows(doc, Split(ports[i].theSourceOfFlow), Empty()).Success?
    ensures ports[i].name in PortsFrom(doc, ports, acc).value.vals
    ensures PortsFrom(doc, ports, acc).value.vals[ports[i].name] == FillFlows(doc, Split(ports[i].theSourceOfFlow), Empty()).value
    decreases i
  {
    assert !Counted(ports[0]) || FillFlows(doc, Split(ports[0].theSourceOfFlow), Empty()).Success?;
    PortsFromStep(doc, ports, acc);
    var next := Advance(doc, ports[0], acc);
    if i == 0 {
      LastCountedHead(ports);
      PortsFromUntouched(doc, ports[1..], next, ports[0].name);
    } else {
      LastCountedTail(ports, i);
      assert ports[1..][i - 1] == ports[i];
      PortsFromVals(doc, ports[1..], next, i - 1);
    }
  }

  /** The second pass succeeds when every port's rate does, and stores each port's rate under its name. */
  lemma {:induction false} RatesFromTable(ports: Ports, names: seq<string>, acc: Dict<int>)
    requires ValidPorts(ports) && Valid(acc)
    requires forall n :: n in names ==> n in ports.vals
    ensures RatesFrom(ports, names, acc).Success? <==> forall n :: n in names ==> PortRate(n, ports.vals[n]).Success?
    ensures RatesFrom(ports, names, acc).Success? ==>
      var tx := RatesFrom(ports, names, acc).value;
      (forall n :: n in tx.vals <==> n in acc.vals || n in names) &&
      (forall n :: n in names ==> tx.vals[n] == PortRate(n, ports.vals[n]).value) &&
      (forall n :: n in acc.vals && n !in names ==> tx.vals[n] == acc.vals[n])
    decreases |names|
  {
    if names != [] {
      assert forall n :: n in names <==> n == names[0] || n in names[1..];
      var rate := PortRate(names[0], ports.vals[names[0]]);
      if rate.Success? {
        RatesFromTable(ports, names[1..], Put(acc, names[0], rate.value));
      }
    }
  }

  /**
   * A successful table has an entry for exactly the ports whose
   * `physicalInterfaceId` is an integer. The entry under a name is the sum
   * of the rates of the distinct flows sourced by the last counted port of
   * that name, as the first pass records them.
   */
  lemma IntendedRatesTable(fileName: string, present: set<string>, doc: Document)
    requires IntendedRates(fileName, present, doc).Success?
    ensures PortsFrom(doc, doc.ports, Empty()).Success?
    ensures
      var ports := PortsFrom(doc, doc.ports, Empty()).value;
      var tx := IntendedRates(fileName, present, doc).value;
      (forall n :: n in tx.vals <==> exists p :: p in doc.ports && Counted(p) && p.name == n) &&
      (forall n :: n in tx.vals ==> n in ports.vals && PortRate(n, ports.vals[n]) == Success(tx.vals[n]))
    ensures forall i :: LastCounted(doc.ports, i) ==>
      var n := doc.ports[i].name;
      var flows := FillFlows(doc, Split(doc.ports[i].theSourceOfFlow), Empty());
      var tx := IntendedRates(fileName, present, doc).value;
      flows.Success? && n in tx.vals && PortRate(n, flows.value) == Success(tx.vals[n])
  {
    var ports := PortsFrom(doc, doc.ports, Empty()).value;
    PortsFromKeys(doc, doc.ports, Empty());
    RatesFromTable(ports, ports.keys, Empty());
    forall i | LastCounted(doc.ports, i)
      ensures FillFlows(doc, Split(doc.ports[i].theSourceOfFlow), Empty()).Success?
      ensures ports.vals[doc.ports[i].name] == FillFlows(doc, Split(doc.ports[i].theSourceOfFlow), Empty()).value
    {
      PortsFromVals(doc, doc.ports, Empty(), i);
    }
  }

  /** A port's rate is defined only when every recorded flow has its frame. */
  lemma PortRateFrames(port: string, flows: Flows)
    requires Valid(flows) && PortRate(port, flows).Success?
    ensures forall f :: f in flows.vals ==> flows.vals[f].frame.Some?
  {
    SumFromOk(port, flows, 0);
    forall f | f in flows.vals
      ensures flows.vals[f].frame.Some?
    {
      var m :| 0 <= m < |flows.keys| && flows.keys[m] == f;
      assert FlowRate(port, flows.keys[m], flows.vals[flows.keys[m]]).Success?;
    }
  }

  /** When every recorded flow has its frame, every named flow resolved with its frame. */
  lemma {:induction false} FillFlowsFrames(doc: Document, names: seq<string>, d: Flows)
    requires Valid(d) && FillFlows(doc, names, d).Success?
    requires forall f :: f in FillFlows(doc, names, d).value.vals ==> FillFlows(doc, names, d).value.vals[f].frame.Some?
    ensures forall f :: f in names ==> ResolveFlow(doc, f).Success? && ResolveFlow(doc, f).value.frame.Some?
    decreases |names|
  {
    if names != [] {
      var entry := ResolveFlow(doc, names[0]).value;
      var d' := Put(d, names[0], entry);
      assert FillFlows(doc, names, d) == if entry.frame.None? then Success(d') else FillFlows(doc, names[1..], d');
      assert d'.vals[names[0]] == entry;
      assert entry.frame.Some?;
      FillFlowsFrames(doc, names[1..], d');
      assert forall f :: f in names ==> f == names[0] || f in names[1..];
    }
  }

  /**
   * In a successful table, every flow that the last counted port of a name
   * sources resolved with its frame. So that port's flows are recorded once
   * per distinct name, each with its resolved entry, and the table's entry is
   * the sum of their rates.
   */
  lemma IntendedRatesFlows(fileName: string, present: set<string>, doc: Document, i: nat)
    requires IntendedRates(fileName, present, doc).Success? && LastCounted(doc.ports, i)
    ensures forall f :: f in Split(doc.ports[i].theSourceOfFlow) ==>
      ResolveFlow(doc, f).Success? && ResolveFlow(doc, f).value.frame.Some?
    ensures FillFlows(doc, Split(doc.ports[i].theSourceOfFlow), Empty()).Success?
    ensures
      var names := Split(doc.ports[i].theSourceOfFlow);
      var flows := FillFlows(doc, names, Empty()).value;
      (forall f :: f in flows.vals <==> f in names) &&
      (forall f :: f in names ==> flows.vals[f] == ResolveFlow(doc, f).value)
  {
    var names := Split(doc.ports[i].theSourceOfFlow);
    IntendedRatesTable(fileName, present, doc);
    var flows := FillFlows(doc, names, Empty()).value;
    PortRateFrames(doc.ports[i].name, flows);
    FillFlowsFrames(doc, names, Empty());
    FillFlowsComplete(doc, names, Empty());
  }

  /** The flow resolves to a template with a nonzero interval and a frame. */
  predicate Rateable(doc: Document, flow: string) {
    ResolveFlow(doc, flow).Success? && ResolveFlow(doc, flow).value.frame.Some? &&
    ResolveFlow(doc, flow).value.template.frameInterval != 0
  }

  /** The flows of a port whose every named flow is rateable are recorded, and their sum is defined. */
  lemma PortRateOk(doc: Document, port: string, names: seq<string>)
    requires forall f :: f in names ==> Rateable(doc, f)
    ensures FillFlows(doc, names, Empty()).Success?
    ensures PortRate(port, FillFlows(doc, names, Empty()).value).Success?
  {
    FillFlowsComplete(doc, names, Empty());
    var flows := FillFlows(doc, names, Empty()).value;
    forall k | 0 <= k < |flows.keys|
      ensures FlowRate(port, flows.keys[k], flows.vals[flows.keys[k]]).Success?
    {
      assert flows.keys[k] in flows.vals;
    }
    SumFromOk(port, flows, 0);
  }

  /**
   * A project that exists, and whose counted ports source only flows that
   * resolve with a frame and a nonzero interval, yields a table.
   */
  lemma IntendedRatesOk(fileName: string, present: set<string>, doc: Document)
    requires ForwardSlashes(fileName) in present
    requires forall p :: p in doc.ports && Counted(p) ==>
      forall f :: f in Split(p.theSourceOfFlow) ==> Rateable(doc, f)
    ensures IntendedRates(fileName, present, doc).Success?
  {
    forall i | 0 <= i < |doc.ports| && Counted(doc.ports[i])
      ensures FillFlows(doc, Split(doc.ports[i].theSourceOfFlow), Empty()).Success?
    {
      assert doc.ports[i] in doc.ports;
      PortRateOk(doc, doc.ports[i].name, Split(doc.ports[i].theSourceOfFlow));
    }
    PortsFromOk(doc, doc.ports, Empty());
    var ports := PortsFrom(doc, doc.ports, Empty()).value;
    PortsFromKeys(doc, doc.ports, Empty());
    forall n | n in ports.keys
      ensures PortRate(n, ports.vals[n]).Success?
    {
      var p :| p in doc.ports && Counted(p) && p.name == n;
      var i :| 0 <= i < |doc.ports| && doc.ports[i] == p;
      LastCountedExists(doc.ports, i);
      var j :| LastCounted(doc.ports, j) && doc.ports[j].name == n;
      PortsFromVals(doc, doc.ports, Empty(), j);
      assert doc.ports[j] in doc.ports;
      PortRateOk(doc, n, Split(doc.ports[j].theSourceOfFlow));
    }
    RatesFromTable(ports, ports.keys, Empty());
  }

  /**
   * A port with no recorded flows rates 0. (A port whose first flow has a
   * frame index that is not an integer records that flow without a frame,
   * and its rate fails with `FrameMissing`.)
   */
  lemma PortRateEmpty(port: string)
    ensures PortRate(port, Empty()) == Success(0)
  {
  }

  /** The rate is the sum of the per-flow rates, each truncated on its own: it is defined exactly when every flow's rate is. */
  lemma {:induction false} SumFromOk(port: string, flows: Flows, m: nat)
    requires Valid(flows) && m <= |flows.keys|
    ensures SumFrom(port, flows, m).Success? <==>
      forall k :: m <= k < |flows.keys| ==> FlowRate(port, flows.keys[k], flows.vals[flows.keys[k]]).Success?
    decreases |flows.keys| - m
  {
    if m < |flows.keys| {
      SumFromOk(port, flows, m + 1);
    }
  }

  /** A 1500-byte frame every 60000 ns is 200 Mbps. */
  lemma FrameBlastingExample(flow: string, ref: string, hex: string)
    requires |hex| == 3000
    ensures FlowRate("port", flow, Entry(FlowTemplate(flow, 60000, ref), Some(Frame(hex)))) == Success(200)
  {
  }

  /**
   * Two flows of one-byte frames every 16000 ns: each is 0.5 Mbps, truncated
   * to 0, so the port rates 0 although one flow sending both frames would
   * rate 1.
   */
  lemma TruncatedPerFlow()
    ensures
      var f := Entry(FlowTemplate("f", 16000, "Frame.0"), Some(Frame("00")));
      var g := Entry(FlowTemplate("g", 16000, "Frame.0"), Some(Frame("00")));
      PortRate("port", Dict(["f", "g"], map["f" := f, "g" := g])) == Success(0) &&
      Mbps(16000, 1 + 1) == 1
  {
    var f := Entry(FlowTemplate("f", 16000, "Frame.0"), Some(Frame("00")));
    var g := Entry(FlowTemplate("g", 16000, "Frame.0"), Some(Frame("00")));
    var flows := Dict(["f", "g"], map["f" := f, "g" := g]);
    assert FlowRate("port", "g", g) == Success(0);
    assert SumFrom("port", flows, 2) == Success(0);
    assert SumFrom("port", flows, 1) == Success(0);
  }
}
