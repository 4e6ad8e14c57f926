/** The request/notify pipeline of a switch port at one simulated instant and over time: queue,
    transmission selection algorithm, gate and transmission selection talk through deferred events
    that are cancelled and scheduled again, so that several notifications merge into one. */
module Pipeline {
  import opened Traces
  import opened LengthAwareQueues

  /** One queue with its algorithm (strict priority) and its gate.  `limit` is what the gate would
      allow right now.  The flags are the pending self-messages of the modules; the sequences hold
      packets between two modules. */
  datatype Lane = Lane(
    express: bool,
    open: bool,
    limit: nat,
    queue: seq<Packet>,
    algorithmNote: bool,
    gateNote: bool,
    gateChanged: bool,
    gateRequest: bool,
    algorithmRequest: Option<nat>,
    queueRequest: Option<nat>,
    toAlgorithm: seq<Packet>,
    toGate: seq<Packet>,
    toSelection: seq<Packet>)

  /** The port: its lanes, the pending self-messages of the transmission selection, and its flags. */
  datatype Port = Port(lanes: seq<Lane>, note: bool, request: bool, fromUs: bool, fromInputs: bool)

  /** The gate is not empty: it is open and the head of the queue fits. */
  predicate Ready(lane: Lane) {
    lane.open && !Blocked(lane.queue, lane.limit)
  }

  // ----- the choice of a gate ---------------------------------------------------------------

  function Highest(lanes: seq<Lane>, expressOnly: bool, n: nat): Option<nat>
    requires n <= |lanes|
  {
    if n == 0 then None
    else if Ready(lanes[n - 1]) && (expressOnly ==> lanes[n - 1].express) then Some(n - 1)
    else Highest(lanes, expressOnly, n - 1)
  }

  lemma {:induction false} HighestIs(lanes: seq<Lane>, expressOnly: bool, n: nat)
    requires n <= |lanes|
    ensures var h := Highest(lanes, expressOnly, n);
      && (h.Some? ==> h.value < n && Ready(lanes[h.value]) && (expressOnly ==> lanes[h.value].express))
      && forall j :: (if h.Some? then h.value + 1 else 0) <= j < n ==>
        !(Ready(lanes[j]) && (expressOnly ==> lanes[j].express))
  {
    if n != 0 {
      HighestIs(lanes, expressOnly, n - 1);
    }
  }

  function Choice(lanes: seq<Lane>): Option<nat> {
    var express := Highest(lanes, true, |lanes|);
    if express.Some? then express else Highest(lanes, false, |lanes|)
  }

  /** Express traffic first, then the highest gate; nothing is chosen only if every gate is empty. */
  lemma ChoiceIsBest(lanes: seq<Lane>)
    ensures Choice(lanes).None? <==> forall j :: 0 <= j < |lanes| ==> !Ready(lanes[j])
    ensures Choice(lanes).Some? ==>
      var i := Choice(lanes).value;
      && i < |lanes| && Ready(lanes[i])
      && forall j :: 0 <= j < |lanes| && Ready(lanes[j]) && j != i ==>
           if lanes[i].express then !lanes[j].express || j < i else !lanes[j].express && j < i
  {
    HighestIs(lanes, true, |lanes|);
    HighestIs(lanes, false, |lanes|);
  }

  // ----- steps ------------------------------------------------------------------------------

  /** The first four come from outside; the others serve pending events. */
  datatype Event =
    | Arrival(lane: nat, packet: Packet, fits: bool)
    | MacRequest
    | Gates(open: seq<bool>, limits: seq<nat>, release: bool)
    | AlgorithmNote(lane: nat)
    | GateNote(lane: nat)
    | GateChanged(lane: nat)
    | SelectionNote
    | SelectionRequest
    | GateRequest(lane: nat)
    | AlgorithmRequest(lane: nat)
    | QueueRequest(lane: nat)
    | ThroughAlgorithm(lane: nat)
    | ThroughGate(lane: nat)
    | ThroughSelection(lane: nat)

  predicate Internal(e: Event) {
    !e.Arrival? && !e.MacRequest? && !e.Gates?
  }

  /** The event is pending and no assertion of the modules fails.  Gate states and limits change
      arbitrarily, except that the limit of a gate that stays open does not grow: see MaxBitNeverGrows. */
  predicate Enabled(p: Port, e: Event) {
    match e
    case Arrival(i, _, _) => i < |p.lanes|
    case MacRequest => true
    case Gates(open, limits, _) =>
      |open| == |limits| == |p.lanes| &&
      forall i :: 0 <= i < |p.lanes| && p.lanes[i].open && open[i] ==> limits[i] <= p.lanes[i].limit
    case AlgorithmNote(i) => i < |p.lanes| && p.lanes[i].algorithmNote
    case GateNote(i) => i < |p.lanes| && p.lanes[i].gateNote
    case GateChanged(i) => i < |p.lanes| && p.lanes[i].gateChanged
    case SelectionNote => p.note
    case SelectionRequest => p.request && !p.fromUs
    case GateRequest(i) => i < |p.lanes| && p.lanes[i].gateRequest && Ready(p.lanes[i])
    case AlgorithmRequest(i) => i < |p.lanes| && p.lanes[i].algorithmRequest.Some?
    case QueueRequest(i) =>
      i < |p.lanes| && p.lanes[i].queueRequest.Some? && !Blocked(p.lanes[i].queue, p.lanes[i].queueRequest.value)
    case ThroughAlgorithm(i) => i < |p.lanes| && p.lanes[i].toAlgorithm != []
    case ThroughGate(i) => i < |p.lanes| && p.lanes[i].toGate != []
    case ThroughSelection(i) => i < |p.lanes| && p.lanes[i].toSelection != [] && p.fromUs
  }

  /** schedulePacket: request a packet from the chosen gate, if there is one. */
  function Requested(lanes: seq<Lane>): seq<Lane> {
    ChoiceIsBest(lanes);
    match Choice(lanes)
    case None => lanes
    case Some(i) => lanes[i := lanes[i].(gateRequest := true)]
  }

  function Scheduled(p: Port): Port {
    p.(lanes := Requested(p.lanes), fromInputs := p.fromInputs && Choice(p.lanes).None?)
  }

  /** The request goes to the best gate that is ready and to no other; without one nothing is asked. */
  lemma BestIsAsked(lanes: seq<Lane>)
    ensures (forall j :: 0 <= j < |lanes| ==> !Ready(lanes[j])) ==> Requested(lanes) == lanes
    ensures (exists j :: 0 <= j < |lanes| && Ready(lanes[j])) ==>
      exists i ::
        && 0 <= i < |lanes| && Ready(lanes[i]) && Requested(lanes) == lanes[i := lanes[i].(gateRequest := true)]
        && forall j :: 0 <= j < |lanes| && Ready(lanes[j]) && j != i ==>
             if lanes[i].express then !lanes[j].express || j < i else !lanes[j].express && j < i
  {
    ChoiceIsBest(lanes);
  }

  function GateSet(lane: Lane, open: bool, limit: nat): Lane {
    lane.(open := open, limit := limit, gateChanged := lane.gateChanged || lane.open != open)
  }

  function GatesSet(lanes: seq<Lane>, open: seq<bool>, limits: seq<nat>): (r: seq<Lane>)
    requires |open| == |limits| == |lanes|
    ensures |r| == |lanes| && forall i :: 0 <= i < |r| ==> r[i] == GateSet(lanes[i], open[i], limits[i])
  {
    if lanes == [] then []
    else [GateSet(lanes[0], open[0], limits[0])] + GatesSet(lanes[1..], open[1..], limits[1..])
  }

  /** With `release` a gate that was open and stays open tells the selection if it has a packet. */
  predicate Released(lanes: seq<Lane>, open: seq<bool>, limits: seq<nat>)
    requires |open| == |limits| == |lanes|
  {
    exists i :: 0 <= i < |lanes| && lanes[i].open && open[i] && !Blocked(lanes[i].queue, limits[i])
  }

  /** What an event does to its own lane. */
  function LaneStep(lane: Lane, e: Event): Lane {
    match e
    case Arrival(_, packet, fits) =>
      lane.(queue := if fits then lane.queue + [packet] else lane.queue, algorithmNote := true)
    case AlgorithmNote(_) => lane.(algorithmNote := false, gateNote := true)
    case GateNote(_) => lane.(gateNote := false)
    case GateChanged(_) => lane.(gateChanged := false)
    case GateRequest(_) => lane.(gateRequest := false, algorithmRequest := Some(lane.limit))
    case AlgorithmRequest(_) => lane.(algorithmRequest := None, queueRequest := lane.algorithmRequest)
    case QueueRequest(_) =>
      if lane.queue == [] then lane
      else lane.(queueRequest := None, queue := lane.queue[1..], toAlgorithm := lane.toAlgorithm + [lane.queue[0]])
    case ThroughAlgorithm(_) =>
      if lane.toAlgorithm == [] then lane
      else lane.(toAlgorithm := lane.toAlgorithm[1..], toGate := lane.toGate + [lane.toAlgorithm[0]])
    case ThroughGate(_) =>
      if lane.toGate == [] then lane
      else lane.(toGate := lane.toGate[1..], toSelection := lane.toSelection + [lane.toGate[0]])
    case ThroughSelection(_) => if lane.toSelection == [] then lane else lane.(toSelection := lane.toSelection[1..])
    case _ => lane
  }

  predicate OfLane(e: Event) {
    !e.MacRequest? && !e.Gates? && !e.SelectionNote? && !e.SelectionRequest?
  }

  function Step(p: Port, e: Event): Port
    requires Enabled(p, e)
  {
    if OfLane(e) then
      var lane := p.lanes[e.lane];
      var p' := p.(lanes := p.lanes[e.lane := LaneStep(lane, e)]);
      match e
      case GateNote(_) => p'.(note := p.note || lane.open)
      case GateChanged(_) => p'.(note := p.note || Ready(lane))
      case ThroughSelection(_) => p'.(fromUs := false)
      case _ => p'
    else
      match e
      case MacRequest => p.(request := true)
      case Gates(open, limits, release) =>
        p.(lanes := GatesSet(p.lanes, open, limits), note := p.note || (release && Released(p.lanes, open, limits)))
      case SelectionNote => if p.fromInputs then Scheduled(p.(note := false)) else p.(note := false)
      case SelectionRequest => Scheduled(p.(request := false, fromUs := true, fromInputs := true))
  }

  /** A change of gates with a release is reported exactly if some gate that stays open has a packet then. */
  lemma ReleaseIsReported(p: Port, open: seq<bool>, limits: seq<nat>)
    requires Enabled(p, Gates(open, limits, true)) && !p.note
    ensures var p' := Step(p, Gates(open, limits, true));
      |p'.lanes| == |p.lanes| &&
      (p'.note <==> exists i :: 0 <= i < |p.lanes| && p.lanes[i].open && Ready(p'.lanes[i]))
  {
    var p' := Step(p, Gates(open, limits, true));
    assert forall i :: 0 <= i < |p.lanes| ==> p'.lanes[i] == GateSet(p.lanes[i], open[i], limits[i]);
  }

  // ----- invariants -------------------------------------------------------------------------

  function Token(lane: Lane): nat {
    (if lane.gateRequest then 1 else 0) + (if lane.algorithmRequest.Some? then 1 else 0)
    + (if lane.queueRequest.Some? then 1 else 0) + |lane.toAlgorithm| + |lane.toGate| + |lane.toSelection|
  }

  function Tokens(lanes: seq<Lane>): nat {
    if lanes == [] then 0 else Token(lanes[0]) + Tokens(lanes[1..])
  }

  lemma {:induction false} TokensUpdate(lanes: seq<Lane>, i: nat, lane: Lane)
    requires i < |lanes|
    ensures Tokens(lanes[i := lane]) + Token(lanes[i]) == Tokens(lanes) + Token(lane)
  {
    var lanes' := lanes[i := lane];
    if i == 0 {
      assert lanes'[1..] == lanes[1..];
    } else {
      assert lanes'[1..] == lanes[1..][i - 1 := lane];
      TokensUpdate(lanes[1..], i - 1, lane);
    }
  }

  lemma {:induction false} TokensOfGates(lanes: seq<Lane>, open: seq<bool>, limits: seq<nat>)
    requires |open| == |limits| == |lanes|
    ensures Tokens(GatesSet(lanes, open, limits)) == Tokens(lanes)
  {
    if lanes != [] {
      TokensOfGates(lanes[1..], open[1..], limits[1..]);
      assert GatesSet(lanes, open, limits)[1..] == GatesSet(lanes[1..], open[1..], limits[1..]);
    }
  }

  /** A request from the MAC is in exactly one place: still unanswered at the selection, on its way to
      a queue, or coming back as a packet. */
  ghost predicate OneToken(p: Port) {
    Tokens(p.lanes) + (if p.fromInputs then 1 else 0) == if p.fromUs then 1 else 0
  }

  ghost predicate Notified(p: Port, lane: Lane) {
    p.note || lane.algorithmNote || lane.gateNote || lane.gateChanged
  }

  /** No lost wake-up: while the selection waits for a packet, a gate that has one is being reported. */
  ghost predicate Awake(p: Port) {
    p.fromInputs ==> forall i :: 0 <= i < |p.lanes| && Ready(p.lanes[i]) ==> Notified(p, p.lanes[i])
  }

  /** A request that has left the gate can be met by the queue. */
  ghost predicate Granted(lane: Lane) {
    && (lane.algorithmRequest.Some? ==> !Blocked(lane.queue, lane.algorithmRequest.value))
    && (lane.queueRequest.Some? ==> !Blocked(lane.queue, lane.queueRequest.value))
  }

  ghost predicate Sound(p: Port) {
    OneToken(p) && Awake(p) && forall i :: 0 <= i < |p.lanes| ==> Granted(p.lanes[i])
  }

  lemma {:induction false} TokenOfLane(lanes: seq<Lane>, i: nat)
    requires i < |lanes|
    ensures Token(lanes[i]) <= Tokens(lanes)
  {
    if i != 0 {
      TokenOfLane(lanes[1..], i - 1);
    }
  }

  lemma ScheduledKeepsSound(p: Port)
    requires p.fromInputs && OneToken(p) && forall i :: 0 <= i < |p.lanes| ==> Granted(p.lanes[i])
    ensures Sound(Scheduled(p))
  {
    ChoiceIsBest(p.lanes);
    if Choice(p.lanes).Some? {
      var i := Choice(p.lanes).value;
      TokenOfLane(p.lanes, i);
      TokensUpdate(p.lanes, i, p.lanes[i].(gateRequest := true));
    }
  }

  lemma LaneStepKeepsToken(p: Port, e: Event)
    requires Sound(p) && Enabled(p, e) && OfLane(e)
    ensures OneToken(Step(p, e)) && Granted(LaneStep(p.lanes[e.lane], e))
  {
    var lane := p.lanes[e.lane];
    TokenOfLane(p.lanes, e.lane);
    TokensUpdate(p.lanes, e.lane, LaneStep(lane, e));
  }

  lemma LaneStepKeepsAwake(p: Port, e: Event)
    requires Sound(p) && Enabled(p, e) && OfLane(e)
    ensures Awake(Step(p, e))
  {
    TokenOfLane(p.lanes, e.lane);
    var p' := Step(p, e);
    forall i | 0 <= i < |p'.lanes| && p'.fromInputs && Ready(p'.lanes[i])
      ensures Notified(p', p'.lanes[i])
    {
      assert i != e.lane ==> p'.lanes[i] == p.lanes[i];
    }
  }

  lemma LaneStepKeepsSound(p: Port, e: Event)
    requires Sound(p) && Enabled(p, e) && OfLane(e)
    ensures Sound(Step(p, e))
  {
    LaneStepKeepsToken(p, e);
    LaneStepKeepsAwake(p, e);
  }

  lemma GatesKeepSound(p: Port, open: seq<bool>, limits: seq<nat>, release: bool)
    requires Sound(p) && Enabled(p, Gates(open, limits, release))
    ensures Sound(Step(p, Gates(open, limits, release)))
  {
    TokensOfGates(p.lanes, open, limits);
  }

  lemma StepKeepsSound(p: Port, e: Event)
    requires Sound(p) && Enabled(p, e)
    ensures Sound(Step(p, e))
  {
    if OfLane(e) {
      LaneStepKeepsSound(p, e);
    } else {
      match e
      case MacRequest =>
      case Gates(open, limits, release) => GatesKeepSound(p, open, limits, release);
      case SelectionNote => if p.fromInputs { ScheduledKeepsSound(p.(note := false)); }
      case SelectionRequest => ScheduledKeepsSound(p.(request := false, fromUs := true, fromInputs := true));
    }
  }

  ghost predicate Reaches(p: Port, run: Trace<Event>, q: Port) {
    match run
    case Start => q == p
    case Then(before, e) => exists m :: Reaches(p, before, m) && Enabled(m, e) && Step(m, e) == q
  }

  /** Over every run from a port at rest all invariants hold. */
  lemma {:induction false} EveryRunIsSound(p: Port, run: Trace<Event>, q: Port)
    requires Sound(p) && Reaches(p, run, q)
    ensures Sound(q)
  {
    match run
    case Start =>
    case Then(before, e) =>
      var m :| Reaches(p, before, m) && Enabled(m, e) && Step(m, e) == q;
      EveryRunIsSound(p, before, m);
      StepKeepsSound(m, e);
  }

  // ----- what follows for the MAC -----------------------------------------------------------

  ghost predicate LaneQuiet(lane: Lane) {
    && !lane.algorithmNote && !lane.gateNote && !lane.gateChanged && !lane.gateRequest
    && lane.algorithmRequest.None? && lane.queueRequest.None?
    && lane.toAlgorithm == [] && lane.toGate == [] && lane.toSelection == []
  }

  /** No event of the modules is pending. */
  ghost predicate Quiet(p: Port) {
    !p.note && !p.request && forall i :: 0 <= i < |p.lanes| ==> LaneQuiet(p.lanes[i])
  }

  lemma {:induction false} QuietLanesHoldNoToken(lanes: seq<Lane>)
    requires forall i :: 0 <= i < |lanes| ==> LaneQuiet(lanes[i])
    ensures Tokens(lanes) == 0
  {
    if lanes != [] {
      assert forall i :: 0 <= i < |lanes[1..]| ==> lanes[1..][i] == lanes[i + 1];
      QuietLanesHoldNoToken(lanes[1..]);
    }
  }

  /** When all events of an instant are served, a request is unanswered only if every gate is empty. */
  lemma NoLostWakeUp(p: Port, run: Trace<Event>, q: Port)
    requires Sound(p) && Reaches(p, run, q) && Quiet(q)
    ensures q.fromUs == q.fromInputs
    ensures q.fromUs ==> forall i :: 0 <= i < |q.lanes| ==> !Ready(q.lanes[i])
  {
    EveryRunIsSound(p, run, q);
    QuietLanesHoldNoToken(q.lanes);
  }

  /** In whatever order events are served, three of the modules' assertions never fail: what an algorithm
      or a queue is asked for is there and fits, and a packet reaches the selection only when the MAC has
      asked for one. */
  lemma AssertionsNeverFail(p: Port, run: Trace<Event>, q: Port, i: nat)
    requires Sound(p) && Reaches(p, run, q) && i < |q.lanes|
    ensures q.lanes[i].algorithmRequest.Some? ==> !Blocked(q.lanes[i].queue, q.lanes[i].algorithmRequest.value)
    ensures q.lanes[i].queueRequest.Some? ==> Enabled(q, QueueRequest(i))
    ensures q.lanes[i].toSelection != [] ==> Enabled(q, ThroughSelection(i))
  {
    EveryRunIsSound(p, run, q);
    TokenOfLane(q.lanes, i);
  }

  // ----- the order of an instant ------------------------------------------------------------

  /** A port in the kernel's hands.  `late` holds once the selection has served an event since the port was
      last quiet. */
  datatype Kernel = Kernel(port: Port, late: bool)

  predicate OfSelection(e: Event) {
    e.SelectionNote? || e.SelectionRequest?
  }

  /** Self-messages of the selection have priority 1 and all other events 0, so they are served when no
      other event of the instant is left: every lane is quiet, and gates change no more until the
      instant is over, which it is not before the port is quiet.  Arrivals and requests of the MAC are not
      restricted. */
  ghost predicate InOrder(k: Kernel, e: Event) {
    && Enabled(k.port, e)
    && (OfSelection(e) ==> forall i :: 0 <= i < |k.port.lanes| ==> LaneQuiet(k.port.lanes[i]))
    && (e.Gates? ==> !k.late || Quiet(k.port))
  }

  ghost function Served(k: Kernel, e: Event): Kernel
    requires InOrder(k, e)
  {
    Kernel(Step(k.port, e), OfSelection(e) || (k.late && !Quiet(k.port)))
  }

  ghost predicate ReachesInOrder(k: Kernel, run: Trace<Event>, q: Kernel) {
    match run
    case Start => q == k
    case Then(before, e) => exists m :: ReachesInOrder(k, before, m) && InOrder(m, e) && Served(m, e) == q
  }

  /** The gate asserts that it is not empty when the request it was sent is served. */
  ghost predicate RequestsReady(lanes: seq<Lane>) {
    forall i :: 0 <= i < |lanes| && lanes[i].gateRequest ==> Ready(lanes[i])
  }

  ghost predicate NoRequests(lanes: seq<Lane>) {
    forall i :: 0 <= i < |lanes| ==> !lanes[i].gateRequest
  }

  /** Requests are under way only late in an instant, and each is with a gate that has a packet. */
  ghost predicate KernelSound(k: Kernel) {
    Sound(k.port) && RequestsReady(k.port.lanes) && (!k.late ==> NoRequests(k.port.lanes))
  }

  lemma OwnRequestStaysReady(lane: Lane, e: Event)
    requires OfLane(e) && Token(lane) <= 1 && (lane.gateRequest ==> Ready(lane))
    requires e.QueueRequest? ==> lane.queueRequest.Some?
    ensures LaneStep(lane, e).gateRequest ==> lane.gateRequest && Ready(LaneStep(lane, e))
  {}

  lemma UpdateKeepsRequests(lanes: seq<Lane>, i: nat, lane: Lane)
    requires i < |lanes| && RequestsReady(lanes)
    requires lane.gateRequest ==> lanes[i].gateRequest && Ready(lane)
    ensures RequestsReady(lanes[i := lane]) && (NoRequests(lanes) ==> NoRequests(lanes[i := lane]))
  {}

  lemma LaneStepKeepsRequests(p: Port, e: Event)
    requires Sound(p) && Enabled(p, e) && OfLane(e) && RequestsReady(p.lanes)
    ensures RequestsReady(Step(p, e).lanes) && (NoRequests(p.lanes) ==> NoRequests(Step(p, e).lanes))
  {
    TokenOfLane(p.lanes, e.lane);
    OwnRequestStaysReady(p.lanes[e.lane], e);
    UpdateKeepsRequests(p.lanes, e.lane, LaneStep(p.lanes[e.lane], e));
    assert Step(p, e).lanes == p.lanes[e.lane := LaneStep(p.lanes[e.lane], e)];
  }

  lemma ServedKeepsSound(k: Kernel, e: Event)
    requires KernelSound(k) && InOrder(k, e)
    ensures KernelSound(Served(k, e))
  {
    StepKeepsSound(k.port, e);
    if OfLane(e) {
      LaneStepKeepsRequests(k.port, e);
    } else if OfSelection(e) {
      ChoiceIsBest(k.port.lanes);
    } else {
      assert Quiet(k.port) ==> NoRequests(k.port.lanes);
    }
  }

  ghost predicate AtRest(p: Port) {
    Quiet(p) && !p.fromUs && !p.fromInputs
  }

  lemma AtRestIsSound(p: Port)
    requires AtRest(p)
    ensures KernelSound(Kernel(p, false))
  {
    QuietLanesHoldNoToken(p.lanes);
  }

  lemma {:induction false} KernelRunIsSound(k: Kernel, run: Trace<Event>, q: Kernel)
    requires KernelSound(k) && ReachesInOrder(k, run, q)
    ensures KernelSound(q)
  {
    match run
    case Start =>
    case Then(before, e) =>
      var m :| ReachesInOrder(k, before, m) && InOrder(m, e) && Served(m, e) == q;
      KernelRunIsSound(k, before, m);
      ServedKeepsSound(m, e);
  }

  /** A run in the kernel's order is a run: what holds in every order holds of it. */
  lemma {:induction false} InOrderIsRun(k: Kernel, run: Trace<Event>, q: Kernel)
    requires ReachesInOrder(k, run, q)
    ensures Reaches(k.port, run, q.port)
  {
    match run
    case Start =>
    case Then(before, e) =>
      var m :| ReachesInOrder(k, before, m) && InOrder(m, e) && Served(m, e) == q;
      InOrderIsRun(k, before, m);
  }

  /** The assertion of the gate never fails: over every run in the kernel's order from a port at rest, a gate
      that has been sent a request has a packet for it until the request is served. */
  lemma GateAssertionNeverFails(p: Port, run: Trace<Event>, q: Kernel, i: nat)
    requires AtRest(p) && ReachesInOrder(Kernel(p, false), run, q) && i < |q.port.lanes|
    ensures q.port.lanes[i].gateRequest ==> Enabled(q.port, GateRequest(i))
  {
    AtRestIsSound(p);
    KernelRunIsSound(Kernel(p, false), run, q);
  }

  /** Over every run in the kernel's order from a port at rest: no wake-up is lost and no assertion of queue,
      algorithm, gate and selection fails. */
  lemma PortServesInOrder(p: Port, run: Trace<Event>, q: Kernel, i: nat)
    requires AtRest(p) && ReachesInOrder(Kernel(p, false), run, q)
    ensures Quiet(q.port) && q.port.fromUs ==> forall j :: 0 <= j < |q.port.lanes| ==> !Ready(q.port.lanes[j])
    ensures i < |q.port.lanes| ==>
      var lane := q.port.lanes[i];
      && (lane.gateRequest ==> Enabled(q.port, GateRequest(i)))
      && (lane.algorithmRequest.Some? ==> !Blocked(lane.queue, lane.algorithmRequest.value))
      && (lane.queueRequest.Some? ==> Enabled(q.port, QueueRequest(i)))
      && (lane.toSelection != [] ==> Enabled(q.port, ThroughSelection(i)))
  {
    AtRestIsSound(p);
    InOrderIsRun(Kernel(p, false), run, q);
    if Quiet(q.port) {
      NoLostWakeUp(p, run, q.port);
    }
    if i < |q.port.lanes| {
      GateAssertionNeverFails(p, run, q, i);
      AssertionsNeverFail(p, run, q.port, i);
    }
  }

  /** The pending event that is served next, if the MAC has not asked twice. */
  lemma NextInOrder(k: Kernel) returns (e: Event)
    requires KernelSound(k) && !Quiet(k.port) && !(k.port.request && k.port.fromUs)
    ensures Internal(e) && InOrder(k, e)
  {
    var p := k.port;
    if i :| 0 <= i < |p.lanes| && !LaneQuiet(p.lanes[i]) {
      var lane := p.lanes[i];
      TokenOfLane(p.lanes, i);
      e := if lane.algorithmNote then AlgorithmNote(i) else if lane.gateNote then GateNote(i)
           else if lane.gateChanged then GateChanged(i) else if lane.gateRequest then GateRequest(i)
           else if lane.algorithmRequest.Some? then AlgorithmRequest(i)
           else if lane.queueRequest.Some? then QueueRequest(i)
           else if lane.toAlgorithm != [] then ThroughAlgorithm(i)
           else if lane.toGate != [] then ThroughGate(i) else ThroughSelection(i);
    } else {
      e := if p.note then SelectionNote else SelectionRequest;
    }
  }

  lemma OneMore(k: Kernel, run: Trace<Event>, m: Kernel, e: Event)
    requires ReachesInOrder(k, run, m) && InOrder(m, e)
    ensures ReachesInOrder(k, Then(run, e), Served(m, e))
  {}

  /** A preemptable lane before an express one. */
  ghost predicate Pair(a: Lane, b: Lane) {
    !a.express && b.express && LaneQuiet(a) && LaneQuiet(b) && Ready(a)
  }

  lemma GateClosesAfterAsking(a: Lane, b: Lane)
    requires Pair(a, b) && b.open
    ensures var k, e := Kernel(Port([a, b], false, true, false, false), false),
      Gates([true, false], [a.limit, b.limit], false);
      InOrder(k, e) && Served(k, e) == k.(port := k.port.(lanes := [a, b.(open := false, gateChanged := true)]))
  {
    assert GatesSet([a, b], [true, false], [a.limit, b.limit]) == [a, b.(open := false, gateChanged := true)];
  }

  lemma ClosedGateTellsNobody(a: Lane, b: Lane)
    requires Pair(a, b) && !b.open
    ensures var k := Kernel(Port([a, b.(gateChanged := true)], false, true, false, false), false);
      InOrder(k, GateChanged(1)) && Served(k, GateChanged(1)) == k.(port := k.port.(lanes := [a, b]))
  {}

  lemma PreemptableIsChosen(a: Lane, b: Lane)
    requires Pair(a, b) && !b.open
    ensures var k := Kernel(Port([a, b], false, true, false, false), false);
      && InOrder(k, SelectionRequest)
      && Served(k, SelectionRequest) == Kernel(Port([a.(gateRequest := true), b], false, false, true, false), true)
  {
    var lanes := [a, b];
    ChoiceIsBest(lanes);
    assert Ready(lanes[0]) && !Ready(lanes[1]);
    assert lanes[0 := a.(gateRequest := true)] == [a.(gateRequest := true), b];
  }

  /** A MAC that asks because an express packet is ready can be sent a preemptable one: in the same instant
      the express gate, its limit being constant, closes before the selection serves the request. */
  lemma ExpressAskedPreemptableComes(a: Lane, b: Lane) returns (run: Trace<Event>)
    requires Pair(a, b) && Ready(b)
    ensures var p := Port([a, b], false, false, false, false); var shut := b.(open := false);
      && AtRest(p)
      && run == Then(Then(Then(Then(Start, MacRequest), Gates([true, false], [a.limit, b.limit], false)),
        GateChanged(1)), SelectionRequest)
      && ReachesInOrder(Kernel(p, false), run,
        Kernel(Port([a.(gateRequest := true), shut], false, false, true, false), true))
  {
    var k := Kernel(Port([a, b], false, false, false, false), false);
    var asked, shut := Kernel(k.port.(request := true), false), b.(open := false);
    var closed := asked.(port := asked.port.(lanes := [a, shut.(gateChanged := true)]));
    var told := asked.(port := asked.port.(lanes := [a, shut]));
    run := Then(Start, MacRequest);
    OneMore(k, Start, k, MacRequest);
    GateClosesAfterAsking(a, b);
    OneMore(k, run, asked, Gates([true, false], [a.limit, b.limit], false));
    run := Then(run, Gates([true, false], [a.limit, b.limit], false));
    ClosedGateTellsNobody(a, shut);
    OneMore(k, run, closed, GateChanged(1));
    run := Then(run, GateChanged(1));
    PreemptableIsChosen(a, shut);
    OneMore(k, run, told, SelectionRequest);
    run := Then(run, SelectionRequest);
  }

  // ----- the instant comes to an end --------------------------------------------------------

  function LaneWork(lane: Lane): nat {
    (if lane.algorithmNote then 3 else 0) + (if lane.gateNote then 2 else 0) + (if lane.gateChanged then 2 else 0)
    + (if lane.gateRequest then 6 else 0) + (if lane.algorithmRequest.Some? then 5 else 0)
    + (if lane.queueRequest.Some? then 4 else 0) + 3 * |lane.toAlgorithm| + 2 * |lane.toGate| + |lane.toSelection|
  }

  function LanesWork(lanes: seq<Lane>): nat {
    if lanes == [] then 0 else LaneWork(lanes[0]) + LanesWork(lanes[1..])
  }

  function Work(p: Port): nat {
    LanesWork(p.lanes) + (if p.note then 1 else 0) + (if p.request then 8 else 0) + (if p.fromInputs then 7 else 0)
  }

  lemma {:induction false} WorkUpdate(lanes: seq<Lane>, i: nat, lane: Lane)
    requires i < |lanes|
    ensures LanesWork(lanes[i := lane]) + LaneWork(lanes[i]) == LanesWork(lanes) + LaneWork(lane)
  {
    var lanes' := lanes[i := lane];
    if i == 0 {
      assert lanes'[1..] == lanes[1..];
    } else {
      assert lanes'[1..] == lanes[1..][i - 1 := lane];
      WorkUpdate(lanes[1..], i - 1, lane);
    }
  }

  lemma LaneStepLeavesLess(lane: Lane, e: Event)
    requires Internal(e) && OfLane(e)
    requires Enabled(Port([lane], false, false, e.ThroughSelection?, false), LaneEvent(e))
    ensures LaneWork(LaneStep(lane, e)) < LaneWork(lane)
    ensures e.GateNote? || e.GateChanged? ==> LaneWork(LaneStep(lane, e)) + 1 < LaneWork(lane)
  {}

  /** The same event in a port with a single lane. */
  function LaneEvent(e: Event): Event
    requires OfLane(e)
  {
    e.(lane := 0)
  }

  lemma SchedulingLeavesLess(p: Port)
    requires p.fromInputs
    ensures Work(Scheduled(p)) <= Work(p)
  {
    ChoiceIsBest(p.lanes);
    if Choice(p.lanes).Some? {
      var i := Choice(p.lanes).value;
      WorkUpdate(p.lanes, i, p.lanes[i].(gateRequest := true));
    }
  }

  /** Serving events comes to an end: each one leaves strictly less to do. */
  lemma ServingEnds(p: Port, e: Event)
    requires Sound(p) && Enabled(p, e) && Internal(e)
    ensures Work(Step(p, e)) < Work(p)
  {
    if OfLane(e) {
      LaneStepLeavesLess(p.lanes[e.lane], e);
      WorkUpdate(p.lanes, e.lane, LaneStep(p.lanes[e.lane], e));
    } else if e.SelectionRequest? {
      SchedulingLeavesLess(p.(request := false, fromUs := true, fromInputs := true));
    } else if p.fromInputs {
      SchedulingLeavesLess(p.(note := false));
    }
  }
}
