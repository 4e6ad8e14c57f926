/** The pipeline under a gate controller: gate states and limits are those the controller's schedule
    gives as time passes and ticks arrive, so no gate that stays open gains room. */
module GateEvents {
  import opened Traces
  import opened GateSchedules
  import opened Lookahead
  import opened LengthAwareQueues
  import P = Pipeline

  /** Gates and limits of the port are those of controller state c, `since` clock ticks after its last tick. */
  ghost predicate Shows(lanes: seq<P.Lane>, c: Control, since: nat, perTick: real)
    requires Running(c) && since <= ShownEntry(c).length && 0.0 < perTick
  {
    forall i :: 0 <= i < |lanes| ==>
      && (lanes[i].open <==> i in ShownEntry(c).open)
      && IsMaxBit(c, i, since, perTick, lanes[i].limit)
  }

  /** The controller's states and limits as an event of the pipeline. */
  ghost predicate Announces(open: seq<bool>, limits: seq<nat>, c: Control, since: nat, perTick: real)
    requires Running(c) && since <= ShownEntry(c).length && 0.0 < perTick
  {
    && |open| == |limits|
    && forall i :: 0 <= i < |open| ==>
      (open[i] <==> i in ShownEntry(c).open) && IsMaxBit(c, i, since, perTick, limits[i])
  }

  lemma TimePasses(p: P.Port, c: Control, since: nat, since': nat, perTick: real, open: seq<bool>, limits: seq<nat>,
    release: bool)
    requires Running(c) && since <= since' <= ShownEntry(c).length && 0.0 < perTick
    requires Shows(p.lanes, c, since, perTick) && |open| == |p.lanes| && Announces(open, limits, c, since', perTick)
    ensures var e := P.Gates(open, limits, release);
      P.Enabled(p, e) && Shows(P.Step(p, e).lanes, c, since', perTick)
    ensures forall i :: 0 <= i < |open| ==> open[i] == p.lanes[i].open
  {
    forall i | 0 <= i < |open|
      ensures limits[i] <= p.lanes[i].limit
    {
      MaxBitShrinks(c, i, since, since', perTick, p.lanes[i].limit, limits[i]);
    }
  }

  lemma TickArrives(p: P.Port, c: Control, since: nat, perTick: real, open: seq<bool>, limits: seq<nat>, release: bool)
    requires Running(c) && since <= ShownEntry(c).length && 0.0 < perTick && Running(Tick(c))
    requires Shows(p.lanes, c, since, perTick) && |open| == |p.lanes| && Announces(open, limits, Tick(c), 0, perTick)
    ensures var e := P.Gates(open, limits, release);
      P.Enabled(p, e) && Shows(P.Step(p, e).lanes, Tick(c), 0, perTick)
  {
    assert After(c, 0) == c;
    forall i | 0 <= i < |open| && p.lanes[i].open && open[i]
      ensures limits[i] <= p.lanes[i].limit
    {
      assert OpenAfter(c, i, 0);
      MaxBitOverOneTick(c, i, since, perTick, p.lanes[i].limit, limits[i]);
    }
  }

  // ----- runs under a schedule --------------------------------------------------------------

  /** A port and the controller of its gates, `since` clock ticks after the controller's last tick. */
  datatype Board = Board(port: P.Port, control: Control, since: nat)

  /** `Inside` is any event of the pipeline but a change of gates; those come from the controller: `Loads` for a
      schedule that is loaded meanwhile. */
  datatype BoardEvent =
    | Inside(e: P.Event)
    | Passes(since: nat, open: seq<bool>, limits: seq<nat>, release: bool)
    | Ticks(open: seq<bool>, limits: seq<nat>, release: bool)
    | Loads(schedule: Schedule, open: seq<bool>, limits: seq<nat>)

  function Loaded(c: Control, schedule: Schedule): Control {
    c.(next := Some(schedule))
  }

  /** No gate that stays open gains room. */
  ghost predicate RaisesNone(lanes: seq<P.Lane>, open: seq<bool>, limits: seq<nat>)
    requires |open| == |limits| == |lanes|
  {
    forall i :: 0 <= i < |lanes| && lanes[i].open && open[i] ==> limits[i] <= lanes[i].limit
  }

  /** Gates follow the controller's state, and its limits are the port's. */
  ghost predicate InStep(b: Board, perTick: real) {
    && 0.0 < perTick && Running(b.control) && b.since <= ShownEntry(b.control).length
    && Shows(b.port.lanes, b.control, b.since, perTick)
  }

  /** Time passes until the controller's next tick is due, and then the tick arrives; nothing is said about how
      limits change.  Only a schedule that is loaded must raise no limit of an open gate. */
  ghost predicate CanHappen(b: Board, e: BoardEvent, perTick: real)
    requires InStep(b, perTick)
  {
    match e
    case Inside(e) => !e.Gates? && P.Enabled(b.port, e)
    case Passes(since, open, limits, _) =>
      && b.since <= since <= ShownEntry(b.control).length
      && |open| == |b.port.lanes| && Announces(open, limits, b.control, since, perTick)
    case Ticks(open, limits, _) =>
      && b.since == ShownEntry(b.control).length && Running(Tick(b.control))
      && |open| == |b.port.lanes| && Announces(open, limits, Tick(b.control), 0, perTick)
    case Loads(schedule, open, limits) =>
      && schedule != [] && |open| == |b.port.lanes| &&
        Announces(open, limits, Loaded(b.control, schedule), b.since, perTick)
      && RaisesNone(b.port.lanes, open, limits)
  }

  /** The event as the pipeline sees it. */
  function Seen(e: BoardEvent): P.Event {
    match e
    case Inside(e) => e
    case Passes(_, open, limits, release) => P.Gates(open, limits, release)
    case Ticks(open, limits, release) => P.Gates(open, limits, release)
    case Loads(_, open, limits) => P.Gates(open, limits, false)
  }

  /** Whatever happens is an event the pipeline allows. */
  lemma AllowedByPipeline(b: Board, e: BoardEvent, perTick: real)
    requires InStep(b, perTick) && CanHappen(b, e, perTick)
    ensures P.Enabled(b.port, Seen(e))
  {
    match e
    case Inside(_) =>
    case Passes(since, open, limits, release) =>
      TimePasses(b.port, b.control, b.since, since, perTick, open, limits, release);
    case Ticks(open, limits, release) => TickArrives(b.port, b.control, b.since, perTick, open, limits, release);
    case Loads(_, _, _) =>
  }

  ghost function Happened(b: Board, e: BoardEvent, perTick: real): Board
    requires InStep(b, perTick) && CanHappen(b, e, perTick)
  {
    AllowedByPipeline(b, e, perTick);
    var port := P.Step(b.port, Seen(e));
    match e
    case Inside(_) => b.(port := port)
    case Passes(since, _, _, _) => b.(port := port, since := since)
    case Ticks(_, _, _) => Board(port, Tick(b.control), 0)
    case Loads(schedule, _, _) => b.(port := port, control := Loaded(b.control, schedule))
  }

  lemma LaneKeepsGate(lane: P.Lane, e: P.Event)
    ensures P.LaneStep(lane, e).open == lane.open && P.LaneStep(lane, e).limit == lane.limit
  {
    match e
    case Arrival(_, _, _) =>
    case AlgorithmNote(_) =>
    case GateNote(_) =>
    case GateChanged(_) =>
    case GateRequest(_) =>
    case AlgorithmRequest(_) =>
    case QueueRequest(_) =>
    case ThroughAlgorithm(_) =>
    case ThroughGate(_) =>
    case ThroughSelection(_) =>
    case _ =>
  }

  lemma InsideKeepsGates(p: P.Port, e: P.Event, i: nat)
    requires !e.Gates? && P.Enabled(p, e) && i < |p.lanes|
    ensures var p' := P.Step(p, e);
      |p'.lanes| == |p.lanes| && p'.lanes[i].open == p.lanes[i].open && p'.lanes[i].limit == p.lanes[i].limit
  {
    if P.OfLane(e) {
      LaneKeepsGate(p.lanes[e.lane], e);
      assert P.Step(p, e).lanes == p.lanes[e.lane := P.LaneStep(p.lanes[e.lane], e)];
    } else {
      P.ChoiceIsBest(p.lanes);
    }
  }

  lemma InsideKeepsCount(p: P.Port, e: P.Event)
    requires !e.Gates? && P.Enabled(p, e)
    ensures |P.Step(p, e).lanes| == |p.lanes|
  {
    P.ChoiceIsBest(p.lanes);
  }

  lemma HappenedInStep(b: Board, e: BoardEvent, perTick: real)
    requires InStep(b, perTick) && CanHappen(b, e, perTick)
    ensures InStep(Happened(b, e, perTick), perTick)
  {
    match e
    case Inside(e) =>
      var p' := P.Step(b.port, e);
      InsideKeepsCount(b.port, e);
      forall i | 0 <= i < |p'.lanes|
        ensures (p'.lanes[i].open <==> i in ShownEntry(b.control).open) &&
          IsMaxBit(b.control, i, b.since, perTick, p'.lanes[i].limit)
      {
        InsideKeepsGates(b.port, e, i);
      }
    case Passes(since, open, limits, release) =>
      TimePasses(b.port, b.control, b.since, since, perTick, open, limits, release);
    case Ticks(open, limits, release) => TickArrives(b.port, b.control, b.since, perTick, open, limits, release);
    case Loads(_, _, _) =>
  }

  ghost predicate Reaches(b: Board, run: Trace<BoardEvent>, d: Board, perTick: real) {
    match run
    case Start => d == b
    case Then(before, e) =>
      exists m :: Reaches(b, before, m, perTick) && InStep(m, perTick) && CanHappen(m, e, perTick) &&
        Happened(m, e, perTick) == d
  }

  function SeenAll(run: Trace<BoardEvent>): Trace<P.Event> {
    match run
    case Start => Start
    case Then(before, e) => Then(SeenAll(before), Seen(e))
  }

  lemma {:induction false} RunStaysInStep(b: Board, run: Trace<BoardEvent>, d: Board, perTick: real)
    requires InStep(b, perTick) && Reaches(b, run, d, perTick)
    ensures InStep(d, perTick)
  {
    match run
    case Start =>
    case Then(before, e) =>
      var m :| Reaches(b, before, m, perTick) && InStep(m, perTick) && CanHappen(m, e, perTick) &&
        Happened(m, e, perTick) == d;
      HappenedInStep(m, e, perTick);
  }

  lemma HappensInPipeline(p: P.Port, run: Trace<P.Event>, b: Board, e: BoardEvent, perTick: real)
    requires InStep(b, perTick) && CanHappen(b, e, perTick) && P.Reaches(p, run, b.port)
    ensures P.Reaches(p, Then(run, Seen(e)), Happened(b, e, perTick).port)
  {
    AllowedByPipeline(b, e, perTick);
    assert Happened(b, e, perTick).port == P.Step(b.port, Seen(e));
  }

  lemma {:induction false} RunInPipeline(b: Board, run: Trace<BoardEvent>, d: Board, perTick: real)
    requires Reaches(b, run, d, perTick)
    ensures P.Reaches(b.port, SeenAll(run), d.port)
  {
    match run
    case Start =>
    case Then(before, e) =>
      var m :| Reaches(b, before, m, perTick) && InStep(m, perTick) && CanHappen(m, e, perTick) &&
        Happened(m, e, perTick) == d;
      RunInPipeline(b, before, m, perTick);
      HappensInPipeline(b.port, SeenAll(before), m, e, perTick);
  }

  /** No wake-up is lost under a schedule: over every run, cycle ends and swaps included, whose limits are what the
      controller's lookahead means and in which no schedule is loaded that raises the limit of an open gate, a
      request is unanswered in a quiet port only if every gate is empty. */
  lemma NoLostWakeUpUnderSchedule(b: Board, run: Trace<BoardEvent>, d: Board, perTick: real)
    requires InStep(b, perTick) && P.Sound(b.port) && Reaches(b, run, d, perTick) && P.Quiet(d.port)
    ensures InStep(d, perTick) && d.port.fromUs == d.port.fromInputs
    ensures d.port.fromUs ==> forall i :: 0 <= i < |d.port.lanes| ==> !P.Ready(d.port.lanes[i])
  {
    RunStaysInStep(b, run, d, perTick);
    RunInPipeline(b, run, d, perTick);
    P.NoLostWakeUp(b.port, SeenAll(run), d.port);
  }

  /** Loading a schedule that does raise one can lose a wake-up.  The gate is open for its last tick of the cycle, too
      short for the packet waiting; the schedule loaded keeps it open.  No gate state changes, not even with the
      next tick, and nobody reports the packet, which the MAC has asked for. */
  lemma LoadCanLoseWakeUp() returns (b: Board, d: Board)
    ensures |b.port.lanes| == |d.port.lanes| == 1 && InStep(b, 100.0) && P.Sound(b.port)
    ensures P.Quiet(b.port) && b.port.fromUs && !P.Ready(b.port.lanes[0])
    ensures InStep(d, 100.0) && d.control == Tick(Loaded(b.control, [Entry(1000, {0})])) && b.since == 9
    ensures d.port == b.port.(lanes := P.GatesSet(b.port.lanes, [true], [12000]))
    ensures P.Quiet(d.port) && d.port.fromUs && P.Ready(d.port.lanes[0])
  {
    var lane := P.Lane(false, true, 100, [Packet(0, 512)], false, false, false, false, None, None, [], [], []);
    var c := Control([Entry(10, {}), Entry(10, {0})], None, 0);
    b := Board(P.Port([lane], false, false, true, true), c, 9);
    var longer := Loaded(c, [Entry(1000, {0})]);
    d := Board(P.Port([lane.(limit := 12000)], false, false, true, true), Tick(longer), 0);
    LastTickLimit(c);
    OneOpenEntry(Tick(longer), 0, 100.0);
    assert P.LaneQuiet(b.port.lanes[0]) && P.LaneQuiet(d.port.lanes[0]);
    P.QuietLanesHoldNoToken(b.port.lanes);
    assert P.GatesSet([lane], [true], [12000]) == d.port.lanes;
  }

  /** For some queue behind an open gate a change of its limit that nobody reports matters exactly if it raises the
      limit, and to what a packet's headers take at least. */
  lemma RaiseMattersIff(before: nat, after: nat)
    ensures (exists packets :: Blocked(packets, before) && !Blocked(packets, after)) <==>
      before < after && HEADER_BITS <= after
  {
    if before < after && HEADER_BITS <= after {
      var packets := [Packet(0, after - HEADER_BITS)];
      assert Blocked(packets, before) && !Blocked(packets, after);
    }
  }

  lemma LastTickLimit(c: Control)
    requires c == Control([Entry(10, {}), Entry(10, {0})], None, 0)
    ensures Running(c) && ShownEntry(c) == Entry(10, {0}) && IsMaxBit(c, 0, 9, 100.0, 100)
  {
    assert After(c, 0) == c && After(c, 1) == Tick(c);
    TimeToFirst(c);
    BitsInIs(1, 100.0);
    assert OpenAfter(c, 0, 0) && !OpenAfter(c, 0, 1);
    assert Decided(c, 0, 9, 100.0, 1) && TimeUntil(c, 9, 1) == 1;
    DecidedIsMaxBit(c, 0, 9, 100.0, 1);
  }

  /** Under the lookahead a tick empties no gate: one that has a packet just before a tick has it just after.
      So an express packet the MAC has asked for is not shut out in the instant of asking. */
  lemma TickEmptiesNoGate(b: Board, e: BoardEvent, perTick: real, i: nat)
    requires InStep(b, perTick) && e.Ticks? && CanHappen(b, e, perTick) && i < |b.port.lanes|
    requires P.Ready(b.port.lanes[i])
    ensures var d := Happened(b, e, perTick);
      InStep(d, perTick) && i < |d.port.lanes| && P.Ready(d.port.lanes[i]) &&
        d.port.lanes[i].express == b.port.lanes[i].express
  {
    HappenedInStep(b, e, perTick);
    var c, length, limit := b.control, ShownEntry(b.control).length, b.port.lanes[i].limit;
    assert After(c, 0) == c && OpenAfter(c, i, 0);
    if e.open[i] {
      MaxBitAcrossTick(c, i, perTick, limit, e.limits[i]);
    } else {
      TickClosesAtZero(c, i, perTick, limit);
    }
  }

  lemma TickClosesAtZero(c: Control, g: nat, perTick: real, limit: nat)
    requires Running(c) && 0.0 < perTick && Running(Tick(c)) && OpenAfter(c, g, 0) && g !in ShownEntry(Tick(c)).open
    requires IsMaxBit(c, g, ShownEntry(c).length, perTick, limit)
    ensures limit == 0
  {
    AfterTick(c, 0);
    assert After(Tick(c), 0) == Tick(c);
    assert !OpenAfter(c, g, 1) && FirstClosed(c, g, 1);
    TimeToFirst(c);
    assert TimeUntil(c, ShownEntry(c).length, 1) == 0;
    assert BitsIn(0, perTick) == 0.0;
  }
}
