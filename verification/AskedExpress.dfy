/** The MAC and the selection together: under the lookahead the packet that answers a request for an express packet is
    an express packet, in the same instant, so that cutting for it is as legal as it was when asked for. */
module AskedExpress {
  import opened Traces
  import opened GateEvents
  import P = Pipeline
  import F = FramePreemption
  import M = PreemptableMacs
  import T = PreemptionTiming

  /** An instant of port and controller: events of the port, but no further request of the MAC, and ticks that are
      due. */
  predicate OfInstant(e: BoardEvent) {
    e.Ticks? || (e.Inside? && !e.e.MacRequest?)
  }

  ghost predicate ExpressReady(lanes: seq<P.Lane>) {
    exists i :: 0 <= i < |lanes| && lanes[i].express && P.Ready(lanes[i])
  }

  /** Only express lanes are busy with a request. */
  ghost predicate ExpressBusy(lanes: seq<P.Lane>) {
    forall i :: 0 <= i < |lanes| && 0 < P.Token(lanes[i]) ==> lanes[i].express
  }

  /** The MAC's request is still to be served, or under way in an express lane, or answered. */
  ghost predicate Asked(p: P.Port) {
    && ExpressBusy(p.lanes) && (p.fromUs ==> !p.fromInputs && !p.request)
    && (p.request ==> ExpressReady(p.lanes))
  }

  lemma NobodyBusy(p: P.Port)
    requires P.OneToken(p) && !p.fromUs
    ensures forall i :: 0 <= i < |p.lanes| ==> P.Token(p.lanes[i]) == 0
    ensures !p.fromInputs
  {
    forall i | 0 <= i < |p.lanes|
      ensures P.Token(p.lanes[i]) == 0
    {
      P.TokenOfLane(p.lanes, i);
    }
  }

  lemma LaneKeepsAsked(lane: P.Lane, e: P.Event)
    requires P.OfLane(e)
    ensures P.LaneStep(lane, e).express == lane.express
    ensures P.Token(lane) == 0 ==> P.Token(P.LaneStep(lane, e)) == 0 || e.GateRequest? || e.QueueRequest?
    ensures P.Token(lane) == 0 && P.Ready(lane) && !e.QueueRequest? ==> P.Ready(P.LaneStep(lane, e))
  {
    match e
    case Arrival(_, _, _) =>
    case AlgorithmNote(_) =>
    case GateNote(_) =>
    case GateChanged(_) =>
    case GateRequest(_) =>
    case AlgorithmRequest(_) =>
    case QueueRequest(_) =>
    case ThroughAlgorithm(_) =>
    case ThroughGate(_) =>
    case ThroughSelection(_) =>
  }

  lemma LaneEventKeepsAsked(p: P.Port, e: P.Event)
    requires P.Sound(p) && Asked(p) && P.OfLane(e) && P.Enabled(p, e)
    ensures Asked(P.Step(p, e))
  {
    var p' := P.Step(p, e);
    LaneKeepsAsked(p.lanes[e.lane], e);
    assert p'.lanes == p.lanes[e.lane := P.LaneStep(p.lanes[e.lane], e)];
    if p.request {
      NobodyBusy(p);
      var i :| 0 <= i < |p.lanes| && p.lanes[i].express && P.Ready(p.lanes[i]);
      assert p'.lanes[i].express && P.Ready(p'.lanes[i]);
    }
  }

  lemma SelectionKeepsAsked(p: P.Port, e: P.Event)
    requires P.Sound(p) && Asked(p) && P.OfSelection(e) && P.Enabled(p, e)
    ensures Asked(P.Step(p, e))
  {
    P.ChoiceIsBest(p.lanes);
    if !p.fromUs {
      NobodyBusy(p);
    }
  }

  lemma GatesKeepBusy(lanes: seq<P.Lane>, open: seq<bool>, limits: seq<nat>)
    requires |open| == |limits| == |lanes| && ExpressBusy(lanes)
    ensures ExpressBusy(P.GatesSet(lanes, open, limits))
  {}

  lemma TickKeepsReady(b: Board, e: BoardEvent, perTick: real)
    requires InStep(b, perTick) && e.Ticks? && CanHappen(b, e, perTick) && ExpressReady(b.port.lanes)
    ensures ExpressReady(Happened(b, e, perTick).port.lanes)
  {
    var i :| 0 <= i < |b.port.lanes| && b.port.lanes[i].express && P.Ready(b.port.lanes[i]);
    TickEmptiesNoGate(b, e, perTick, i);
  }

  lemma TickKeepsAsked(b: Board, e: BoardEvent, perTick: real)
    requires InStep(b, perTick) && e.Ticks? && CanHappen(b, e, perTick) && Asked(b.port)
    ensures Asked(Happened(b, e, perTick).port)
  {
    AllowedByPipeline(b, e, perTick);
    GatesKeepBusy(b.port.lanes, e.open, e.limits);
    if b.port.request {
      TickKeepsReady(b, e, perTick);
    }
  }

  lemma HappeningKeepsAsked(b: Board, e: BoardEvent, perTick: real)
    requires InStep(b, perTick) && CanHappen(b, e, perTick) && OfInstant(e) && P.Sound(b.port) && Asked(b.port)
    ensures P.Sound(Happened(b, e, perTick).port) && Asked(Happened(b, e, perTick).port)
  {
    AllowedByPipeline(b, e, perTick);
    P.StepKeepsSound(b.port, Seen(e));
    if e.Ticks? {
      TickKeepsAsked(b, e, perTick);
    } else if P.OfLane(e.e) {
      LaneEventKeepsAsked(b.port, e.e);
    } else {
      SelectionKeepsAsked(b.port, e.e);
    }
  }

  ghost predicate InOneInstant(run: Trace<BoardEvent>) {
    match run
    case Start => true
    case Then(before, e) => InOneInstant(before) && OfInstant(e)
  }

  lemma {:induction false} RunKeepsAsked(b: Board, run: Trace<BoardEvent>, d: Board, perTick: real)
    requires Reaches(b, run, d, perTick) && InOneInstant(run) && P.Sound(b.port) && Asked(b.port)
    ensures P.Sound(d.port) && Asked(d.port)
  {
    match run
    case Start =>
    case Then(before, e) =>
      var m :| Reaches(b, before, m, perTick) && InStep(m, perTick) && CanHappen(m, e, perTick) &&
        Happened(m, e, perTick) == d;
      RunKeepsAsked(b, before, m, perTick);
      HappeningKeepsAsked(m, e, perTick);
  }

  /** A port with no request outstanding is asked while an express gate has a packet.  In the rest of the instant,
      whatever happens, a packet that leaves the selection is an express packet. */
  lemma AskedExpressComes(b: Board, run: Trace<BoardEvent>, d: Board, perTick: real, i: nat)
    requires InStep(b, perTick) && P.Sound(b.port) && !b.port.fromUs && ExpressReady(b.port.lanes)
    requires Reaches(b.(port := P.Step(b.port, P.MacRequest)), run, d, perTick) && InOneInstant(run)
    requires i < |d.port.lanes| && d.port.lanes[i].toSelection != []
    ensures d.port.lanes[i].express && P.Enabled(d.port, P.ThroughSelection(i))
  {
    NobodyBusy(b.port);
    P.StepKeepsSound(b.port, P.MacRequest);
    RunKeepsAsked(b.(port := P.Step(b.port, P.MacRequest)), run, d, perTick);
    P.TokenOfLane(d.port.lanes, i);
  }

  lemma OneMore(b: Board, run: Trace<BoardEvent>, m: Board, e: P.Event, perTick: real)
    requires Reaches(b, run, m, perTick) && InOneInstant(run) && InStep(m, perTick)
    requires !e.Gates? && !e.MacRequest? && P.Enabled(m.port, e)
    ensures var d := m.(port := P.Step(m.port, e));
      Reaches(b, Then(run, Inside(e)), d, perTick) && InOneInstant(Then(run, Inside(e))) && InStep(d, perTick)
  {
    assert CanHappen(m, Inside(e), perTick) && Happened(m, Inside(e), perTick) == m.(port := P.Step(m.port, e));
    HappenedInStep(m, Inside(e), perTick);
  }

  lemma LaneServed(b: Board, before: Trace<BoardEvent>, m: Board, e: P.Event, perTick: real)
    returns (run: Trace<BoardEvent>, d: Board)
    requires Reaches(b, before, m, perTick) && InOneInstant(before) && InStep(m, perTick)
    requires P.OfLane(e) && P.Enabled(m.port, e)
    ensures Reaches(b, run, d, perTick) && InOneInstant(run) && InStep(d, perTick)
    ensures |d.port.lanes| == |m.port.lanes| && d.port.lanes[e.lane] == P.LaneStep(m.port.lanes[e.lane], e)
  {
    OneMore(b, before, m, e, perTick);
    run, d := Then(before, Inside(e)), m.(port := P.Step(m.port, e));
  }

  /** The request of a gate goes down to its queue. */
  lemma LaneAsked(b: Board, before: Trace<BoardEvent>, m: Board, perTick: real, i: nat)
    returns (run: Trace<BoardEvent>, d: Board)
    requires Reaches(b, before, m, perTick) && InOneInstant(before) && InStep(m, perTick) && i < |m.port.lanes|
    requires m.port.lanes[i].gateRequest && P.Ready(m.port.lanes[i])
    ensures Reaches(b, run, d, perTick) && InOneInstant(run) && InStep(d, perTick) && i < |d.port.lanes|
    ensures P.Enabled(d.port, P.QueueRequest(i)) && d.port.lanes[i].express == m.port.lanes[i].express
  {
    run, d := LaneServed(b, before, m, P.GateRequest(i), perTick);
    run, d := LaneServed(b, run, d, P.AlgorithmRequest(i), perTick);
  }

  /** And its packet comes up to the selection. */
  lemma LaneAnswers(b: Board, before: Trace<BoardEvent>, m: Board, perTick: real, i: nat)
    returns (run: Trace<BoardEvent>, d: Board)
    requires Reaches(b, before, m, perTick) && InOneInstant(before) && InStep(m, perTick)
    requires P.Enabled(m.port, P.QueueRequest(i))
    ensures Reaches(b, run, d, perTick) && InOneInstant(run) && i < |d.port.lanes|
    ensures d.port.lanes[i].toSelection != [] && d.port.lanes[i].express == m.port.lanes[i].express
  {
    run, d := LaneServed(b, before, m, P.QueueRequest(i), perTick);
    run, d := LaneServed(b, run, d, P.ThroughAlgorithm(i), perTick);
    run, d := LaneServed(b, run, d, P.ThroughGate(i), perTick);
  }

  lemma SelectionAsksExpress(p: P.Port) returns (i: nat)
    requires !p.fromUs && ExpressReady(p.lanes)
    ensures var asked := P.Step(p, P.MacRequest);
      P.Enabled(asked, P.SelectionRequest) &&
        var lanes := P.Step(asked, P.SelectionRequest).lanes;
        i < |lanes| && lanes[i].express && lanes[i].gateRequest && P.Ready(lanes[i])
  {
    P.ChoiceIsBest(p.lanes);
    i := P.Choice(p.lanes).value;
  }

  /** And one can come: whenever a port is asked so, it can bring an express packet to the selection. */
  lemma AskedExpressCanCome(b: Board, perTick: real) returns (run: Trace<BoardEvent>, d: Board, i: nat)
    requires InStep(b, perTick) && !b.port.fromUs && ExpressReady(b.port.lanes)
    ensures Reaches(b.(port := P.Step(b.port, P.MacRequest)), run, d, perTick) && InOneInstant(run)
    ensures i < |d.port.lanes| && d.port.lanes[i].express && d.port.lanes[i].toSelection != []
  {
    var asked := b.(port := P.Step(b.port, P.MacRequest));
    i := SelectionAsksExpress(b.port);
    OneMore(asked, Start, asked, P.SelectionRequest, perTick);
    var m := asked.(port := P.Step(asked.port, P.SelectionRequest));
    run, d := LaneAsked(asked, Then(Start, Inside(P.SelectionRequest)), m, perTick, i);
    run, d := LaneAnswers(asked, run, d, perTick, i);
  }

  method AskOrNot(mac: M.PreemptableMac, now: int, frame: F.Frame, express: bool, duration: nat)
    returns (asked: bool, ok: bool)
    requires mac.Valid() && mac.transmittingPreemptableFrame && T.Running(mac.Sending(), now, mac.byteTime)
    requires F.MIN_FRAME <= frame.length && express
    modifies mac
    ensures mac.Valid() && asked == F.NowPossible(old(mac.Sending()), now, mac.byteTime)
    ensures asked ==> ok && mac.currentExpressFrame == Some(frame)
    ensures mac.Sending() ==
      if asked then F.Step(old(mac.Sending()), F.Preempt(now), mac.byteTime) else old(mac.Sending())
    ensures asked ==> mac.endTxMsg == Some(now + F.Duration(F.CRC, mac.byteTime))
    ensures !asked ==> unchanged(mac`currentExpressFrame, mac`curTxFrame, mac`transmitState)
    ensures mac.Receiving() == old(mac.Receiving())
  {
    asked := mac.PacketEnqueued(now, true);
    ok := false;
    if asked {
      ok := mac.HandleUpperPacket(M.Upper(frame, express), now, duration);
    }
  }

  /** An express packet is announced to a MAC that is sending a part nobody has cut.  If the MAC asks now, then whatever
      answers in this instant finds the MAC's assertions true and cuts the part. */
  method AskAndCut(mac: M.PreemptableMac, now: int, frame: F.Frame, express: bool, duration: nat,
                   ghost b: Board, ghost run: Trace<BoardEvent>, ghost d: Board, ghost perTick: real, ghost i: nat)
    returns (asked: bool, ok: bool)
    requires mac.Valid() && mac.transmittingPreemptableFrame && T.Running(mac.Sending(), now, mac.byteTime)
    requires F.MIN_FRAME <= frame.length
    requires InStep(b, perTick) && P.Sound(b.port) && !b.port.fromUs && ExpressReady(b.port.lanes)
    requires Reaches(b.(port := P.Step(b.port, P.MacRequest)), run, d, perTick) && InOneInstant(run)
    requires i < |d.port.lanes| && d.port.lanes[i].toSelection != [] && express == d.port.lanes[i].express
    modifies mac
    ensures mac.Valid() && asked == F.NowPossible(old(mac.Sending()), now, mac.byteTime)
    ensures asked ==> ok && mac.currentExpressFrame == Some(frame)
    ensures mac.Sending() ==
      if asked then F.Step(old(mac.Sending()), F.Preempt(now), mac.byteTime) else old(mac.Sending())
    ensures asked ==> mac.endTxMsg == Some(now + F.Duration(F.CRC, mac.byteTime))
    ensures !asked ==> unchanged(mac`currentExpressFrame, mac`curTxFrame, mac`transmitState)
    ensures mac.Receiving() == old(mac.Receiving())
  {
    AskedExpressComes(b, run, d, perTick, i);
    asked, ok := AskOrNot(mac, now, frame, express, duration);
  }
}
