/** Which packets the pipeline carries: over every run of a port, each lane hands up the packets it held and those that
    found room behind them, in order and once each, and its queue is the bounded queue of LengthAwareQueue. */
module PacketFlow {
  import opened Traces
  import P = Pipeline
  import Q = LengthAwareQueues

  /** All packets of a lane, the one that leaves next in front. */
  function Held(lane: P.Lane): seq<Q.Packet> {
    Above(lane) + lane.queue
  }

  /** Those that have left the queue. */
  function Above(lane: P.Lane): seq<Q.Packet> {
    lane.toSelection + lane.toGate + lane.toAlgorithm
  }

  // ----- one event --------------------------------------------------------------------------

  /** The packet an event brings to lane i, if it finds room. */
  function Entering(e: P.Event, i: nat): seq<Q.Packet> {
    if e.Arrival? && e.lane == i && e.fits then [e.packet] else []
  }

  /** The packet that lane i hands to the MAC. */
  function Leaving(p: P.Port, e: P.Event, i: nat): seq<Q.Packet>
    requires P.Enabled(p, e)
  {
    if e.ThroughSelection? && e.lane == i then [p.lanes[i].toSelection[0]] else []
  }

  /** The packet that leaves the queue of lane i. */
  function Dequeued(p: P.Port, e: P.Event, i: nat): seq<Q.Packet>
    requires P.Enabled(p, e)
  {
    if e.QueueRequest? && e.lane == i then [p.lanes[i].queue[0]] else []
  }

  lemma OtherEventsKeepPackets(p: P.Port, e: P.Event, i: nat)
    requires P.Enabled(p, e) && i < |p.lanes| && !(P.OfLane(e) && e.lane == i)
    ensures var p' := P.Step(p, e);
      |p'.lanes| == |p.lanes| && Above(p'.lanes[i]) == Above(p.lanes[i]) && p'.lanes[i].queue == p.lanes[i].queue
  {
    P.ChoiceIsBest(p.lanes);
  }

  lemma StepKeepsAbove(p: P.Port, e: P.Event, i: nat)
    requires P.Enabled(p, e) && i < |p.lanes|
    ensures i < |P.Step(p, e).lanes| == |p.lanes|
    ensures Leaving(p, e, i) + Above(P.Step(p, e).lanes[i]) == Above(p.lanes[i]) + Dequeued(p, e, i)
  {
    if P.OfLane(e) && e.lane == i {
      LaneKeepsAbove(p.lanes[i], e);
    } else {
      OtherEventsKeepPackets(p, e, i);
    }
  }

  /** The head of a sequence of packets moves to the end of the one in front of it. */
  lemma HeadMoves(front: seq<Q.Packet>, s: seq<Q.Packet>, back: seq<Q.Packet>)
    requires s != []
    ensures front + [s[0]] + s[1..] + back == front + s + back && front + ([s[0]] + s[1..]) + back == front + s + back
  {
    assert [s[0]] + s[1..] == s;
    assert front + [s[0]] + s[1..] == front + s;
  }

  lemma LaneKeepsAbove(lane: P.Lane, e: P.Event)
    requires P.OfLane(e)
    requires e.ThroughSelection? ==> lane.toSelection != []
    requires e.QueueRequest? ==> lane.queue != []
    ensures (if e.ThroughSelection? then [lane.toSelection[0]] else []) + Above(P.LaneStep(lane, e)) ==
      Above(lane) + if e.QueueRequest? then [lane.queue[0]] else []
  {
    if e.ThroughSelection? {
      HeadMoves([], lane.toSelection, lane.toGate + lane.toAlgorithm);
    } else if e.ThroughGate? && lane.toGate != [] {
      HeadMoves(lane.toSelection, lane.toGate, lane.toAlgorithm);
    } else if e.ThroughAlgorithm? && lane.toAlgorithm != [] {
      HeadMoves(lane.toSelection + lane.toGate, lane.toAlgorithm, []);
    }
  }

  /** The queue changes at its ends only. */
  lemma StepKeepsQueue(p: P.Port, e: P.Event, i: nat)
    requires P.Enabled(p, e) && i < |p.lanes|
    ensures i < |P.Step(p, e).lanes|
    ensures Dequeued(p, e, i) + P.Step(p, e).lanes[i].queue == p.lanes[i].queue + Entering(e, i)
  {
    if !(P.OfLane(e) && e.lane == i) {
      OtherEventsKeepPackets(p, e, i);
    }
  }

  // ----- runs -------------------------------------------------------------------------------

  /** The state a run leads to. */
  function After(p: P.Port, run: Trace<P.Event>): P.Port {
    match run
    case Start => p
    case Then(before, e) => if P.Enabled(After(p, before), e) then P.Step(After(p, before), e) else After(p, before)
  }

  ghost predicate Legal(p: P.Port, run: Trace<P.Event>) {
    match run
    case Start => true
    case Then(before, e) => Legal(p, before) && P.Enabled(After(p, before), e)
  }

  lemma {:induction false} ReachesIs(p: P.Port, run: Trace<P.Event>, q: P.Port)
    ensures P.Reaches(p, run, q) <==> Legal(p, run) && q == After(p, run)
  {
    match run
    case Start =>
    case Then(before, e) =>
      ReachesIs(p, before, After(p, before));
      if P.Reaches(p, run, q) {
        var m :| P.Reaches(p, before, m) && P.Enabled(m, e) && P.Step(m, e) == q;
        ReachesIs(p, before, m);
      }
  }

  /** The packets that came to lane i and found room. */
  function Entered(run: Trace<P.Event>, i: nat): seq<Q.Packet> {
    match run
    case Start => []
    case Then(before, e) => Entered(before, i) + Entering(e, i)
  }

  /** The packets that lane i has handed to the MAC. */
  ghost function HandedUp(p: P.Port, run: Trace<P.Event>, i: nat): seq<Q.Packet>
    requires Legal(p, run)
  {
    match run
    case Start => []
    case Then(before, e) => HandedUp(p, before, i) + Leaving(After(p, before), e, i)
  }

  /** The packets that left the queue of lane i. */
  ghost function TakenOut(p: P.Port, run: Trace<P.Event>, i: nat): seq<Q.Packet>
    requires Legal(p, run)
  {
    match run
    case Start => []
    case Then(before, e) => TakenOut(p, before, i) + Dequeued(After(p, before), e, i)
  }

  lemma {:induction false} RunKeepsAbove(p: P.Port, run: Trace<P.Event>, i: nat)
    requires Legal(p, run) && i < |p.lanes|
    ensures i < |After(p, run).lanes|
    ensures HandedUp(p, run, i) + Above(After(p, run).lanes[i]) == Above(p.lanes[i]) + TakenOut(p, run, i)
  {
    match run
    case Start =>
    case Then(before, e) =>
      RunKeepsAbove(p, before, i);
      StepKeepsAbove(After(p, before), e, i);
      Chain(HandedUp(p, before, i), Leaving(After(p, before), e, i), Above(After(p, run).lanes[i]),
            Above(After(p, before).lanes[i]), Dequeued(After(p, before), e, i), Above(p.lanes[i]),
            TakenOut(p, before, i));
  }

  /** What has gone out in front and what has come in behind can be taken step by step. */
  lemma Chain(out: seq<Q.Packet>, left: seq<Q.Packet>, rest': seq<Q.Packet>, rest: seq<Q.Packet>, came: seq<Q.Packet>,
              first: seq<Q.Packet>, in_: seq<Q.Packet>)
    requires out + rest == first + in_ && left + rest' == rest + came
    ensures out + left + rest' == first + (in_ + came)
  {
    assert out + left + rest' == out + (left + rest') == out + rest + came;
  }

  lemma {:induction false} RunKeepsQueue(p: P.Port, run: Trace<P.Event>, i: nat)
    requires Legal(p, run) && i < |p.lanes|
    ensures i < |After(p, run).lanes|
    ensures TakenOut(p, run, i) + After(p, run).lanes[i].queue == p.lanes[i].queue + Entered(run, i)
  {
    match run
    case Start =>
    case Then(before, e) =>
      RunKeepsQueue(p, before, i);
      StepKeepsQueue(After(p, before), e, i);
      Chain(TakenOut(p, before, i), Dequeued(After(p, before), e, i), After(p, run).lanes[i].queue,
            After(p, before).lanes[i].queue, Entering(e, i), p.lanes[i].queue, Entered(before, i));
  }

  /** Conservation: over every run the packets handed to the MAC by a lane, followed by those it still holds, are those
      it held, followed by those that came and found room, each once and in order. */
  lemma PacketsAreConserved(p: P.Port, run: Trace<P.Event>, q: P.Port, i: nat)
    requires P.Reaches(p, run, q) && i < |p.lanes|
    ensures Legal(p, run) && i < |q.lanes|
    ensures HandedUp(p, run, i) + Held(q.lanes[i]) == Held(p.lanes[i]) + Entered(run, i)
  {
    ReachesIs(p, run, q);
    RunKeepsAbove(p, run, i);
    RunKeepsQueue(p, run, i);
    Link(HandedUp(p, run, i), Above(q.lanes[i]), q.lanes[i].queue, Above(p.lanes[i]), TakenOut(p, run, i),
         p.lanes[i].queue, Entered(run, i));
  }

  /** What leaves the queue enters what is above it. */
  lemma Link(up: seq<Q.Packet>, above': seq<Q.Packet>, queue': seq<Q.Packet>, above: seq<Q.Packet>,
             taken: seq<Q.Packet>, queue: seq<Q.Packet>, came: seq<Q.Packet>)
    requires up + above' == above + taken && taken + queue' == queue + came
    ensures up + (above' + queue') == above + queue + came
  {
    assert up + (above' + queue') == up + above' + queue' == above + (taken + queue');
  }

  // ----- the bounded queue in its lane ------------------------------------------------------

  /** What an event asks of the queue of lane i. */
  function Asked(p: P.Port, e: P.Event, i: nat): Option<Q.Event>
    requires P.Enabled(p, e)
  {
    if e.Arrival? && e.lane == i then Some(Q.Arrive(e.packet))
    else if e.QueueRequest? && e.lane == i then Some(Q.Request(p.lanes[i].queueRequest.value))
    else None
  }

  /** An arrival finds room exactly if the free capacity holds it. */
  predicate FitsAsJudged(e: P.Event, i: nat, free: int) {
    e.Arrival? && e.lane == i ==> (e.fits <==> e.packet.bits <= free)
  }

  lemma LaneAsksQueue(lane: P.Lane, e: P.Event, queue: Q.Queue)
    requires P.OfLane(e) && queue.packets == lane.queue
    ensures e.Arrival? && (e.fits <==> e.packet.bits <= queue.free) ==>
      P.LaneStep(lane, e).queue == Q.Handled(queue, Q.Arrive(e.packet)).packets
    ensures e.QueueRequest? && lane.queueRequest.Some? && !Q.Blocked(lane.queue, lane.queueRequest.value) ==>
      P.LaneStep(lane, e).queue == Q.Handled(queue, Q.Request(lane.queueRequest.value)).packets
    ensures !e.Arrival? && !e.QueueRequest? ==> P.LaneStep(lane, e).queue == lane.queue
  {}

  /** An event does to the queue of lane i what the bounded queue with the same packets does when asked the same, and
      every arrival is announced. */
  lemma StepIsQueueStep(p: P.Port, e: P.Event, i: nat, queue: Q.Queue)
    requires P.Enabled(p, e) && i < |p.lanes| && queue.packets == p.lanes[i].queue && FitsAsJudged(e, i, queue.free)
    ensures i < |P.Step(p, e).lanes|
    ensures match Asked(p, e, i)
      case None =>
        P.Step(p, e).lanes[i].queue == queue.packets && Entering(e, i) == Dequeued(p, e, i) == []
      case Some(a) =>
        && P.Step(p, e).lanes[i].queue == Q.Handled(queue, a).packets
        && (a.Arrive? ==> P.Step(p, e).lanes[i].algorithmNote)
        && Entering(e, i) == (if a.Arrive? && a.packet.bits <= queue.free then [a.packet] else [])
        && Dequeued(p, e, i) ==
           (if a.Request? && !Q.Blocked(queue.packets, a.maxBits) then [queue.packets[0]] else [])
  {
    if P.OfLane(e) && e.lane == i {
      LaneAsksQueue(p.lanes[i], e, queue);
      StepOfLane(p, e);
    } else {
      OtherEventsKeepPackets(p, e, i);
    }
  }

  lemma StepOfLane(p: P.Port, e: P.Event)
    requires P.Enabled(p, e) && P.OfLane(e)
    ensures e.lane < |p.lanes| && P.Step(p, e).lanes == p.lanes[e.lane := P.LaneStep(p.lanes[e.lane], e)]
  {}

  /** What the queue of lane i is asked in a run. */
  ghost function QueueRun(p: P.Port, run: Trace<P.Event>, i: nat): Trace<Q.Event>
    requires Legal(p, run)
  {
    match run
    case Start => Start
    case Then(before, e) =>
      match Asked(After(p, before), e, i)
      case None => QueueRun(p, before, i)
      case Some(a) => Then(QueueRun(p, before, i), a)
  }

  ghost predicate RoomIsJudged(p: P.Port, run: Trace<P.Event>, i: nat, capacity: nat)
    requires Legal(p, run)
  {
    match run
    case Start => true
    case Then(before, e) =>
      && RoomIsJudged(p, before, i, capacity)
      && FitsAsJudged(e, i, Q.QueueAfter(capacity, QueueRun(p, before, i)).free)
  }

  /** Over every run from an empty queue, the queue of a lane is the bounded queue that is asked the same: it holds the
      same packets, has accepted the same and let out the same. */
  lemma {:induction false} LaneIsBoundedQueue(p: P.Port, run: Trace<P.Event>, i: nat, capacity: nat)
    requires Legal(p, run) && i < |p.lanes| && p.lanes[i].queue == [] && RoomIsJudged(p, run, i, capacity)
    ensures i < |After(p, run).lanes|
    ensures After(p, run).lanes[i].queue == Q.QueueAfter(capacity, QueueRun(p, run, i)).packets
    ensures Entered(run, i) == Q.Accepted(capacity, QueueRun(p, run, i))
    ensures TakenOut(p, run, i) == Q.SentOut(capacity, QueueRun(p, run, i))
  {
    match run
    case Start =>
    case Then(before, e) =>
      LaneIsBoundedQueue(p, before, i, capacity);
      var m := After(p, before);
      StepIsQueueStep(m, e, i, Q.QueueAfter(capacity, QueueRun(p, before, i)));
  }

  /** The limit that comes down to the queue is the one the gate had when it asked. */
  lemma LimitComesDown(p: P.Port, i: nat)
    requires P.Enabled(p, P.GateRequest(i))
    ensures var asked := P.Step(p, P.GateRequest(i));
      P.Enabled(asked, P.AlgorithmRequest(i)) &&
        P.Step(asked, P.AlgorithmRequest(i)).lanes[i].queueRequest == Some(p.lanes[i].limit)
  {}
}
