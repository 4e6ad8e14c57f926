/** The bounded FIFO queue in front of a gate. */
module LengthAwareQueues {
  import opened Traces

  datatype Packet = Packet(id: nat, bits: nat)

  /** Added to a packet's bits to account for all headers: 30 bytes. */
  const HEADER_BITS := 240

  function Bits(ps: seq<Packet>): nat {
    if ps == [] then 0 else ps[0].bits + Bits(ps[1..])
  }

  lemma {:induction false} BitsConcat(a: seq<Packet>, b: seq<Packet>)
    ensures Bits(a + b) == Bits(a) + Bits(b)
  {
    if a == [] {
      assert a + b == b;
    } else {
      assert (a + b)[1..] == a[1..] + b;
      BitsConcat(a[1..], b);
    }
  }

  // ----- the queue as a value ---------------------------------------------------------------

  datatype Queue = Queue(free: int, packets: seq<Packet>, received: nat, enqueued: nat, dropped: nat)

  datatype Event = Arrive(packet: Packet) | Request(maxBits: nat)

  /** Nothing may leave under a limit of `maxBits`. */
  predicate Blocked(packets: seq<Packet>, maxBits: nat) {
    packets == [] || packets[0].bits + HEADER_BITS > maxBits
  }

  function Handled(q: Queue, e: Event): Queue {
    match e
    case Arrive(p) =>
      if p.bits <= q.free
      then Queue(q.free - p.bits, q.packets + [p], q.received + 1, q.enqueued + 1, q.dropped)
      else q.(received := q.received + 1, dropped := q.dropped + 1)
    case Request(maxBits) =>
      if Blocked(q.packets, maxBits) then q
      else q.(free := q.free + q.packets[0].bits, packets := q.packets[1..])
  }

  function Initial(capacity: nat): Queue {
    Queue(capacity, [], 0, 0, 0)
  }

  function QueueAfter(capacity: nat, run: Trace<Event>): Queue {
    match run
    case Start => Initial(capacity)
    case Then(before, e) => Handled(QueueAfter(capacity, before), e)
  }

  /** The arrivals that found room, in order of arrival. */
  function Accepted(capacity: nat, run: Trace<Event>): seq<Packet> {
    match run
    case Start => []
    case Then(before, e) =>
      Accepted(capacity, before) +
      if e.Arrive? && e.packet.bits <= QueueAfter(capacity, before).free then [e.packet] else []
  }

  /** The packets that left, in the order in which they left. */
  function SentOut(capacity: nat, run: Trace<Event>): seq<Packet> {
    match run
    case Start => []
    case Then(before, e) =>
      var q := QueueAfter(capacity, before);
      SentOut(capacity, before) +
      if e.Request? && !Blocked(q.packets, e.maxBits) then [q.packets[0]] else []
  }

  function Arrivals(run: Trace<Event>): nat {
    match run
    case Start => 0
    case Then(before, e) => Arrivals(before) + if e.Arrive? then 1 else 0
  }

  /** One event: capacity and counters stay balanced, and the queue changes only at its ends. */
  lemma StepConserves(q: Queue, e: Event)
    requires 0 <= q.free
    ensures var q' := Handled(q, e);
      && 0 <= q'.free && q'.free + Bits(q'.packets) == q.free + Bits(q.packets)
      && q'.received - q'.enqueued - q'.dropped == q.received - q.enqueued - q.dropped
      && (e.Arrive? && e.packet.bits <= q.free ==> q'.packets == q.packets + [e.packet])
      && (e.Request? && !Blocked(q.packets, e.maxBits) ==> [q.packets[0]] + q'.packets == q.packets)
  {
    if e.Arrive? {
      BitsConcat(q.packets, [e.packet]);
    }
  }

  /** Over every run: no bit of capacity is lost or gained, and every arrival is counted once. */
  lemma {:induction false} QueueConserves(capacity: nat, run: Trace<Event>)
    ensures var q := QueueAfter(capacity, run);
      && 0 <= q.free && q.free + Bits(q.packets) == capacity
      && q.received == Arrivals(run) == q.enqueued + q.dropped
      && q.enqueued == |Accepted(capacity, run)|
  {
    match run
    case Start =>
    case Then(before, e) =>
      QueueConserves(capacity, before);
      StepConserves(QueueAfter(capacity, before), e);
  }

  /** Over every run: what has left followed by what is queued is what was accepted, in the same order. */
  lemma {:induction false} QueueIsFifo(capacity: nat, run: Trace<Event>)
    ensures SentOut(capacity, run) + QueueAfter(capacity, run).packets == Accepted(capacity, run)
  {
    match run
    case Start =>
    case Then(before, e) =>
      QueueIsFifo(capacity, before);
      QueueConserves(capacity, before);
      StepConserves(QueueAfter(capacity, before), e);
  }

  /** Whatever leaves on a request fits into the limit of that request, headers included. */
  lemma {:induction false} SentPacketsFit(capacity: nat, before: Trace<Event>, maxBits: nat)
    requires SentOut(capacity, Then(before, Request(maxBits))) != SentOut(capacity, before)
    ensures var q := QueueAfter(capacity, before).packets;
      && q != [] && q[0].bits + HEADER_BITS <= maxBits
      && SentOut(capacity, Then(before, Request(maxBits))) == SentOut(capacity, before) + [q[0]]
  {}

  /** An arrival is announced whether or not it finds room.  A packet can then leave under a limit, if none has left
      since, exactly if the head fits: the packet that waited already, or the arrival if it is queued first. */
  lemma ArrivalIsReadyIff(q: Queue, packet: Packet, limit: nat)
    ensures !Blocked(Handled(q, Arrive(packet)).packets, limit) <==>
      if q.packets != [] then q.packets[0].bits + HEADER_BITS <= limit
      else packet.bits <= q.free && packet.bits + HEADER_BITS <= limit
  {}

  // ----- the module -------------------------------------------------------------------------

  class LengthAwareQueue {
    var availableBufferCapacity: int
    var queue: seq<Packet>
    var numPacketsReceived: nat
    var numPacketsDropped: nat
    var numPacketsEnqueued: nat

    ghost function View(): Queue
      reads this
    {
      Queue(availableBufferCapacity, queue, numPacketsReceived, numPacketsEnqueued, numPacketsDropped)
    }

    constructor (bufferCapacity: nat)
      ensures View() == Initial(bufferCapacity)
    {
      availableBufferCapacity, queue := bufferCapacity, [];
      numPacketsReceived, numPacketsDropped, numPacketsEnqueued := 0, 0, 0;
    }

    /** An arriving packet is counted and, if there is room for it, queued; the transmission
        selection algorithm is told in either case. */
    method HandleMessage(packet: Packet) returns (notifyAlgorithm: bool)
      modifies this
      ensures View() == Handled(old(View()), Arrive(packet)) && notifyAlgorithm
    {
      numPacketsReceived := numPacketsReceived + 1;
      notifyAlgorithm := Enqueue(packet);
    }

    method Enqueue(packet: Packet) returns (notifyAlgorithm: bool)
      modifies this
      ensures View().(received := old(numPacketsReceived) + 1) == Handled(old(View()), Arrive(packet))
      ensures numPacketsReceived == old(numPacketsReceived) && notifyAlgorithm
    {
      if availableBufferCapacity >= packet.bits {
        numPacketsEnqueued := numPacketsEnqueued + 1;
        queue := queue + [packet];
        availableBufferCapacity := availableBufferCapacity - packet.bits;
        notifyAlgorithm := true;
      } else {
        numPacketsDropped := numPacketsDropped + 1;
        notifyAlgorithm := true;
      }
    }

    /** Nothing leaves an empty queue. */
    method Dequeue() returns (packet: Option<Packet>)
      modifies this
      ensures old(queue) == [] ==> packet.None? && View() == old(View())
      ensures old(queue) != [] ==>
        && packet == Some(old(queue)[0]) && queue == old(queue)[1..]
        && View() == old(View()).(free := old(availableBufferCapacity) + packet.value.bits, packets := queue)
    {
      if queue == [] {
        return None;
      }
      packet := Some(queue[0]);
      availableBufferCapacity := availableBufferCapacity + queue[0].bits;
      queue := queue[1..];
    }

    predicate IsEmpty(maxBits: nat)
      reads this
    {
      if queue == [] then true else queue[0].bits + HEADER_BITS > maxBits
    }

    /** The module asserts that the request can be met. */
    method HandleRequestPacketEvent(maxBits: nat) returns (packetToSend: Packet)
      requires !IsEmpty(maxBits)
      modifies this
      ensures View() == Handled(old(View()), Request(maxBits))
      ensures packetToSend == old(queue)[0] && packetToSend.bits + HEADER_BITS <= maxBits
    {
      var head := Dequeue();
      packetToSend := head.value;
    }
  }
}
