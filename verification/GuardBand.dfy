/** Length-aware scheduling: the gate's prediction and the queue's length check together keep every
    transmission within the time the gate stays open. */
module GuardBand {
  import opened Traces
  import opened GateSchedules
  import opened Lookahead
  import opened LengthAwareQueues
  import opened GateControllers
  import L = LazyClock

  lemma CappedTakesTime(ticks: nat, clockRate: real, bitTime: real, bits: nat)
    requires 0.0 < clockRate && 0.0 < bitTime && 0.0 < clockRate / bitTime
    requires bits <= Capped(ticks, clockRate / bitTime)
    ensures bits as real * bitTime <= ticks as real * clockRate
  {
    var perTick := clockRate / bitTime;
    BitsInIs(ticks, perTick);
    BitsInMonotone(0, ticks, perTick);
    var slack := ticks as real * perTick - bits as real;
    assert slack * bitTime >= 0.0;
    assert perTick * bitTime == clockRate;
    assert (ticks as real * perTick) * bitTime == ticks as real * clockRate;
    assert (ticks as real * perTick - bits as real) * bitTime ==
      (ticks as real * perTick) * bitTime - bits as real * bitTime;
  }

  /** A packet that may leave under the limit predicted for gate g is on the wire, headers included,
      before the clock shows the moment at which the gate first closes: the k-th tick from now. */
  lemma FitsBeforeClosing(c: Control, g: nat, since: nat, clockRate: real, bitTime: real, maxBits: nat,
    packets: seq<Packet>, k: nat)
    requires Running(c) && since <= ShownEntry(c).length
    requires 0.0 < clockRate && 0.0 < bitTime && 0.0 < clockRate / bitTime
    requires IsMaxBit(c, g, since, clockRate / bitTime, maxBits)
    requires !Blocked(packets, maxBits) && FirstClosed(c, g, k)
    ensures (packets[0].bits + HEADER_BITS) as real * bitTime <= TimeUntil(c, since, k) as real * clockRate
  {
    CappedTakesTime(TimeUntil(c, since, k), clockRate, bitTime, packets[0].bits + HEADER_BITS);
  }

  /** The packet, headers included, passes gate g before it closes, whenever that will be. */
  ghost predicate PassesInTime(packet: Packet, c: Control, g: nat, since: nat, clockRate: real, bitTime: real)
    requires Running(c) && since <= ShownEntry(c).length
  {
    forall k: nat :: FirstClosed(c, g, k) ==>
      (packet.bits + HEADER_BITS) as real * bitTime <= TimeUntil(c, since, k) as real * clockRate
  }

  lemma HeadPassesInTime(c: Control, g: nat, since: nat, clockRate: real, bitTime: real, maxBits: nat,
    packets: seq<Packet>)
    requires Running(c) && since <= ShownEntry(c).length
    requires 0.0 < clockRate && 0.0 < bitTime && 0.0 < clockRate / bitTime
    requires IsMaxBit(c, g, since, clockRate / bitTime, maxBits) && !Blocked(packets, maxBits)
    ensures PassesInTime(packets[0], c, g, since, clockRate, bitTime)
  {
    forall k: nat | FirstClosed(c, g, k)
      ensures (packets[0].bits + HEADER_BITS) as real * bitTime <= TimeUntil(c, since, k) as real * clockRate
    {
      FitsBeforeClosing(c, g, since, clockRate, bitTime, maxBits, packets, k);
    }
  }

  /** The global time of a clock tick. */
  function GlobalTime(start: int, rate: int, tick: nat): int {
    start + rate * tick
  }

  /** A frame of a packet asked for at global time `now` whose last bit leaves at `end` is less than `slack` late
      for the tick at which gate g first closes in the future of controller state c. */
  ghost predicate EndsBefore(end: real, slack: real, c: Control, g: nat, since: nat, start: int, rate: int, now: int)
    requires Running(c) && since <= ShownEntry(c).length && 0 < rate && start <= now
  {
    forall k: nat :: FirstClosed(c, g, k) ==> end < ClosingTick(c, since, start, rate, now, k) as real + slack
  }

  /** The same, and `slack` late at most. */
  ghost predicate EndsBy(end: real, slack: real, c: Control, g: nat, since: nat, start: int, rate: int, now: int)
    requires Running(c) && since <= ShownEntry(c).length && 0 < rate && start <= now
  {
    forall k: nat :: FirstClosed(c, g, k) ==> end <= ClosingTick(c, since, start, rate, now, k) as real + slack
  }

  /** The global time of the controller's k-th tick from now. */
  ghost function ClosingTick(c: Control, since: nat, start: int, rate: int, now: int, k: nat): int
    requires Running(c) && since <= ShownEntry(c).length && 0 < rate && start <= now
  {
    GlobalTime(start, rate, L.TickAt(start, rate, now) + TimeUntil(c, since, k))
  }

  ghost predicate OnTick(start: int, rate: int, now: int)
    requires 0 < rate && start <= now
  {
    now == GlobalTime(start, rate, L.TickAt(start, rate, now))
  }

  /** The local time is the clock's last tick: what passes in local time and is then held up by `late` is late by
      less than a period more than that, and by no more than that if asked for on a tick. */
  lemma PassingEnds(packet: Packet, late: real, end: real, c: Control, g: nat, since: nat, start: int, rate: int,
                    now: int, bitTime: real)
    requires Running(c) && since <= ShownEntry(c).length && 0 < rate && start <= now
    requires PassesInTime(packet, c, g, since, rate as real, bitTime)
    requires end <= now as real + (packet.bits + HEADER_BITS) as real * bitTime + late
    ensures EndsBefore(end, rate as real + late, c, g, since, start, rate, now)
    ensures OnTick(start, rate, now) ==> EndsBy(end, late, c, g, since, start, rate, now)
  {
    var local := L.TickAt(start, rate, now);
    L.TickAtBounds(start, rate, now);
    forall k: nat | FirstClosed(c, g, k)
      ensures var closing := ClosingTick(c, since, start, rate, now, k) as real;
        end < closing + (rate as real + late) && (OnTick(start, rate, now) ==> end <= closing + late)
    {
      ClosingTime(start, rate, local, TimeUntil(c, since, k));
    }
  }

  lemma ClosingTime(start: int, rate: int, local: nat, until: nat)
    ensures GlobalTime(start, rate, local + until) as real ==
      GlobalTime(start, rate, local) as real + until as real * rate as real
    ensures start + rate * (local + 1) == GlobalTime(start, rate, local) + rate
  {
    assert rate * (local + until) == rate * local + rate * until;
    assert (rate * until) as real == until as real * rate as real;
  }

  /** The request path of one instant in local time, from the gate's limit to the queue: the head of the queue
      leaves if it fits under the limit, and then it passes the gate in time. */
  method AskQueue(controller: GateController, queue: LengthAwareQueue, g: nat, local: nat)
    returns (packet: Option<Packet>)
    requires 0.0 < controller.clockRate && 0.0 < controller.transmitRate && Running(controller.View())
    requires controller.lastChange <= local <= controller.lastChange + ShownEntry(controller.View()).length
    requires !LookaheadEnds.Stuck(controller.View(), g, local - controller.lastChange, controller.PerTick())
    modifies queue
    ensures packet.None? ==>
      && queue.View() == old(queue.View()) && 0.0 < controller.PerTick()
      && exists bits: nat ::
           IsMaxBit(controller.View(), g, local - controller.lastChange, controller.PerTick(), bits) &&
             Blocked(queue.queue, bits)
    ensures packet.Some? ==>
      && [packet.value] + queue.queue == old(queue.queue)
      && queue.View() == old(queue.View()).(packets := queue.queue,
        free := old(queue.availableBufferCapacity) + packet.value.bits)
      && PassesInTime(packet.value, controller.View(), g, local - controller.lastChange, controller.clockRate,
        SECOND / controller.transmitRate)
  {
    ghost var c, since := controller.View(), local - controller.lastChange;
    var maxBits := controller.CalculateMaxBit(g, local);
    if queue.IsEmpty(maxBits) {
      assert IsMaxBit(c, g, since, controller.PerTick(), maxBits) && Blocked(queue.queue, maxBits);
      return None;
    }
    HeadPassesInTime(c, g, since, controller.clockRate, SECOND / controller.transmitRate, maxBits, queue.queue);
    var head := queue.HandleRequestPacketEvent(maxBits);
    assert controller.View() == c && local - controller.lastChange == since;
    return Some(head);
  }
}
