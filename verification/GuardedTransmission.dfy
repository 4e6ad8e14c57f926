/** The guard band up to the last bit on the link: clock, gate controller, queue and preemptable MAC together.
    A frame starts at once only if the MAC is idle, and runs through only if nobody cuts it. */
module GuardedTransmission {
  import opened Traces
  import opened GateSchedules
  import opened Lookahead
  import opened GateControllers
  import opened GuardBand
  import L = LazyClock
  import F = FramePreemption
  import Q = LengthAwareQueues
  import M = PreemptableMacs
  import LookaheadEnds
  import R = Reassembly
  import T = FinishTimes

  /** Eight bits make a byte. */
  function BitTime(byteTime: nat): real {
    byteTime as real / 8.0
  }

  /** The bits a frame takes on the link beyond those of its packet and the headers accounted for, if any. */
  function Excess(frame: F.Frame, packet: Q.Packet): nat {
    var more := 8 * (frame.length + F.PREAMBLE) - (packet.bits + Q.HEADER_BITS);
    if more <= 0 then 0 else more
  }

  /** The shortest frame is padded: the headers accounted for do not cover the packets it is used for. */
  lemma ShortPacketsExceed(frame: F.Frame, packet: Q.Packet)
    requires F.MIN_FRAME <= frame.length && packet.bits < 336
    ensures 336 - packet.bits <= Excess(frame, packet)
  {}

  lemma WireTime(frame: F.Frame, packet: Q.Packet, byteTime: nat)
    ensures F.Duration(frame.length + F.PREAMBLE, byteTime) as real
         <= (packet.bits + Q.HEADER_BITS) as real * BitTime(byteTime) +
           Excess(frame, packet) as real * BitTime(byteTime)
    ensures 8 * (frame.length + F.PREAMBLE) == packet.bits + Q.HEADER_BITS ==>
      F.Duration(frame.length + F.PREAMBLE, byteTime) as real ==
        (packet.bits + Q.HEADER_BITS) as real * BitTime(byteTime)
  {
    var bytes, bits, excess := frame.length + F.PREAMBLE, packet.bits + Q.HEADER_BITS, Excess(frame, packet);
    F.DurationIs(bytes, byteTime);
    EightBits(bytes, byteTime);
    assert bits as real * BitTime(byteTime) + excess as real * BitTime(byteTime) ==
      (bits + excess) as real * BitTime(byteTime);
    ProductRises((8 * bytes) as real, (bits + excess) as real, BitTime(byteTime));
  }

  lemma EightBits(bytes: nat, byteTime: nat)
    ensures (bytes * byteTime) as real == (8 * bytes) as real * BitTime(byteTime)
  {
    assert (bytes * byteTime) as real == bytes as real * byteTime as real;
    assert (8 * bytes) as real == 8.0 * bytes as real;
  }

  lemma ProductRises(a: real, b: real, x: real)
    requires a <= b && 0.0 <= x
    ensures a * x <= b * x
  {
    assert (b - a) * x >= 0.0;
  }

  // ----- what is admitted, and when it ends -------------------------------------------------

  /** The packet was let out for gate g at global time `now` under the limit that the lookahead means, and its
      frame needs no more than is accounted for. */
  ghost predicate Admitted(packet: Q.Packet, limit: nat, frame: F.Frame, c: Control, g: nat, since: nat,
                           start: int, rate: int, now: int, byteTime: nat)
  {
    && Running(c) && since <= ShownEntry(c).length && 0 < rate && start <= now && 0 < byteTime
    && 0.0 < PerTick(rate, byteTime) && IsMaxBit(c, g, since, PerTick(rate, byteTime), limit)
    && !Q.Blocked([packet], limit)
    && F.MIN_FRAME <= frame.length && Excess(frame, packet) == 0
  }

  /** Bits the link carries in one clock period. */
  function PerTick(rate: int, byteTime: nat): real
    requires 0 < byteTime
  {
    rate as real / BitTime(byteTime)
  }

  /** Whatever is admitted ends less than a clock period late if its frame starts `delay` later and runs through. */
  ghost predicate KeepsPeriod(delay: nat, byteTime: nat) {
    forall packet, limit, frame, c, g, since, start, rate, now ::
      Admitted(packet, limit, frame, c, g, since, start, rate, now, byteTime) ==>
        EndsBefore(End(frame, now, delay, byteTime), rate as real, c, g, since, start, rate, now)
  }

  /** And what is admitted on a tick is not late. */
  ghost predicate KeepsTick(delay: nat, byteTime: nat) {
    forall packet, limit, frame, c, g, since, start, rate, now ::
      Admitted(packet, limit, frame, c, g, since, start, rate, now, byteTime) ==>
        OnTick(start, rate, now) ==> EndsBy(End(frame, now, delay, byteTime), 0.0, c, g, since, start, rate, now)
  }

  function End(frame: F.Frame, now: int, delay: nat, byteTime: nat): real {
    (now + delay + F.Duration(frame.length + F.PREAMBLE, byteTime)) as real
  }

  /** Late by `late` at most if asked for on a tick, and by less than a clock period more if not. */
  ghost predicate LateBy(late: real, end: real, c: Control, g: nat, since: nat, start: int, rate: int, now: int)
    requires Running(c) && since <= ShownEntry(c).length && 0 < rate && start <= now
  {
    && EndsBefore(end, rate as real + late, c, g, since, start, rate, now)
    && (OnTick(start, rate, now) ==> EndsBy(end, late, c, g, since, start, rate, now))
  }

  /** What a frame is held up by: its delay, and the bits it takes beyond those accounted for. */
  function HeldUpBy(delay: int, frame: F.Frame, packet: Q.Packet, byteTime: nat): real {
    delay as real + Excess(frame, packet) as real * BitTime(byteTime)
  }

  lemma FrameEnds(packet: Q.Packet, frame: F.Frame, c: Control, g: nat, since: nat, start: int, rate: int, now: int,
                  delay: nat, byteTime: nat)
    requires Running(c) && since <= ShownEntry(c).length && 0 < rate && start <= now
    requires PassesInTime(packet, c, g, since, rate as real, BitTime(byteTime))
    ensures LateBy(HeldUpBy(delay, frame, packet, byteTime), End(frame, now, delay, byteTime), c, g, since, start,
      rate, now)
  {
    WireTime(frame, packet, byteTime);
    PassingEnds(packet, HeldUpBy(delay, frame, packet, byteTime), End(frame, now, delay, byteTime), c, g, since,
                start, rate, now, BitTime(byteTime));
  }

  /** Gate 0 was opened just now for n ticks and is closed for `shut` ticks after that. */
  function OpenFor(n: nat, shut: nat): Control {
    Control([Entry(n, {0}), Entry(shut, {})], None, 1)
  }

  lemma ClosesAfter(n: nat, shut: nat, perTick: real)
    requires 0.0 < perTick
    ensures Running(OpenFor(n, shut)) && ShownEntry(OpenFor(n, shut)).length == n
    ensures FirstClosed(OpenFor(n, shut), 0, 1) && TimeUntil(OpenFor(n, shut), 0, 1) == n
    ensures IsMaxBit(OpenFor(n, shut), 0, 0, perTick, Capped(n, perTick))
  {
    var c := OpenFor(n, shut);
    assert After(c, 0) == c && After(c, 1) == Tick(c);
    TimeToFirst(c);
    assert OpenAfter(c, 0, 0) && !OpenAfter(c, 0, 1);
    assert Decided(c, 0, 0, perTick, 1);
    DecidedIsMaxBit(c, 0, 0, perTick, 1);
  }

  /** A clock that ticks once in each byte time, asked within its first period, and a frame that fills the n ticks
      for which the gate is open. */
  lemma FillsTicks(n: nat, byteTime: nat, now: int)
    requires 72 <= n <= 1500 && 0 < byteTime && 0 <= now < byteTime
    ensures Running(OpenFor(n, 1)) && FirstClosed(OpenFor(n, 1), 0, 1)
    ensures ClosingTick(OpenFor(n, 1), 0, 0, byteTime, now, 1) == F.Duration(n, byteTime)
    ensures OnTick(0, byteTime, now) <==> now == 0
    ensures Admitted(Q.Packet(0, 8 * n - 240), 8 * n, F.Frame(0, n - 8), OpenFor(n, 1), 0, 0, 0, byteTime, now,
      byteTime)
  {
    BitTimesInByte(byteTime);
    ClosesAfter(n, 1, 8.0);
    BitsInIs(n, 8.0);
    assert Capped(n, 8.0) == 8 * n;
    L.TickAtIs(0, byteTime, now, 0);
    F.DurationIs(n, byteTime);
  }

  lemma BitTimesInByte(byteTime: nat)
    requires 0 < byteTime
    ensures PerTick(byteTime, byteTime) == 8.0
  {
    assert BitTime(byteTime) * 8.0 == byteTime as real;
  }

  /** The promise of the guard band, on a tick or off it, holds of all that is admitted exactly if frames start
      when they are asked for. */
  lemma KeepsBoundIff(delay: nat, byteTime: nat)
    requires 0 < byteTime
    ensures KeepsPeriod(delay, byteTime) <==> delay == 0
    ensures KeepsTick(delay, byteTime) <==> delay == 0
  {
    if delay == 0 {
      NoDelayKeepsBound(byteTime);
    } else {
      DelayBreaksBound(delay, byteTime);
    }
  }

  lemma AdmittedPasses(packet: Q.Packet, limit: nat, frame: F.Frame, c: Control, g: nat, since: nat, start: int,
                       rate: int, now: int, byteTime: nat)
    requires Admitted(packet, limit, frame, c, g, since, start, rate, now, byteTime)
    ensures PassesInTime(packet, c, g, since, rate as real, BitTime(byteTime))
  {
    HeadPassesInTime(c, g, since, rate as real, BitTime(byteTime), limit, [packet]);
  }

  lemma NoDelayKeepsBound(byteTime: nat)
    ensures KeepsPeriod(0, byteTime) && KeepsTick(0, byteTime)
  {
    forall packet, limit, frame, c, g, since, start, rate, now |
        Admitted(packet, limit, frame, c, g, since, start, rate, now, byteTime)
      ensures EndsBefore(End(frame, now, 0, byteTime), rate as real, c, g, since, start, rate, now)
      ensures OnTick(start, rate, now) ==> EndsBy(End(frame, now, 0, byteTime), 0.0, c, g, since, start, rate, now)
    {
      AdmittedPasses(packet, limit, frame, c, g, since, start, rate, now, byteTime);
      FrameEnds(packet, frame, c, g, since, start, rate, now, 0, byteTime);
    }
  }

  lemma DelayBreaksBound(delay: nat, byteTime: nat)
    requires 0 < byteTime && 0 < delay
    ensures !KeepsPeriod(delay, byteTime) && !KeepsTick(delay, byteTime)
  {
    var packet, frame, c, last := Q.Packet(0, 336), F.Frame(0, 64), OpenFor(72, 1), byteTime - 1;
    FillsTicks(72, byteTime, 0);
    FillsTicks(72, byteTime, last);
    assert Admitted(packet, 576, frame, c, 0, 0, 0, byteTime, 0, byteTime);
    assert !EndsBy(End(frame, 0, delay, byteTime), 0.0, c, 0, 0, 0, byteTime, 0);
    assert Admitted(packet, 576, frame, c, 0, 0, 0, byteTime, last, byteTime);
    assert !EndsBefore(End(frame, last, delay, byteTime), byteTime as real, c, 0, 0, 0, byteTime, last);
  }

  // ----- frames that are cut ----------------------------------------------------------------

  /** A preemptable frame keeps the promise of the guard band exactly if it is never cut: over every run, its last
      bit leaves late by nothing then, and otherwise by 16 byte times for each cut at least. */
  lemma PreemptableKeepsBoundIff(before: Trace<F.Event>, t: int, byteTime: nat)
    requires 0 < byteTime && T.Finishes(before, t, byteTime)
    ensures 0 <= F.Duration(T.CUT * T.Cuts(before, byteTime), byteTime) <= T.Lateness(before, t, byteTime)
    ensures KeepsPeriod(T.Lateness(before, t, byteTime), byteTime) <==> T.Cuts(before, byteTime) == 0
    ensures KeepsTick(T.Lateness(before, t, byteTime), byteTime) <==> T.Cuts(before, byteTime) == 0
  {
    T.FinishedOnTimeIff(before, t, byteTime);
    KeepsBoundIff(T.Lateness(before, t, byteTime), byteTime);
  }

  /** A frame of 200 bytes, the byte taking 8 and the clock ticking with it, admitted on the tick that opens its
      gate for just as long as the frame takes, and cut: however late, its last part can end later than that
      after the gate has closed. */
  lemma CutFrameCanBeLate(late: nat) returns (before: Trace<F.Event>, t: int)
    ensures T.Finishes(before, t, 8) && T.BegunAt(before, 8) == 0
    ensures R.SenderAfter(before, 8).frame == Some(F.Frame(0, 200))
    ensures Admitted(Q.Packet(0, 1424), 1664, F.Frame(0, 200), OpenFor(208, 1), 0, 0, 0, 8, 0, 8)
    ensures FirstClosed(OpenFor(208, 1), 0, 1) && ClosingTick(OpenFor(208, 1), 0, 0, 8, 0, 1) + late < t
  {
    before, t := T.CutFrameEndsArbitrarilyLate(1664 + late);
    Fills1664(208, 8);
  }

  lemma Fills1664(n: nat, byteTime: nat)
    requires n == 208 && byteTime == 8
    ensures Admitted(Q.Packet(0, 1424), 1664, F.Frame(0, 200), OpenFor(n, 1), 0, 0, 0, byteTime, 0, byteTime)
    ensures FirstClosed(OpenFor(n, 1), 0, 1) && ClosingTick(OpenFor(n, 1), 0, 0, byteTime, 0, 1) == 1664
  {
    FillsTicks(n, byteTime, 0);
    F.DurationIs(n, byteTime);
  }

  // ----- frames that have to wait -----------------------------------------------------------

  /** The sender once a frame handed over at `now` has started at `start`, having cut a part if one was being sent: all
      else it keeps of the frame begun. */
  ghost function Started(s: F.Sender, packet: M.Upper, now: int, start: int, byteTime: nat): F.Sender
    requires 0 < byteTime && (s.preemptableOn ==> s.frame.Some? && s.start <= now)
  {
    var cut := now + F.Duration(F.CRC, byteTime);
    var idle := if s.preemptableOn then F.Ended(s.(endTx := Some(cut)), cut, byteTime).0 else s;
    if packet.express
    then idle.(expressOn := true,
      endTx := Some(start + F.Duration(packet.frame.length + F.PREAMBLE, byteTime)))
    else F.Begin(idle, start, packet.frame, byteTime)
  }

  /** Hands a frame to the MAC and serves the MAC's own events until the frame starts, nothing else being handed over
      meanwhile.  Returns whether the MAC's assertions hold, and when the last bit leaves if nobody cuts the frame. */
  method Transmit(mac: M.PreemptableMac, frame: F.Frame, express: bool, now: int, expressPacketEnqueued: bool)
    returns (ok: bool, end: int)
    requires mac.Valid()
    requires mac.transmittingPreemptableFrame ==> mac.preemptableTransmissionStart <= now <= mac.endTxMsg.value
    modifies mac
    ensures !ok || !old(mac.Clashes(M.Upper(frame, express))) ==> mac.Valid()
    ensures ok <==> old(mac.Takes(M.Upper(frame, express), now))
    ensures ok ==> mac.Sending() == Started(old(mac.Sending()), M.Upper(frame, express), now, old(mac.StartOf(now)),
      mac.byteTime)
    ensures mac.Receiving() == old(mac.Receiving()) && (!ok ==> mac.Sending() == old(mac.Sending()))
    ensures ok && !old(mac.Continues(M.Upper(frame, express))) ==>
      end == old(mac.StartOf(now)) + F.Duration(frame.length + F.PREAMBLE, mac.byteTime) && mac.endTxMsg == Some(end)
    ensures ok && !old(mac.Clashes(M.Upper(frame, express))) ==> mac.Sends(M.Upper(frame, express))
  {
    var duration := F.Duration(frame.length + F.PREAMBLE, mac.byteTime);
    var waits := mac.transmitState != M.TxIdle;
    ok := mac.HandleUpperPacket(M.Upper(frame, express), now, duration);
    end := now;
    if !ok {
      return;
    }
    if waits {
      if mac.transmitState == M.Transmitting {
        F.DurationAdds(F.CRC, F.GAP, mac.byteTime);
        var _ := mac.HandleEndTxPeriod(now + F.Duration(F.CRC, mac.byteTime));
      }
      var _ := mac.HandleEndIFGPeriod(mac.endIFGMsg.value, expressPacketEnqueued, duration);
    }
    end := mac.endTxMsg.value;
  }

  /** The packet has left the head of the queue and freed its bits; nothing else has changed. */
  ghost predicate LeavesQueue(q: Q.Queue, packet: Q.Packet, q': Q.Queue) {
    && q.packets == [packet] + q'.packets && q'.free == q.free + packet.bits
    && q' == q.(free := q'.free, packets := q'.packets)
  }

  method AskAt(clock: L.ClockBase, controller: GateController, queue: Q.LengthAwareQueue, g: nat, local: nat, now: int)
    returns (packet: Option<Q.Packet>)
    requires clock.Ready(now) && clock.start <= now && local == L.TickAt(clock.start, clock.clockRate, now)
    requires 0.0 < controller.transmitRate && Running(controller.View()) &&
      controller.clockRate == clock.clockRate as real
    requires controller.lastChange <= local <= controller.lastChange + ShownEntry(controller.View()).length
    requires !LookaheadEnds.Stuck(controller.View(), g, local - controller.lastChange, controller.PerTick())
    modifies clock, queue
    ensures clock.Ready(now) && clock.model == old(clock.model).(tick := local)
    ensures packet.None? ==>
      && queue.View() == old(queue.View()) && 0.0 < controller.PerTick()
      && exists bits: nat ::
           IsMaxBit(controller.View(), g, local - controller.lastChange, controller.PerTick(), bits) &&
             Q.Blocked(queue.queue, bits)
    ensures packet.Some? ==>
      && LeavesQueue(old(queue.View()), packet.value, queue.View())
      && PassesInTime(packet.value, controller.View(), g, local - controller.lastChange, clock.clockRate as real,
                      SECOND / controller.transmitRate)
  {
    var time := clock.GetTime(now);
    assert time == GlobalTime(clock.start, clock.clockRate, local);
    packet := AskQueue(controller, queue, g, local);
  }

  method SendAdmitted(mac: M.PreemptableMac, frame: F.Frame, express: bool, now: int, expressPacketEnqueued: bool,
                      ghost packet: Q.Packet, ghost c: Control, ghost g: nat, ghost since: nat, ghost start: int,
                      ghost rate: int)
    returns (ok: bool, end: int)
    requires Running(c) && since <= ShownEntry(c).length && 0 < rate && start <= now
    requires PassesInTime(packet, c, g, since, rate as real, BitTime(mac.byteTime))
    requires mac.Valid() && (mac.transmitState.WaitIfg? ==> now <= mac.endIFGMsg.value)
    requires mac.transmittingPreemptableFrame ==> mac.preemptableTransmissionStart <= now <= mac.endTxMsg.value
    modifies mac
    ensures !ok || !old(mac.Clashes(M.Upper(frame, express))) ==> mac.Valid()
    ensures ok <==> old(mac.Takes(M.Upper(frame, express), now))
    ensures ok && !old(mac.Clashes(M.Upper(frame, express))) ==> mac.Sends(M.Upper(frame, express))
    ensures mac.Sending() == if !ok then old(mac.Sending()) else
      Started(old(mac.Sending()), M.Upper(frame, express), now, old(mac.StartOf(now)), mac.byteTime)
    ensures mac.Receiving() == old(mac.Receiving())
    ensures ok && !old(mac.Continues(M.Upper(frame, express))) ==>
      mac.endTxMsg == Some(end) &&
      LateBy(HeldUpBy(old(mac.StartOf(now)) - now, frame, packet, mac.byteTime), end as real, c, g, since, start,
        rate, now)
  {
    ghost var delay := mac.StartOf(now) - now;
    StartIsAhead(mac, now);
    ok, end := Transmit(mac, frame, express, now, expressPacketEnqueued);
    if ok && !old(mac.Continues(M.Upper(frame, express))) {
      FrameEnds(packet, frame, c, g, since, start, rate, now, delay, mac.byteTime);
      assert End(frame, now, delay, mac.byteTime) == end as real;
    }
  }

  /** The request path at global time `now`, from the clock to the link: the clock is asked for the local time, the
      controller for the gate's limit, the queue for its head, and the MAC to send its frame.  If the MAC's assertions
      hold, nobody cuts the frame, it is not taken for the rest of another one and no further schedule is loaded, its
      last bit leaves less than a clock period after the tick that closes the gate, and as much later as the MAC keeps
      it waiting and as it exceeds the headers accounted for. */
  method RequestThroughGate(clock: L.ClockBase, controller: GateController, queue: Q.LengthAwareQueue,
                            mac: M.PreemptableMac, encapsulate: Q.Packet -> F.Frame, g: nat, express: bool,
                            local: nat, now: int, expressPacketEnqueued: bool)
    returns (packet: Option<Q.Packet>, ok: bool, end: int)
    requires clock.Ready(now) && clock.start <= now && local == L.TickAt(clock.start, clock.clockRate, now)
    requires 0.0 < controller.transmitRate && Running(controller.View()) &&
      controller.clockRate == clock.clockRate as real
    requires controller.lastChange <= local <= controller.lastChange + ShownEntry(controller.View()).length
    requires !LookaheadEnds.Stuck(controller.View(), g, local - controller.lastChange, controller.PerTick())
    requires mac.Valid() && SECOND / controller.transmitRate == BitTime(mac.byteTime)
    requires mac.transmittingPreemptableFrame ==> mac.preemptableTransmissionStart <= now <= mac.endTxMsg.value
    requires mac.transmitState.WaitIfg? ==> now <= mac.endIFGMsg.value
    modifies clock, queue, mac
    ensures packet.None? ==>
      && queue.View() == old(queue.View()) && 0.0 < controller.PerTick()
      && exists bits: nat ::
           IsMaxBit(controller.View(), g, local - controller.lastChange, controller.PerTick(), bits) &&
             Q.Blocked(queue.queue, bits)
    ensures clock.Ready(now) && clock.model == old(clock.model).(tick := local)
    ensures packet.Some? ==> LeavesQueue(old(queue.View()), packet.value, queue.View())
    ensures packet.None? ==> !ok && mac.Valid() && unchanged(mac)
    ensures packet.Some? ==>
      !ok || !old(mac.Clashes(M.Upper(encapsulate(packet.value), express))) ==> mac.Valid()
    ensures packet.Some? ==> (ok <==> old(mac.Takes(M.Upper(encapsulate(packet.value), express), now)))
    ensures packet.Some? && ok && !old(mac.Clashes(M.Upper(encapsulate(packet.value), express))) ==>
      mac.Sends(M.Upper(encapsulate(packet.value), express))
    ensures mac.Sending() == if !ok then old(mac.Sending()) else
      Started(old(mac.Sending()), M.Upper(encapsulate(packet.value), express), now, old(mac.StartOf(now)), mac.byteTime)
    ensures mac.Receiving() == old(mac.Receiving())
    ensures packet.Some? && ok && !old(mac.Continues(M.Upper(encapsulate(packet.value), express))) ==>
      mac.endTxMsg == Some(end) &&
      LateBy(HeldUpBy(old(mac.StartOf(now)) - now, encapsulate(packet.value), packet.value, mac.byteTime), end as real,
             controller.View(), g, local - controller.lastChange, clock.start, clock.clockRate, now)
  {
    packet := AskAt(clock, controller, queue, g, local, now);
    ok, end := false, now;
    if packet.Some? {
      ok, end := SendAdmitted(mac, encapsulate(packet.value), express, now, expressPacketEnqueued, packet.value,
                              controller.View(), g, local - controller.lastChange, clock.start, clock.clockRate);
    }
  }

  /** A frame waits exactly if the MAC is neither idle nor at the end of its gap; then for the rest of the gap, or for
      16 byte times if it cuts the part being sent. */
  lemma StartIsAhead(mac: M.PreemptableMac, now: int)
    requires mac.Valid() && (mac.transmitState.WaitIfg? ==> now <= mac.endIFGMsg.value)
    ensures now <= mac.StartOf(now)
    ensures mac.StartOf(now) == now <==> mac.transmitState.TxIdle? || mac.endIFGMsg == Some(now)
    ensures mac.transmitState.Transmitting? ==> mac.StartOf(now) == now + 16 * mac.byteTime
  {
    F.DurationIs(16, mac.byteTime);
  }

  /** So the MAC's state before the call decides: the promise of the guard band holds of all that is admitted now
      exactly if the MAC is idle or its gap ends now. */
  lemma MacKeepsBoundIff(mac: M.PreemptableMac, now: int)
    requires mac.Valid() && (mac.transmitState.WaitIfg? ==> now <= mac.endIFGMsg.value)
    ensures now <= mac.StartOf(now)
    ensures KeepsPeriod(mac.StartOf(now) - now, mac.byteTime) <==>
      mac.transmitState.TxIdle? || mac.endIFGMsg == Some(now)
    ensures KeepsTick(mac.StartOf(now) - now, mac.byteTime) <==> mac.transmitState.TxIdle? || mac.endIFGMsg == Some(now)
  {
    StartIsAhead(mac, now);
    KeepsBoundIff(mac.StartOf(now) - now, mac.byteTime);
  }

  /** On the tick that opens gate 0 for ten periods of 1000 ns, at 100 Mbit/s, a packet of 760 bits is let out that
      fills them.  Its frame has to cut one of 200 bytes that began 4800 ns before, starts 1280 ns later and ends
      more than a period after the gate has closed. */
  lemma CuttingFrameCanBeLate() returns (s: F.Sender)
    ensures Admitted(Q.Packet(0, 760), 1000, F.Frame(0, 117), OpenFor(10, 10), 0, 0, 0, 1000, 0, 80)
    ensures F.Sound(s, 80) && s.start == -4800 && F.Enabled(s, F.Preempt(0), 80) &&
      F.Step(s, F.Preempt(0), 80).endTx == Some(320)
    ensures var end := 320 + F.Duration(F.GAP + 117 + F.PREAMBLE, 80);
      end == 11280 && ClosingTick(OpenFor(10, 10), 0, 0, 1000, 0, 1) + 1000 < end
    ensures FirstClosed(OpenFor(10, 10), 0, 1)
  {
    s := F.Begin(F.Sender(None, 0, false, 0, false, None), -4800, F.Frame(1, 200), 80);
    CutsAtZero(s);
    TenPeriods();
    F.DurationIs(137, 80);
  }

  lemma CutsAtZero(s: F.Sender)
    requires s == F.Begin(F.Sender(None, 0, false, 0, false, None), -4800, F.Frame(1, 200), 80)
    ensures F.Sound(s, 80) && s.start == -4800 && F.Enabled(s, F.Preempt(0), 80) &&
      F.Step(s, F.Preempt(0), 80).endTx == Some(320)
  {
    F.DurationIs(208, 80);
    F.DurationIs(60, 80);
    F.DurationIs(4, 80);
    F.BytesOfIs(4800, 80, 60);
  }

  lemma TenPeriods()
    ensures Admitted(Q.Packet(0, 760), 1000, F.Frame(0, 117), OpenFor(10, 10), 0, 0, 0, 1000, 0, 80)
    ensures FirstClosed(OpenFor(10, 10), 0, 1) && ClosingTick(OpenFor(10, 10), 0, 0, 1000, 0, 1) == 10000
  {
    assert BitTime(80) == 10.0 && PerTick(1000, 80) == 100.0;
    ClosesAfter(10, 10, 100.0);
    BitsInIs(10, 100.0);
    assert Capped(10, 100.0) == 1000;
    L.TickAtIs(0, 1000, 0, 0);
  }

  /** A schedule loaded while a frame is on its way can close the gate earlier than it was let out for: gate 0 is to
      stay open, a full frame is let out, and the schedule loaded closes the gate at the end of the cycle, 110000 ns
      before the frame ends. */
  lemma LoadedScheduleCanCloseEarlier() returns (c: Control, loaded: Control)
    ensures c == Control([Entry(10, {0})], None, 0) && loaded == c.(next := Some([Entry(1, {})]))
    ensures Admitted(Q.Packet(0, 11760), 12000, F.Frame(0, 1492), c, 0, 0, 0, 1000, 0, 80)
    ensures Running(loaded) && ShownEntry(loaded).length == 10 && FirstClosed(loaded, 0, 1)
    ensures ClosingTick(loaded, 0, 0, 1000, 0, 1) == 10000 && End(F.Frame(0, 1492), 0, 0, 80) == 120000.0
  {
    c := Control([Entry(10, {0})], None, 0);
    loaded := c.(next := Some([Entry(1, {})]));
    assert BitTime(80) == 10.0 && PerTick(1000, 80) == 100.0;
    OneOpenEntry(c, 0, 100.0);
    assert After(loaded, 0) == loaded && After(loaded, 1) == Tick(loaded);
    TimeToFirst(loaded);
    assert OpenAfter(loaded, 0, 0) && !OpenAfter(loaded, 0, 1);
    L.TickAtIs(0, 1000, 0, 0);
    F.DurationIs(1500, 80);
  }
}
