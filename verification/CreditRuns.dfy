/** Whole runs of the credit-based shaper: an exact ledger of the credit, the rate bound that follows
    from it, and when the zero-credit timer is pending. */
module CreditRuns {
  import opened Traces
  import opened CreditShaping

  function After(p: Port, run: Trace<Event>): Shaper
    requires p.Valid()
  {
    match run
    case Start => FRESH
    case Then(before, e) => Step(p, After(p, before), e)
  }

  /** When the last event was handled; the clock starts at zero. */
  function TimeOf(run: Trace<Event>): real {
    match run
    case Start => 0.0
    case Then(_, e) => e.now
  }

  predicate Legal(p: Port, run: Trace<Event>)
    requires p.Valid()
  {
    match run
    case Start => true
    case Then(before, e) => Legal(p, before) && TimeOf(before) <= e.now && Enabled(After(p, before), e)
  }

  lemma {:induction false} RunIsSound(p: Port, run: Trace<Event>)
    requires p.Valid() && Legal(p, run)
    ensures Sound(p, After(p, run)) && After(p, run).lastEvent <= TimeOf(run)
  {
    match run
    case Start =>
    case Then(before, e) =>
      RunIsSound(p, before);
      StepKeepsSound(p, After(p, before), e);
  }

  // ----- the ledger -------------------------------------------------------------------------

  /** How long the shaper has been in a state, up to `now`. */
  function TimeIn(p: Port, run: Trace<Event>, state: State, now: real): real
    requires p.Valid()
  {
    var sinceLast := if After(p, run).state == state then now - TimeOf(run) else 0.0;
    match run
    case Start => sinceLast
    case Then(before, e) => TimeIn(p, before, state, e.now) + sinceLast
  }

  /** The bits of all packets sent. */
  function Charged(run: Trace<Event>): nat {
    match run
    case Start => 0
    case Then(before, e) => Charged(before) + if e.call.SendPacket? then e.call.bits else 0
  }

  predicate IsReset(s: Shaper, e: Event) {
    e.call.EndSpending? && !e.ready && CreditPositive(s.credit)
  }

  function Resets(p: Port, run: Trace<Event>): nat
    requires p.Valid()
  {
    match run
    case Start => 0
    case Then(before, e) => Resets(p, before) + if IsReset(After(p, before), e) then 1 else 0
  }

  /** The credit that resets have given, what they have taken counting negative. */
  function Granted(p: Port, run: Trace<Event>): real
    requires p.Valid()
  {
    match run
    case Start => 0.0
    case Then(before, e) =>
      Granted(p, before) + if IsReset(After(p, before), e) then 0.0 - After(p, before).credit else 0.0
  }

  /** No packet is longer than `most`. */
  predicate PacketsUpTo(run: Trace<Event>, most: nat) {
    match run
    case Start => true
    case Then(before, e) => PacketsUpTo(before, most) && (e.call.SendPacket? ==> e.call.bits <= most)
  }

  /** What the packets sent have cost. */
  function Paid(p: Port, run: Trace<Event>): real
    requires p.Valid()
  {
    match run
    case Start => 0.0
    case Then(before, e) => Paid(p, before) + if e.call.SendPacket? then Spent(p, e.call.bits) else 0.0
  }

  /** The transmission times of all packets sent. */
  function TransmissionTimes(p: Port, run: Trace<Event>): real
    requires p.Valid()
  {
    match run
    case Start => 0.0
    case Then(before, e) =>
      TransmissionTimes(p, before) + if e.call.SendPacket? then TransmissionTime(p, e.call.bits) else 0.0
  }

  /** What packets cost is their bits, less what their transmission times would have earned. */
  lemma {:induction false} PaidIs(p: Port, run: Trace<Event>)
    requires p.Valid()
    ensures Paid(p, run) == Charged(run) as real - Earned(p, TransmissionTimes(p, run))
  {
    match run
    case Start => EarnedRises(p, 0.0);
    case Then(before, e) =>
      PaidIs(p, before);
      if e.call.SendPacket? {
        SpentIs(p, e.call.bits);
        EarnedAdds(p, TransmissionTimes(p, before), TransmissionTime(p, e.call.bits));
      }
  }

  /** Between events the credit moves only while credit is earned. */
  lemma CreditMoves(p: Port, s: Shaper, t: real, u: real)
    requires p.Valid()
    ensures CreditAt(p, s, u) == CreditAt(p, s, t) + if s.state.EarnCredit? then Earned(p, u - t) else 0.0
  {}

  lemma CreditAcrossEvent(p: Port, before: Trace<Event>, e: Event)
    requires p.Valid() && Legal(p, Then(before, e))
    ensures CreditAt(p, After(p, Then(before, e)), e.now) - Paid(p, before) - Granted(p, Then(before, e)) ==
            CreditAt(p, After(p, before), e.now) - Paid(p, Then(before, e)) - Granted(p, before)
  {
    RunIsSound(p, before);
    EarnedRises(p, 0.0);
  }

  lemma EarnedAcrossEvent(p: Port, before: Trace<Event>, e: Event, now: real)
    requires p.Valid()
    ensures var run := Then(before, e);
      CreditAt(p, After(p, run), now) - Earned(p, TimeIn(p, run, EarnCredit, now)) ==
      CreditAt(p, After(p, run), e.now) - Earned(p, TimeIn(p, before, EarnCredit, e.now))
  {
    CreditMoves(p, After(p, Then(before, e)), e.now, now);
    EarnedAdds(p, TimeIn(p, before, EarnCredit, e.now), now - e.now);
  }

  /** At every moment the credit is exactly what was earned in all the time spent earning, less the
      uncovered part of all bits sent, plus what the resets have given. */
  lemma {:induction false} CreditLedger(p: Port, run: Trace<Event>, now: real)
    requires p.Valid() && Legal(p, run)
    ensures CreditAt(p, After(p, run), now) ==
      Earned(p, TimeIn(p, run, EarnCredit, now)) - Paid(p, run) + Granted(p, run)
  {
    match run
    case Start => EarnedRises(p, 0.0);
    case Then(before, e) =>
      CreditLedger(p, before, e.now);
      CreditAcrossEvent(p, before, e);
      EarnedAcrossEvent(p, before, e, now);
  }

  /** Every moment belongs to one of the three states. */
  lemma {:induction false} TimesSplit(p: Port, run: Trace<Event>, now: real)
    requires p.Valid() && Legal(p, run) && TimeOf(run) <= now
    ensures TimeIn(p, run, EarnCredit, now) + TimeIn(p, run, SpendCredit, now) + TimeIn(p, run, Idle, now) == now
    ensures forall state :: 0.0 <= TimeIn(p, run, state, now)
  {
    match run
    case Start =>
    case Then(before, e) => TimesSplit(p, before, e.now);
  }

  /** How long the packet being sent still takes. */
  function Remaining(s: Shaper, now: real): real {
    if s.endSpending.Some? then s.endSpending.value - now else 0.0
  }

  /** Spending lasts exactly as long as transmitting. */
  lemma {:induction false} SpendingLasts(p: Port, run: Trace<Event>, now: real)
    requires p.Valid() && Legal(p, run)
    ensures TransmissionTimes(p, run) == TimeIn(p, run, SpendCredit, now) + Remaining(After(p, run), now)
  {
    match run
    case Start =>
    case Then(before, e) =>
      SpendingLasts(p, before, e.now);
      RunIsSound(p, before);
  }

  lemma SpentMonotone(p: Port, bits: nat, most: nat)
    requires p.Valid() && bits <= most
    ensures 0.0 <= Spent(p, bits) <= Spent(p, most)
  {
    SpentIs(p, bits);
    SpentIs(p, most);
    ProductPositive(1.0 - p.factor, most as real - bits as real);
  }

  lemma CreditRises(p: Port, s: Shaper, now: real)
    requires p.Valid() && s.lastEvent <= now
    ensures s.credit <= CreditAt(p, s, now)
  {}

  lemma {:induction false} BookedFloor(p: Port, run: Trace<Event>, most: nat)
    requires p.Valid() && Legal(p, run) && PacketsUpTo(run, most)
    ensures -1.0 - Spent(p, most) < After(p, run).credit
  {
    SpentMonotone(p, 0, most);
    match run
    case Start =>
    case Then(before, e) =>
      BookedFloor(p, before, most);
      CreditRises(p, After(p, before), e.now);
      CreditPositiveIff(After(p, before).credit);
      if e.call.SendPacket? {
        SpentMonotone(p, e.call.bits, most);
      }
  }

  /** Credit never falls to more than one bit below what the longest packet costs. */
  lemma CreditFloor(p: Port, run: Trace<Event>, most: nat, now: real)
    requires p.Valid() && Legal(p, run) && TimeOf(run) <= now && PacketsUpTo(run, most)
    ensures -1.0 - Spent(p, most) < CreditAt(p, After(p, run), now)
  {
    BookedFloor(p, run, most);
    RunIsSound(p, run);
    CreditRises(p, After(p, run), now);
  }

  lemma {:induction false} ResetsGiveLittle(p: Port, run: Trace<Event>)
    requires p.Valid()
    ensures Granted(p, run) <= Resets(p, run) as real
  {
    match run
    case Start =>
    case Then(before, e) =>
      ResetsGiveLittle(p, before);
      CreditPositiveIff(After(p, before).credit);
  }

  /** The shaper's promise: all bits sent, those of a packet on its way included, stay below what the
      shaper's share of the port's rate gives until the last of them has left, plus the cost of the
      longest packet, one bit, and at most one bit for each reset of the credit. */
  lemma RateBound(p: Port, run: Trace<Event>, most: nat, now: real)
    requires p.Valid() && Legal(p, run) && PacketsUpTo(run, most) && TimeOf(run) <= now
    ensures Charged(run) as real <
      Earned(p, now + Remaining(After(p, run), now)) + Spent(p, most) + 1.0 + Resets(p, run) as real
  {
    var earning, sending := TimeIn(p, run, EarnCredit, now), TransmissionTimes(p, run);
    CreditLedger(p, run, now);
    PaidIs(p, run);
    CreditFloor(p, run, most, now);
    ResetsGiveLittle(p, run);
    TimesSplit(p, run, now);
    SpendingLasts(p, run, now);
    EarnedAdds(p, earning, sending);
    EarnedMonotone(p, earning + sending, now + Remaining(After(p, run), now));
  }

  lemma BoundInSlopes(p: Port, most: nat, now: real, charged: real, resets: real)
    requires p.Valid() && charged < Earned(p, now) + Spent(p, most) + 1.0 + resets
    ensures charged < p.IdleSlope() * now + (1.0 - p.factor) * most as real + 1.0 + resets
  {}

  /** The same in the slopes' own terms, outside a transmission. */
  lemma RateBoundBetweenPackets(p: Port, run: Trace<Event>, most: nat, now: real)
    requires p.Valid() && Legal(p, run) && PacketsUpTo(run, most) && TimeOf(run) <= now
    requires After(p, run).endSpending.None?
    ensures Charged(run) as real <
      p.IdleSlope() * now + (1.0 - p.factor) * most as real + 1.0 + Resets(p, run) as real
  {
    RateBound(p, run, most, now);
    BoundInSlopes(p, most, now, Charged(run) as real, Resets(p, run) as real);
  }

  // ----- the zero-credit timer --------------------------------------------------------------

  /** Whether the present span of earning or idling was entered by the end of a transmission and no
      event has restarted it since. */
  predicate StartedBySpending(p: Port, run: Trace<Event>)
    requires p.Valid()
  {
    match run
    case Start => false
    case Then(before, e) =>
      if e.call.GateStateChanged? && Step(p, After(p, before), e) == After(p, before)
      then StartedBySpending(p, before)
      else e.call.EndSpending?
  }

  /** While credit is earned the timer is pending exactly if the credit did not pass for positive when
      last booked, or was below zero at the end of a transmission. */
  lemma {:induction false} TimerPendingIff(p: Port, run: Trace<Event>)
    requires p.Valid() && Legal(p, run) && After(p, run).state.EarnCredit?
    ensures var s := After(p, run);
      s.reachedZero.Some? <==> s.credit <= -1.0 || (s.credit < 0.0 && StartedBySpending(p, run))
  {
    match run
    case Start =>
    case Then(before, e) =>
      var s := After(p, before);
      RunIsSound(p, before);
      StepKeepsSound(p, s, e);
      CreditPositiveIff(s.credit);
      CreditPositiveIff(After(p, run).credit);
      if s.state.EarnCredit? {
        TimerPendingIff(p, before);
      }
  }

  /** The instant the timer is set for is the one at which the continuous credit is zero, and no other. */
  lemma TimerIsExact(p: Port, run: Trace<Event>, now: real)
    requires p.Valid() && Legal(p, run) && After(p, run).reachedZero.Some?
    ensures CreditAt(p, After(p, run), now) == 0.0 <==> now == After(p, run).reachedZero.value
  {
    RunIsSound(p, run);
    var zero := After(p, run).reachedZero.value;
    CreditMoves(p, After(p, run), zero, now);
    EarnedRises(p, now - zero);
  }

  /** The asserts of a send are met exactly outside one window: credit between -1 and 0 is being earned
      since the end of a transmission. */
  lemma SendAssertsHoldIff(p: Port, run: Trace<Event>)
    requires p.Valid() && Legal(p, run)
    requires var s := After(p, run); !s.state.SpendCredit? && CreditPositive(s.credit)
    ensures var s := After(p, run);
      s.reachedZero.None? <==> !(s.state.EarnCredit? && s.credit < 0.0 && StartedBySpending(p, run))
  {
    RunIsSound(p, run);
    CreditPositiveIff(After(p, run).credit);
    if After(p, run).state.EarnCredit? {
      TimerPendingIff(p, run);
    }
  }

  /** The window closes with the gap between frames if that earns a whole bit: a timer pending at the end of a
      transmission with credit above -1 fires before any send after the gap. */
  lemma GapClosesWindow(p: Port, run: Trace<Event>, gap: real, now: real)
    requires p.Valid() && Legal(p, run) && After(p, run).reachedZero.Some? && CreditPositive(After(p, run).credit)
    requires 1.0 <= Earned(p, gap) && After(p, run).lastEvent + gap <= now
    ensures After(p, run).reachedZero.value < now
  {
    var s := After(p, run);
    RunIsSound(p, run);
    CreditPositiveIff(s.credit);
    if s.lastEvent + gap <= s.reachedZero.value {
      EarnedMonotone(p, gap, s.reachedZero.value - s.lastEvent);
    }
  }

  /** A shaper with 1/128 of the port earns credit for 73040 bit times while others send, and then sends a
      frame of 42 bytes of payload, which count 576 bits; 96 bit times after that the MAC asks for the
      next.  The packet is offered and the timer is pending: the send fails the third assertion alone. */
  lemma SendAssertCanFail() returns (p: Port, run: Trace<Event>, next: Event)
    ensures p == Port(1.0, 0.0078125) && Legal(p, run)
    ensures After(p, run) == Shaper(-0.875, EarnCredit, 73616.0, None, Some(73728.0)) && TimeOf(run) == 73616.0
    ensures next == Event(73712.0, true, true, SendPacket(576)) && CreditPositive(-0.875)
    ensures !Enabled(After(p, run), next) && Enabled(After(p, run).(reachedZero := None), next)
  {
    p := Port(1.0, 0.0078125);
    var enqueued := Then(Start, Event(0.0, true, true, PacketEnqueued));
    var sent := Then(enqueued, Event(73040.0, true, true, SendPacket(576)));
    run := Then(sent, Event(73616.0, true, true, EndSpending));
    next := Event(73712.0, true, true, SendPacket(576));
    CreditPositiveIff(0.0);
    CreditPositiveIff(-0.875);
    assert After(p, enqueued) == Shaper(0.0, EarnCredit, 0.0, None, None);
    CreditsForTimeIs(p.IdleSlope(), 73040.0);
    SpentIs(p, 576);
    assert After(p, sent) == Shaper(-0.875, SpendCredit, 73040.0, Some(73616.0), None);
    assert Legal(p, sent);
  }

  /** One more packet arriving in between: credit below zero is earned, no timer is pending, and the next packet
      is sent on negative credit. */
  lemma TimerCanBeMissing() returns (p: Port, run: Trace<Event>, next: Event)
    ensures p == Port(1.0, 0.0078125) && Legal(p, run) &&
      After(p, run) == Shaper(-0.75, EarnCredit, 73632.0, None, None)
    ensures next == Event(73712.0, true, true, SendPacket(576))
    ensures Legal(p, Then(run, next)) && CreditAt(p, After(p, run), 73712.0) == -0.125
  {
    var before;
    p, before, next := SendAssertCanFail();
    run := Then(before, Event(73632.0, true, true, PacketEnqueued));
    CreditsForTimeIs(p.IdleSlope(), 16.0);
    CreditsForTimeIs(p.IdleSlope(), 80.0);
    CreditPositiveIff(-0.75);
  }

  // ----- eligible, or woken -----------------------------------------------------------------

  /** An event that finds the gate open and a packet ready leaves the shaper transmitting, offering the
      packet, or with its wake-up set for the instant the credit reaches zero, when it announces the
      packet. */
  lemma OfferedOrWoken(p: Port, run: Trace<Event>, e: Event)
    requires p.Valid() && Legal(p, Then(run, e)) && e.open && e.ready
    ensures var s := After(p, Then(run, e));
      || s.state.SpendCredit?
      || (s.state.EarnCredit? && CreditPositive(s.credit))
      || (s.state.EarnCredit? && s.reachedZero.Some? && e.now <= s.reachedZero.value
          && var wake := Event(s.reachedZero.value, true, true, ZeroReached);
             Legal(p, Then(Then(run, e), wake)) && Notifies(p, s, wake) && Step(p, s, wake).credit == 0.0)
  {
    var s := After(p, Then(run, e));
    RunIsSound(p, run);
    RunIsSound(p, Then(run, e));
    CreditPositiveIff(s.credit);
    if s.reachedZero.Some? && !CreditPositive(s.credit) {
      var wake := Event(s.reachedZero.value, true, true, ZeroReached);
      StepKeepsSound(p, s, wake);
      CreditPositiveIff(0.0);
      WakeUpIsAhead(p, run, e);
    }
  }

  lemma WakeUpIsAhead(p: Port, run: Trace<Event>, e: Event)
    requires p.Valid() && Legal(p, Then(run, e)) && After(p, Then(run, e)).reachedZero.Some?
    ensures e.now <= After(p, Then(run, e)).reachedZero.value
  {
    RunIsSound(p, run);
    StepKeepsSound(p, After(p, run), e);
    RunIsSound(p, Then(run, e));
  }

  // ----- spans of earning -------------------------------------------------------------------

  /** The run up to the event since which credit has been earned without interruption. */
  function SpanOf(p: Port, run: Trace<Event>): Trace<Event>
    requires p.Valid()
  {
    match run
    case Start => Start
    case Then(before, _) => if After(p, before).state.EarnCredit? then SpanOf(p, before) else run
  }

  /** Over every run each span of earning has begun at an open gate with a packet ready, with the credit booked
      before, so nothing is earned behind an empty queue. */
  lemma {:induction false} EarnsForPackets(p: Port, run: Trace<Event>)
    requires p.Valid() && Legal(p, run) && After(p, run).state.EarnCredit?
    ensures var span := SpanOf(p, run);
      && span.Then? && Legal(p, span) && !After(p, span.before).state.EarnCredit? && After(p, span).state.EarnCredit?
      && span.last.open && span.last.ready && After(p, span).credit == After(p, span.before).credit
  {
    match run
    case Start =>
    case Then(before, e) =>
      RunIsSound(p, before);
      if After(p, before).state.EarnCredit? {
        EarnsForPackets(p, before);
      } else {
        EarningBegins(p, After(p, before), e);
      }
  }

  /** What an event finds of the gate changes only at announcements. */
  predicate GateAnnounced(run: Trace<Event>) {
    match run
    case Start => true
    case Then(before, e) =>
      GateAnnounced(before) && (before.Then? && !e.call.GateStateChanged? ==> e.open == before.last.open)
  }

  /** Credit is earned only while the gate is open, as the zero-credit handler asserts. */
  lemma {:induction false} EarnsOnlyWhileOpen(p: Port, run: Trace<Event>)
    requires p.Valid() && Legal(p, run) && GateAnnounced(run) && After(p, run).state.EarnCredit?
    ensures run.Then? && run.last.open
  {
    match run
    case Start =>
    case Then(before, e) =>
      RunIsSound(p, before);
      StepKeepsSound(p, After(p, before), e);
      if After(p, before).state.EarnCredit? {
        EarnsOnlyWhileOpen(p, before);
      }
  }

  // ----- extra announcements ----------------------------------------------------------------

  /** An announced packet that does not start a span of earning. */
  predicate IsExtra(s: Shaper, e: Event) {
    e.call.PacketEnqueued? && !(s.state.Idle? && e.open)
  }

  /** The run without the extra announcements. */
  function WithoutExtras(p: Port, run: Trace<Event>): Trace<Event>
    requires p.Valid()
  {
    match run
    case Start => Start
    case Then(before, e) =>
      if IsExtra(After(p, before), e) then WithoutExtras(p, before)
      else Then(WithoutExtras(p, before), e)
  }

  /** The same state and the same credit at all times. */
  predicate Alike(p: Port, s: Shaper, t: Shaper, now: real)
    requires p.Valid()
  {
    s.state == t.state && s.endSpending == t.endSpending && CreditAt(p, s, now) == CreditAt(p, t, now)
  }

  lemma AlikeLater(p: Port, s: Shaper, t: Shaper, now: real, later: real)
    requires p.Valid() && Alike(p, s, t, now)
    ensures Alike(p, s, t, later)
  {}

  lemma ExtraKeepsAlike(p: Port, s: Shaper, e: Event)
    requires p.Valid() && IsExtra(s, e)
    ensures Alike(p, Step(p, s, e), s, e.now)
  {}

  lemma StepKeepsAlike(p: Port, s: Shaper, t: Shaper, e: Event)
    requires p.Valid() && Sound(p, s) && Enabled(s, e) && Alike(p, s, t, e.now)
    ensures Alike(p, Step(p, s, e), Step(p, t, e), e.now)
  {}

  /** Announcements during earning, spending or behind a closed gate leave no mark: state, end of
      spending and credit are at every moment what they are without them.  The zero-credit timer may differ,
      and the run without them need then not be one the kernel can produce. */
  lemma {:induction false} ExtrasLeaveCredit(p: Port, run: Trace<Event>, now: real)
    requires p.Valid() && Legal(p, run)
    ensures Alike(p, After(p, run), After(p, WithoutExtras(p, run)), now)
  {
    match run
    case Start =>
    case Then(before, e) =>
      var s, t := After(p, before), After(p, WithoutExtras(p, before));
      ExtrasLeaveCredit(p, before, e.now);
      RunIsSound(p, before);
      if IsExtra(s, e) {
        ExtraKeepsAlike(p, s, e);
      } else {
        StepKeepsAlike(p, s, t, e);
      }
      AlikeLater(p, After(p, run), After(p, WithoutExtras(p, run)), e.now, now);
  }

  /** An extra announcement changes the timer exactly by stopping it, which it does if the credit has risen above
      -1 while it was pending. */
  lemma ExtraKeepsTimerIff(p: Port, s: Shaper, e: Event)
    requires p.Valid() && Sound(p, s) && Enabled(s, e) && IsExtra(s, e)
    ensures var t := Step(p, s, e);
      && (t.reachedZero == s.reachedZero <==> !(s.reachedZero.Some? && -1.0 < CreditAt(p, s, e.now)))
      && (t.reachedZero != s.reachedZero ==> t.reachedZero.None?)
  {
    var credit := CreditAt(p, s, e.now);
    CreditPositiveIff(credit);
    CreditRises(p, s, e.now);
    if s.state.EarnCredit? && credit <= -1.0 {
      var zero, again := s.reachedZero.value, ZeroTimer(p, e.now, credit);
      ZeroTimerIsSound(p, s.(credit := credit), e.now);
      CreditMoves(p, s, e.now, again);
      CreditMoves(p, s, zero, again);
      EarnedRises(p, again - zero);
    }
  }

  /** No extra announcement of the run stops the timer. */
  ghost predicate TimersKept(p: Port, run: Trace<Event>)
    requires p.Valid()
  {
    match run
    case Start => true
    case Then(before, e) =>
      TimersKept(p, before) &&
      (IsExtra(After(p, before), e) ==> Step(p, After(p, before), e).reachedZero == After(p, before).reachedZero)
  }

  lemma StepWithoutExtras(p: Port, s: Shaper, t: Shaper, e: Event)
    requires p.Valid() && Sound(p, s) && Sound(p, t) && Enabled(s, e) && t.lastEvent <= e.now
    requires Alike(p, s, t, e.now) && s.reachedZero == t.reachedZero && !IsExtra(s, e)
    ensures Enabled(t, e) && Step(p, s, e).reachedZero == Step(p, t, e).reachedZero
  {
    CreditPositiveIff(t.credit);
    CreditPositiveIff(s.credit);
  }

  /** Then the run without them is one the kernel can produce as well, with the same timers. */
  lemma {:induction false} LegalWithoutExtras(p: Port, run: Trace<Event>)
    requires p.Valid() && Legal(p, run) && TimersKept(p, run)
    ensures Legal(p, WithoutExtras(p, run)) && TimeOf(WithoutExtras(p, run)) <= TimeOf(run)
    ensures After(p, WithoutExtras(p, run)).reachedZero == After(p, run).reachedZero
  {
    match run
    case Start =>
    case Then(before, e) =>
      var s, rest := After(p, before), WithoutExtras(p, before);
      LegalWithoutExtras(p, before);
      if !IsExtra(s, e) {
        ExtrasLeaveCredit(p, before, e.now);
        RunIsSound(p, before);
        RunIsSound(p, rest);
        StepWithoutExtras(p, s, After(p, rest), e);
      }
  }
}
