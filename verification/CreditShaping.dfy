/** The credit-based shaper (IEEE 802.1Q section 8.6.8.2) as a value.  Credit, time and rates are
    exact; credit counts bits. */
module CreditShaping {
  import opened Traces

  /** `rate` is the port's transmit rate, `factor` the shaper's share of it. */
  datatype Port = Port(rate: real, factor: real) {
    predicate Valid() {
      0.0 < rate && 0.0 < factor < 1.0
    }

    function IdleSlope(): real {
      factor * rate
    }

    function SendSlope(): real {
      rate - IdleSlope()
    }
  }

  datatype State = EarnCredit | SpendCredit | Idle

  /** `credit` is what was booked at `lastEvent`; the two timers hold the times they fire at. */
  datatype Shaper = Shaper(
    credit: real,
    state: State,
    lastEvent: real,
    endSpending: Option<real>,
    reachedZero: Option<real>)

  datatype Call = GateStateChanged | PacketEnqueued | SendPacket(bits: nat) | EndSpending | ZeroReached

  /** One handled event: when, and whether it finds the gate open and a packet ready. */
  datatype Event = Event(now: real, open: bool, ready: bool, call: Call)

  const FRESH := Shaper(0.0, Idle, 0.0, None, None)

  // ----- conversions between credit and time ------------------------------------------------

  /** C++ conversion of a floating-point number to an integer: towards zero. */
  function Truncated(x: real): int {
    if 0.0 <= x then x.Floor else -(-x).Floor
  }

  predicate CreditPositive(credit: real) {
    Truncated(credit) >= 0
  }

  /** The test for positive credit lets every credit above -1 through. */
  lemma CreditPositiveIff(credit: real)
    ensures CreditPositive(credit) <==> -1.0 < credit
  {}

  function CreditsForTime(creditPerSecond: real, time: real): real
    requires 0.0 < creditPerSecond
  {
    QuotientPositive(1.0, creditPerSecond);
    time / (1.0 / creditPerSecond)
  }

  function TimeForCredits(creditPerSecond: real, credit: real): real
    requires 0.0 < creditPerSecond
  {
    credit / creditPerSecond
  }

  lemma QuotientPositive(x: real, y: real)
    requires 0.0 < x && 0.0 < y
    ensures 0.0 < x / y
  {}

  lemma ProductPositive(x: real, y: real)
    requires 0.0 <= x
    ensures 0.0 <= y ==> 0.0 <= x * y
    ensures 0.0 < x && 0.0 < y ==> 0.0 < x * y
    ensures 0.0 < x && y < 0.0 ==> x * y < 0.0
    ensures y == 0.0 ==> x * y == 0.0
  {}

  lemma SlopesPositive(p: Port)
    requires p.Valid()
    ensures 0.0 < p.IdleSlope() && 0.0 < p.SendSlope() && p.IdleSlope() + p.SendSlope() == p.rate
  {
    assert p.SendSlope() == (1.0 - p.factor) * p.rate;
    ProductPositive(1.0 - p.factor, p.rate);
    ProductPositive(p.factor, p.rate);
  }

  lemma CreditsForTimeIs(slope: real, time: real)
    requires 0.0 < slope
    ensures CreditsForTime(slope, time) == slope * time
  {}

  /** Waiting for exactly as long as the credit takes earns exactly the credit. */
  lemma TimeAndCredits(slope: real, credit: real)
    requires 0.0 < slope
    ensures CreditsForTime(slope, TimeForCredits(slope, credit)) == credit
    ensures 0.0 <= credit ==> 0.0 <= TimeForCredits(slope, credit)
    ensures 0.0 < credit ==> 0.0 < TimeForCredits(slope, credit)
  {}

  function Earned(p: Port, time: real): real
    requires p.Valid()
  {
    SlopesPositive(p);
    CreditsForTime(p.IdleSlope(), time)
  }

  function TransmissionTime(p: Port, bits: nat): real
    requires p.Valid()
  {
    TimeForCredits(p.rate, bits as real)
  }

  function Spent(p: Port, bits: nat): real
    requires p.Valid()
  {
    SlopesPositive(p);
    CreditsForTime(p.SendSlope(), TransmissionTime(p, bits))
  }

  lemma EarnedAdds(p: Port, t: real, u: real)
    requires p.Valid()
    ensures Earned(p, t) + Earned(p, u) == Earned(p, t + u)
  {}

  lemma EarnedRises(p: Port, t: real)
    requires p.Valid()
    ensures 0.0 <= t ==> 0.0 <= Earned(p, t)
    ensures 0.0 < t ==> 0.0 < Earned(p, t)
    ensures t < 0.0 ==> Earned(p, t) < 0.0
    ensures t == 0.0 ==> Earned(p, t) == 0.0
  {}

  lemma EarnedMonotone(p: Port, t: real, u: real)
    requires p.Valid() && t <= u
    ensures Earned(p, t) <= Earned(p, u)
  {}

  /** A packet costs the part of its bits that the shaper's share does not cover. */
  lemma SpentIs(p: Port, bits: nat)
    requires p.Valid()
    ensures Spent(p, bits) == (1.0 - p.factor) * bits as real
    ensures Spent(p, bits) + Earned(p, TransmissionTime(p, bits)) == bits as real
    ensures 0.0 <= Spent(p, bits) && 0.0 <= TransmissionTime(p, bits)
  {}

  // ----- the handlers -----------------------------------------------------------------------

  function ZeroTimer(p: Port, now: real, credit: real): real
    requires p.Valid()
  {
    SlopesPositive(p);
    now + TimeForCredits(p.IdleSlope(), 0.0 - credit)
  }

  /** The events are handled in order of time and the timers fire when they are due.  The shaper is
      sent a packet only when not transmitting, with positive credit and no zero-credit timer, as the
      handler asserts; a packet is ready when one is announced. */
  predicate Enabled(s: Shaper, e: Event) {
    && s.lastEvent <= e.now
    && (s.endSpending.Some? ==> e.now <= s.endSpending.value)
    && (s.reachedZero.Some? ==> e.now <= s.reachedZero.value)
    && match e.call
       case GateStateChanged => true
       case PacketEnqueued => e.ready
       case SendPacket(bits) => !s.state.SpendCredit? && CreditPositive(s.credit) && s.reachedZero.None?
       case EndSpending => s.endSpending == Some(e.now)
       case ZeroReached => s.reachedZero == Some(e.now)
  }

  /** The credit at a later time, no event having been handled since: it rises while credit is earned. */
  function CreditAt(p: Port, s: Shaper, now: real): real
    requires p.Valid()
  {
    if s.state.EarnCredit? then s.credit + Earned(p, now - s.lastEvent) else s.credit
  }

  function OnGateStateChanged(p: Port, s: Shaper, now: real, open: bool, ready: bool): Shaper
    requires p.Valid()
  {
    if open then
      if s.state.Idle? && ready then
        s.(state := EarnCredit, lastEvent := now,
           reachedZero := if CreditPositive(s.credit) then s.reachedZero else Some(ZeroTimer(p, now, s.credit)))
      else s
    else if s.state.EarnCredit? then
      s.(credit := CreditAt(p, s, now), state := Idle, lastEvent := now, reachedZero := None)
    else s
  }

  function OnPacketEnqueued(p: Port, s: Shaper, now: real, open: bool): Shaper
    requires p.Valid()
  {
    var t :=
      if s.state.Idle? && open then s.(state := EarnCredit, lastEvent := now)
      else if s.state.EarnCredit? then s.(credit := CreditAt(p, s, now), lastEvent := now, reachedZero := None)
      else s;
    if t.state.EarnCredit? && !CreditPositive(t.credit) then t.(reachedZero := Some(ZeroTimer(p, now, t.credit)))
    else t
  }

  function OnSendPacket(p: Port, s: Shaper, now: real, bits: nat): Shaper
    requires p.Valid()
  {
    s.(credit := CreditAt(p, s, now) - Spent(p, bits), state := SpendCredit, lastEvent := now,
       endSpending := Some(now + TransmissionTime(p, bits)))
  }

  function OnEndSpending(p: Port, s: Shaper, now: real, open: bool, ready: bool): Shaper
    requires p.Valid()
  {
    var t := s.(endSpending := None, lastEvent := now);
    if !ready && CreditPositive(s.credit) then t.(credit := 0.0, state := Idle)
    else if ready && open then
      t.(state := EarnCredit,
         reachedZero := if s.credit < 0.0 then Some(ZeroTimer(p, now, s.credit)) else s.reachedZero)
    else t.(state := Idle)
  }

  function OnZeroReached(p: Port, s: Shaper, now: real): Shaper
    requires p.Valid()
  {
    s.(credit := CreditAt(p, s, now), state := EarnCredit, lastEvent := now, reachedZero := None)
  }

  function Step(p: Port, s: Shaper, e: Event): Shaper
    requires p.Valid()
  {
    match e.call
    case GateStateChanged => OnGateStateChanged(p, s, e.now, e.open, e.ready)
    case PacketEnqueued => OnPacketEnqueued(p, s, e.now, e.open)
    case SendPacket(bits) => OnSendPacket(p, s, e.now, bits)
    case EndSpending => OnEndSpending(p, s, e.now, e.open, e.ready)
    case ZeroReached => OnZeroReached(p, s, e.now)
  }

  /** Whether the handler tells the gate that a packet can be had. */
  predicate Notifies(p: Port, s: Shaper, e: Event)
    requires p.Valid()
  {
    match e.call
    case PacketEnqueued => CreditPositive(Step(p, s, e).credit)
    case ZeroReached => CreditPositive(Step(p, s, e).credit) && e.ready
    case _ => false
  }

  // ----- what every step keeps --------------------------------------------------------------

  /** Each timer belongs to one state; the zero-credit timer is set for the instant at which the
      continuous credit is zero, and is set whenever credit is earned that does not pass for positive. */
  ghost predicate Sound(p: Port, s: Shaper)
    requires p.Valid()
  {
    && (s.state.SpendCredit? <==> s.endSpending.Some?)
    && (s.endSpending.Some? ==> s.lastEvent <= s.endSpending.value)
    && (s.reachedZero.Some? ==> s.state.EarnCredit? && s.credit < 0.0 && s.lastEvent < s.reachedZero.value
                                && CreditAt(p, s, s.reachedZero.value) == 0.0)
    && (s.state.EarnCredit? && s.credit <= -1.0 ==> s.reachedZero.Some?)
  }

  lemma ZeroTimerIsSound(p: Port, s: Shaper, now: real)
    requires p.Valid() && s.credit < 0.0
    ensures now < ZeroTimer(p, now, s.credit)
    ensures CreditAt(p, s.(state := EarnCredit, lastEvent := now), ZeroTimer(p, now, s.credit)) == 0.0
  {}

  /** Also: a timer is only set when it is not pending, for an instant not past, and every assertion the
      handlers make about state and credit holds. */
  lemma StepKeepsSound(p: Port, s: Shaper, e: Event)
    requires p.Valid() && Sound(p, s) && Enabled(s, e)
    ensures Sound(p, Step(p, s, e))
    ensures e.call.EndSpending? ==> s.state.SpendCredit? && s.reachedZero.None?
    ensures e.call.ZeroReached? ==> s.state.EarnCredit? && Step(p, s, e).credit == 0.0
    ensures e.call.GateStateChanged? && s.state.Idle? ==> s.reachedZero.None?
    ensures Step(p, s, e).lastEvent <= e.now
  {
    CreditPositiveIff(s.credit);
    CreditPositiveIff(CreditAt(p, s, e.now));
    if s.credit < 0.0 {
      ZeroTimerIsSound(p, s, e.now);
    }
    if CreditAt(p, s, e.now) < 0.0 {
      ZeroTimerIsSound(p, s.(credit := CreditAt(p, s, e.now)), e.now);
    }
    if e.call.SendPacket? {
      SpentIs(p, e.call.bits);
    }
  }

  // ----- when credit is earned --------------------------------------------------------------

  /** A span of earning begins only at an open gate with a packet ready. */
  lemma EarningBegins(p: Port, s: Shaper, e: Event)
    requires p.Valid() && Sound(p, s) && Enabled(s, e)
    ensures var t := Step(p, s, e);
      !s.state.EarnCredit? && t.state.EarnCredit? ==> e.open && e.ready && t.credit == s.credit
  {}

  /** And it does begin there, unless a packet is on its way or sent now. */
  lemma OpenAndReadyEarns(p: Port, s: Shaper, e: Event)
    requires p.Valid() && Sound(p, s) && Enabled(s, e) && e.open && e.ready
    ensures var t := Step(p, s, e);
      t.state.EarnCredit? <==> !e.call.SendPacket? && (s.state.SpendCredit? ==> e.call.EndSpending?)
  {}

  /** It ends only with a packet sent or an announcement of the closed gate. */
  lemma EarningEnds(p: Port, s: Shaper, e: Event)
    requires p.Valid() && Sound(p, s) && Enabled(s, e) && s.state.EarnCredit?
    ensures !Step(p, s, e).state.EarnCredit? <==>
      e.call.SendPacket? || (e.call.GateStateChanged? && !e.open)
  {}

  /** A shaper that becomes idle at an open gate keeps no credit: what is left above -1 is taken or given. */
  lemma IdleKeepsNoCredit(p: Port, s: Shaper, e: Event)
    requires p.Valid() && Sound(p, s) && Enabled(s, e) && !s.state.Idle? && Step(p, s, e).state.Idle?
    ensures !e.open || !e.ready
    ensures e.call.EndSpending? && !e.ready ==>
      Step(p, s, e).credit == if -1.0 < s.credit then 0.0 else s.credit
    ensures !(e.call.EndSpending? && !e.ready) ==> !e.open && Step(p, s, e).credit == CreditAt(p, s, e.now)
  {
    CreditPositiveIff(s.credit);
  }

  /** The gate is told of a packet exactly if one is announced, or waits when the timer fires, and it is offered. */
  lemma NotifiesIff(p: Port, s: Shaper, e: Event)
    requires p.Valid() && Sound(p, s) && Enabled(s, e)
    ensures Notifies(p, s, e) <==>
      (e.call.PacketEnqueued? && -1.0 < CreditAt(p, s, e.now)) || (e.call.ZeroReached? && e.ready)
  {
    CreditPositiveIff(CreditAt(p, s, e.now));
    StepKeepsSound(p, s, e);
  }
}
