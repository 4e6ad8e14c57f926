/** ClockBase with the tick rule of IdealClock: a sorted list of relative countdowns that is brought
    up to date only when somebody asks.  Global time is an integer; `now` is the kernel's simTime. */
module LazyClock {
  import opened EagerClock

  /** One scheduled tick and its pending self-message. */
  datatype Entry = Entry(ticks: nat, timestamp: int, message: nat, listeners: seq<Listener>)

  // ----- integer arithmetic -----------------------------------------------------------------

  lemma MulMonotone(rate: int, a: int, b: int)
    requires 0 < rate
    ensures a < b <==> rate * a < rate * b
  {}

  /** The number of the last tick at or before `now`. */
  function TickAt(start: int, rate: int, now: int): nat
    requires 0 < rate && start <= now
  {
    (now - start) / rate
  }

  lemma TickAtIs(start: int, rate: int, now: int, k: nat)
    requires 0 < rate && start + rate * k <= now < start + rate * (k + 1)
    ensures start <= now && TickAt(start, rate, now) == k
  {
    assert rate * k >= 0;
    var q := (now - start) / rate;
    assert rate * q <= now - start < rate * (q + 1);
    MulMonotone(rate, q, k + 1);
    MulMonotone(rate, k, q + 1);
  }

  lemma TickAtBounds(start: int, rate: int, now: int)
    requires 0 < rate && start <= now
    ensures start + rate * TickAt(start, rate, now) <= now < start + rate * (TickAt(start, rate, now) + 1)
  {}

  // ----- the countdown list against the reference clock --------------------------------------

  ghost predicate Sorted(es: seq<Entry>) {
    forall i, j :: 0 <= i < j < |es| ==> es[i].ticks < es[j].ticks
  }

  ghost predicate Timed(es: seq<Entry>, base: int, rate: int) {
    forall i :: 0 <= i < |es| ==> es[i].timestamp == base + rate * es[i].ticks
  }

  /** The countdowns as absolute tick numbers, `base` being the present tick. */
  ghost function Absolute(es: seq<Entry>, base: nat): map<nat, seq<Listener>> {
    if es == [] then map[] else Absolute(es[1..], base)[base + es[0].ticks := es[0].listeners]
  }

  lemma {:induction false} AbsoluteHasEntry(es: seq<Entry>, base: nat, i: nat)
    requires i < |es|
    ensures base + es[i].ticks in Absolute(es, base)
  {
    if i != 0 {
      AbsoluteHasEntry(es[1..], base, i - 1);
    }
  }

  lemma {:induction false} AbsoluteAbove(es: seq<Entry>, base: nat, lo: nat)
    requires forall i :: 0 <= i < |es| ==> lo <= es[i].ticks
    ensures forall t :: t in Absolute(es, base) ==> base + lo <= t
  {
    if es != [] {
      assert forall i :: 0 <= i < |es[1..]| ==> es[1..][i] == es[i + 1];
      AbsoluteAbove(es[1..], base, lo);
    }
  }

  function Decremented(es: seq<Entry>, n: nat): (r: seq<Entry>)
    requires forall i :: 0 <= i < |es| ==> n <= es[i].ticks
    ensures |r| == |es| && forall i :: 0 <= i < |es| ==> r[i] == es[i].(ticks := es[i].ticks - n)
  {
    if es == [] then []
    else
      assert forall i :: 0 <= i < |es[1..]| ==> es[1..][i] == es[i + 1];
      [es[0].(ticks := es[0].ticks - n)] + Decremented(es[1..], n)
  }

  lemma {:induction false} DecrementedAbsolute(es: seq<Entry>, base: nat, n: nat)
    requires forall i :: 0 <= i < |es| ==> n <= es[i].ticks
    ensures Absolute(Decremented(es, n), base + n) == Absolute(es, base)
  {
    if es != [] {
      assert forall i :: 0 <= i < |es[1..]| ==> es[1..][i] == es[i + 1];
      DecrementedAbsolute(es[1..], base, n);
      assert Decremented(es, n)[1..] == Decremented(es[1..], n);
    }
  }

  function Stripped(es: seq<Entry>, l: Listener): (r: seq<Entry>)
    ensures |r| == |es| && forall i :: 0 <= i < |es| ==> r[i] == es[i].(listeners := Without(es[i].listeners, l))
  {
    if es == [] then []
    else
      assert forall i :: 0 <= i < |es[1..]| ==> es[1..][i] == es[i + 1];
      [es[0].(listeners := Without(es[0].listeners, l))] + Stripped(es[1..], l)
  }

  lemma {:induction false} StrippedAbsolute(es: seq<Entry>, base: nat, l: Listener)
    ensures Absolute(Stripped(es, l), base)
         == map t | t in Absolute(es, base) :: Without(Absolute(es, base)[t], l)
  {
    if es != [] {
      StrippedAbsolute(es[1..], base, l);
      assert Stripped(es, l)[1..] == Stripped(es[1..], l);
    }
  }

  lemma {:induction false} AbsoluteAbsent(es: seq<Entry>, base: nat, n: nat)
    requires forall i :: 0 <= i < |es| ==> es[i].ticks != n
    ensures base + n !in Absolute(es, base)
  {
    if es != [] {
      assert forall i :: 0 <= i < |es[1..]| ==> es[1..][i] == es[i + 1];
      AbsoluteAbsent(es[1..], base, n);
    }
  }

  /** The list with e inserted before position k. */
  function Placed(es: seq<Entry>, k: nat, e: Entry): seq<Entry>
    requires k <= |es|
  {
    if k == 0 then [e] + es else [es[0]] + Placed(es[1..], k - 1, e)
  }

  lemma {:induction false} PlacedIs(es: seq<Entry>, k: nat, e: Entry)
    requires k <= |es|
    ensures Placed(es, k, e) == es[..k] + [e] + es[k..]
  {
    if k != 0 {
      PlacedIs(es[1..], k - 1, e);
      assert es[..k] == [es[0]] + es[1..][..k - 1];
    }
  }

  lemma PlacedUpdated(es: seq<Entry>, k: nat, e: Entry, e': Entry)
    requires k <= |es|
    ensures (es[..k] + [e] + es[k..])[k] == e
    ensures (es[..k] + [e] + es[k..])[k := e'] == Placed(es, k, e')
  {}

  lemma {:induction false} PlacedAbsolute(es: seq<Entry>, k: nat, e: Entry, base: nat)
    requires k <= |es| && base + e.ticks !in Absolute(es, base)
    ensures Absolute(Placed(es, k, e), base) == Absolute(es, base)[base + e.ticks := e.listeners]
  {
    if k == 0 {
      assert ([e] + es)[1..] == es;
    } else {
      PlacedAbsolute(es[1..], k - 1, e, base);
      assert Placed(es, k, e) == [es[0]] + Placed(es[1..], k - 1, e);
      assert ([es[0]] + Placed(es[1..], k - 1, e))[1..] == Placed(es[1..], k - 1, e);
    }
  }

  lemma PlacedInOrder(es: seq<Entry>, es': seq<Entry>, k: nat, e: Entry, base: int, rate: int)
    requires k <= |es| && es' == es[..k] + [e] + es[k..]
    requires Sorted(es) && Timed(es, base, rate) && e.timestamp == base + rate * e.ticks
    requires forall i :: 0 <= i < k ==> es[i].ticks < e.ticks
    requires forall i :: k <= i < |es| ==> e.ticks < es[i].ticks
    ensures Sorted(es') && Timed(es', base, rate)
  {}

  lemma ReplacedInOrder(es: seq<Entry>, k: nat, ls: seq<Listener>, base: int, rate: int)
    requires k < |es| && Sorted(es) && Timed(es, base, rate)
    ensures Sorted(es[k := es[k].(listeners := ls)]) && Timed(es[k := es[k].(listeners := ls)], base, rate)
  {}

  lemma {:induction false} ReplacedAbsolute(es: seq<Entry>, k: nat, ls: seq<Listener>, base: nat)
    requires k < |es| && Sorted(es)
    ensures base + es[k].ticks in Absolute(es, base) && Absolute(es, base)[base + es[k].ticks] == es[k].listeners
    ensures Absolute(es[k := es[k].(listeners := ls)], base) == Absolute(es, base)[base + es[k].ticks := ls]
  {
    var es' := es[k := es[k].(listeners := ls)];
    if k == 0 {
      assert es'[1..] == es[1..];
    } else {
      assert forall i :: 0 <= i < |es[1..]| ==> es[1..][i] == es[i + 1];
      assert es'[1..] == es[1..][k - 1 := es[k].(listeners := ls)];
      ReplacedAbsolute(es[1..], k - 1, ls, base);
    }
  }

  /** The list is in order and says the same as the reference clock m, whose last tick was at `base`. */
  ghost predicate Consistent(es: seq<Entry>, m: Clock, base: int, rate: int) {
    Sorted(es) && Timed(es, base, rate) && Absolute(es, m.tick) == m.pending && Valid(m)
  }

  /** Subscribing when no entry for the tick exists yet: a new one goes to its place. */
  lemma NewEntryConsistent(es: seq<Entry>, k: nat, e: Entry, m: Clock, base: int, rate: int, l: Listener)
    requires Consistent(es, m, base, rate) && k <= |es|
    requires e.timestamp == base + rate * e.ticks && e.listeners == [l]
    requires forall i :: 0 <= i < k ==> es[i].ticks < e.ticks
    requires forall i :: k <= i < |es| ==> e.ticks < es[i].ticks
    ensures Consistent(Placed(es, k, e), DoCall(m, Subscribe(l, e.ticks)), base, rate)
  {
    AbsoluteAbsent(es, m.tick, e.ticks);
    PlacedAbsolute(es, k, e, m.tick);
    PlacedIs(es, k, e);
    PlacedInOrder(es, Placed(es, k, e), k, e, base, rate);
    assert AddOnce([], l) == [l];
    ApplyKeepsValid(m, Do(Subscribe(l, e.ticks)));
  }

  /** Subscribing to a tick that is scheduled already. */
  lemma OldEntryConsistent(es: seq<Entry>, k: nat, m: Clock, base: int, rate: int, l: Listener)
    requires Consistent(es, m, base, rate) && k < |es|
    ensures Consistent(es[k := es[k].(listeners := AddOnce(es[k].listeners, l))],
      DoCall(m, Subscribe(l, es[k].ticks)), base, rate)
  {
    ReplacedAbsolute(es, k, AddOnce(es[k].listeners, l), m.tick);
    ReplacedInOrder(es, k, AddOnce(es[k].listeners, l), base, rate);
    ApplyKeepsValid(m, Do(Subscribe(l, es[k].ticks)));
  }

  lemma StrippedConsistent(es: seq<Entry>, m: Clock, base: int, rate: int, l: Listener)
    requires Consistent(es, m, base, rate)
    ensures Consistent(Stripped(es, l), DoCall(m, Unsubscribe(l)), base, rate)
  {
    StrippedAbsolute(es, m.tick, l);
    ApplyKeepsValid(m, Do(Unsubscribe(l)));
  }

  /** Nothing is overdue: the kernel fires events in time order. */
  ghost predicate Current(m: Clock, start: int, rate: int, now: int) {
    && start + rate * m.tick <= now
    && forall t :: t in m.pending ==> now <= start + rate * t
  }

  /** Every pending tick still lies ahead. */
  lemma PendingAhead(m: Clock, start: int, rate: int, now: int)
    requires 0 < rate && Current(m, start, rate, now)
    ensures start <= now && m.tick <= TickAt(start, rate, now)
    ensures forall t :: t in m.pending ==> TickAt(start, rate, now) <= t
  {
    assert rate * m.tick >= 0;
    var k := TickAt(start, rate, now);
    TickAtBounds(start, rate, now);
    MulMonotone(rate, m.tick, k + 1);
    forall t | t in m.pending
      ensures k <= t
    {
      MulMonotone(rate, t, k);
    }
  }

  /** While nothing is overdue, no countdown can drop below zero. */
  lemma CountdownsSuffice(es: seq<Entry>, m: Clock, k: nat)
    requires Absolute(es, m.tick) == m.pending && m.tick <= k
    requires forall t :: t in m.pending ==> k <= t
    ensures forall i :: 0 <= i < |es| ==> k - m.tick <= es[i].ticks
  {
    forall i | 0 <= i < |es|
      ensures k - m.tick <= es[i].ticks
    {
      AbsoluteHasEntry(es, m.tick, i);
    }
  }

  /** Counting n ticks down and moving the base n ticks ahead keeps every time stamp. */
  lemma DecrementedTimed(es: seq<Entry>, base: int, rate: int, n: nat)
    requires Timed(es, base, rate) && forall i :: 0 <= i < |es| ==> n <= es[i].ticks
    ensures Timed(Decremented(es, n), base + rate * n, rate)
  {}

  function DoCalls(c: Clock, calls: seq<Call>): Clock
    decreases |calls|
  {
    if |calls| == 0 then c else DoCalls(DoCall(c, calls[0]), calls[1..])
  }

  /** What all notified listeners ask for, one listener after the other. */
  function React(c: Clock, callbacks: seq<seq<Call>>): Clock
    decreases |callbacks|
  {
    if |callbacks| == 0 then c else React(DoCalls(c, callbacks[0]), callbacks[1..])
  }

  lemma {:induction false} CallsInOrder(c: Clock, before: seq<Call>, after: seq<Call>)
    ensures DoCalls(c, before + after) == DoCalls(DoCalls(c, before), after)
    decreases |before|
  {
    if |before| == 0 {
      assert before + after == after;
    } else {
      assert (before + after)[1..] == before[1..] + after;
      CallsInOrder(DoCall(c, before[0]), before[1..], after);
    }
  }

  /** What listeners ask for is done in the order in which they are notified, the calls of each one in his own order. */
  lemma {:induction false} CallbacksInOrder(c: Clock, before: seq<seq<Call>>, calls: seq<Call>, call: Call)
    ensures React(c, before + [calls + [call]]) == DoCall(DoCalls(React(c, before), calls), call)
    decreases |before|
  {
    if |before| == 0 {
      assert before + [calls + [call]] == [calls + [call]];
      CallsInOrder(c, calls, [call]);
    } else {
      assert (before + [calls + [call]])[1..] == before[1..] + [calls + [call]];
      CallbacksInOrder(DoCalls(c, before[0]), before[1..], calls, call);
    }
  }

  /** Counting n ticks down while the reference clock moves n ticks ahead. */
  lemma DecrementedConsistent(es: seq<Entry>, m: Clock, base: int, rate: int, n: nat)
    requires Consistent(es, m, base, rate)
    requires forall t :: t in m.pending ==> m.tick + n <= t
    ensures forall i :: 0 <= i < |es| ==> n <= es[i].ticks
    ensures Consistent(Decremented(es, n), m.(tick := m.tick + n), base + rate * n, rate)
  {
    CountdownsSuffice(es, m, m.tick + n);
    DecrementedTimed(es, base, rate, n);
    DecrementedAbsolute(es, m.tick, n);
  }

  /** Each entry has a self-message of its own; those from `next` on are not in use. */
  ghost predicate OwnMessages(es: seq<Entry>, next: nat) {
    && (forall i :: 0 <= i < |es| ==> es[i].message < next)
    && forall i, j :: 0 <= i < j < |es| ==> es[i].message != es[j].message
  }

  lemma PlacedOwnMessages(es: seq<Entry>, k: nat, e: Entry, next: nat)
    requires k <= |es| && OwnMessages(es, next) && e.message == next
    ensures OwnMessages(es[..k] + [e] + es[k..], next + 1)
  {}

  lemma DecrementedOwnMessages(es: seq<Entry>, n: nat, next: nat)
    requires OwnMessages(es, next) && forall i :: 0 <= i < |es| ==> n <= es[i].ticks
    ensures OwnMessages(Decremented(es, n), next)
  {}

  lemma ReplacedOwnMessages(es: seq<Entry>, k: nat, ls: seq<Listener>, next: nat)
    requires k < |es| && OwnMessages(es, next)
    ensures OwnMessages(es[k := es[k].(listeners := ls)], next)
  {}

  class ClockBase {
    ghost const start: int
    const clockRate: int
    var lastGlobalTickTimestamp: int
    var lastGlobalNonTickTimestamp: int
    var lastLocalTickTimestamp: int
    var tick: bool
    var scheduledTicks: seq<Entry>
    var nextMessage: nat
    ghost var model: Clock

    ghost predicate Valid()
      reads this
    {
      && 0 < clockRate
      && lastGlobalTickTimestamp == lastLocalTickTimestamp == start + clockRate * model.tick
      && Consistent(scheduledTicks, model, lastGlobalTickTimestamp, clockRate)
      && OwnMessages(scheduledTicks, nextMessage)
    }

    ghost predicate Ready(now: int)
      reads this
    {
      Valid() && !tick && Current(model, start, clockRate, now)
    }

    constructor (now: int, rate: int)
      requires 0 < rate
      ensures Valid() && !tick && start == now && clockRate == rate && model == Clock(0, map[])
    {
      start, clockRate := now, rate;
      lastGlobalTickTimestamp, lastGlobalNonTickTimestamp, lastLocalTickTimestamp := now, now, now;
      tick, scheduledTicks, nextMessage := false, [], 0;
      model := Clock(0, map[]);
    }

    /** IdealClock: ticks elapsed since the last update, and when the last of them happened. */
    function LastTick(now: int): (r: (nat, int))
      requires 0 < clockRate && lastGlobalTickTimestamp <= now
      reads this
    {
      var ticks := (now - lastGlobalTickTimestamp) / clockRate;
      (ticks, lastGlobalTickTimestamp + ticks * clockRate)
    }

    function ScheduleTick(idleTicks: nat): int
      reads this
    {
      lastGlobalTickTimestamp + clockRate * idleTicks
    }

    /** Counts all scheduled ticks down; the unsigned subtraction never wraps. */
    method DecrementScheduledTickCountdowns(ticks: nat)
      requires forall i :: 0 <= i < |scheduledTicks| ==> ticks <= scheduledTicks[i].ticks
      modifies this`scheduledTicks
      ensures scheduledTicks == Decremented(old(scheduledTicks), ticks)
    {
      var i := 0;
      while i < |scheduledTicks|
        invariant 0 <= i <= |scheduledTicks| == |old(scheduledTicks)|
        invariant forall j :: 0 <= j < i ==> scheduledTicks[j] == Decremented(old(scheduledTicks), ticks)[j]
        invariant forall j :: i <= j < |scheduledTicks| ==> scheduledTicks[j] == old(scheduledTicks)[j]
      {
        scheduledTicks := scheduledTicks[i := scheduledTicks[i].(ticks := scheduledTicks[i].ticks - ticks)];
        i := i + 1;
      }
    }

    /** The last of the elapsed ticks was at `timestamp`; if there was none, that is still the last tick. */
    method IncrementTime(ticks: nat, timestamp: int, now: int)
      requires ticks == 0 ==> timestamp == lastGlobalTickTimestamp
      modifies this`lastGlobalTickTimestamp, this`lastGlobalNonTickTimestamp, this`lastLocalTickTimestamp
      ensures lastGlobalTickTimestamp == timestamp
      ensures lastGlobalNonTickTimestamp == if ticks == 0 then now else timestamp
      ensures lastLocalTickTimestamp == old(lastLocalTickTimestamp) + clockRate * ticks
    {
      if ticks == 0 {
        lastGlobalNonTickTimestamp := now;
      } else {
        lastGlobalTickTimestamp, lastGlobalNonTickTimestamp := timestamp, timestamp;
        lastLocalTickTimestamp := lastLocalTickTimestamp + clockRate * ticks;
      }
    }

    /** Between ticks: account for all ticks that passed unobserved. */
    method UpdateTime(now: int)
      requires Ready(now)
      modifies this
      ensures Ready(now)
      ensures start <= now && model == old(model).(tick := TickAt(start, clockRate, now))
      ensures lastLocalTickTimestamp <= now < lastLocalTickTimestamp + clockRate
      ensures lastGlobalNonTickTimestamp == if model.tick == old(model.tick) then now else lastGlobalTickTimestamp
    {
      ghost var k := TickAfter(now);
      var last := LastTick(now);
      var ticks, timestamp := last.0, last.1;
      PendingAhead(model, start, clockRate, now);
      DecrementedConsistent(scheduledTicks, model, lastGlobalTickTimestamp, clockRate, ticks);
      DecrementedOwnMessages(scheduledTicks, ticks, nextMessage);
      IncrementTime(ticks, timestamp, now);
      DecrementScheduledTickCountdowns(ticks);
      model := model.(tick := k);
    }

    /** The elapsed ticks since the last update lead to the last tick at or before now. */
    lemma TickAfter(now: int) returns (k: nat)
      requires Ready(now)
      ensures start <= now && k == TickAt(start, clockRate, now) == model.tick + LastTick(now).0
      ensures LastTick(now).1 == start + clockRate * k == lastLocalTickTimestamp + clockRate * LastTick(now).0
      ensures start + clockRate * k <= now < start + clockRate * k + clockRate
    {
      var ticks := (now - lastGlobalTickTimestamp) / clockRate;
      TickAtBounds(lastGlobalTickTimestamp, clockRate, now);
      k := model.tick + ticks;
      assert clockRate * k == clockRate * model.tick + clockRate * ticks;
      assert clockRate * (k + 1) == clockRate * k + clockRate;
      assert clockRate * (ticks + 1) == clockRate * ticks + clockRate;
      TickAtIs(start, clockRate, now, k);
    }

    /** The local time is always the start plus a whole number of periods, never ahead of `now` and less than
        one period behind it.  During a tick the clock stands at that tick already. */
    method GetTime(now: int) returns (time: int)
      requires if tick then Valid() && now == start + clockRate * model.tick else Ready(now)
      modifies this
      ensures Valid() && tick == old(tick) && (!tick ==> Ready(now)) && (tick ==> model == old(model))
      ensures start <= now && model == old(model).(tick := TickAt(start, clockRate, now))
      ensures time == start + clockRate * TickAt(start, clockRate, now) && time <= now < time + clockRate
    {
      if !tick {
        UpdateTime(now);
      } else {
        TickAtIs(start, clockRate, now, model.tick);
      }
      time := lastLocalTickTimestamp;
    }

    /** The first entry with as many idle ticks or more. */
    method LowerBound(idleTicks: nat) returns (k: nat)
      requires Sorted(scheduledTicks)
      ensures k <= |scheduledTicks|
      ensures forall i :: 0 <= i < k ==> scheduledTicks[i].ticks < idleTicks
      ensures forall i :: k <= i < |scheduledTicks| ==> idleTicks <= scheduledTicks[i].ticks
      ensures k < |scheduledTicks| && scheduledTicks[k].ticks != idleTicks ==>
        forall i :: k <= i < |scheduledTicks| ==> idleTicks < scheduledTicks[i].ticks
    {
      k := 0;
      while k < |scheduledTicks| && scheduledTicks[k].ticks < idleTicks
        invariant 0 <= k <= |scheduledTicks|
        invariant forall i :: 0 <= i < k ==> scheduledTicks[i].ticks < idleTicks
      {
        k := k + 1;
      }
    }

    /** Adds a subscription relative to the present local tick. */
    method AddScheduledTickListener(idleTicks: nat, listener: Listener)
      requires Valid()
      modifies this`scheduledTicks, this`nextMessage, this`model
      ensures Valid() && model == DoCall(old(model), Subscribe(listener, idleTicks))
    {
      var k := LowerBound(idleTicks);
      ghost var before := scheduledTicks;
      if !(k < |scheduledTicks| && scheduledTicks[k].ticks == idleTicks) {
        var entry := Entry(idleTicks, ScheduleTick(idleTicks), nextMessage, []);
        NewEntryConsistent(before, k, entry.(listeners := [listener]), model, lastGlobalTickTimestamp, clockRate,
          listener);
        PlacedOwnMessages(before, k, entry, nextMessage);
        scheduledTicks := scheduledTicks[..k] + [entry] + scheduledTicks[k..];
        nextMessage := nextMessage + 1;
        PlacedUpdated(before, k, entry, entry.(listeners := [listener]));
        assert entry.listeners + [listener] == [listener];
      } else {
        OldEntryConsistent(before, k, model, lastGlobalTickTimestamp, clockRate, listener);
      }
      var entry := scheduledTicks[k];
      ReplacedOwnMessages(scheduledTicks, k, entry.listeners + [listener], nextMessage);
      if listener !in entry.listeners {
        scheduledTicks := scheduledTicks[k := entry.(listeners := entry.listeners + [listener])];
      } else {
        assert scheduledTicks == before[k := before[k].(listeners := AddOnce(before[k].listeners, listener))];
      }
      model := DoCall(model, Subscribe(listener, idleTicks));
    }

    /** Subscribing 0 ticks ahead is possible only on a tick boundary: the kernel refuses events
        in the past. */
    method SubscribeTick(listener: Listener, idleTicks: nat, now: int)
      requires if tick then Valid()
               else Ready(now) &&
                    (idleTicks == 0 ==> start <= now && now == start + clockRate * TickAt(start, clockRate, now))
      modifies this
      ensures Valid() && tick == old(tick)
      ensures if tick then
                model == DoCall(old(model), Subscribe(listener, idleTicks)) &&
                lastLocalTickTimestamp == old(lastLocalTickTimestamp)
              else start <= now && Current(model, start, clockRate, now) &&
                   model == DoCall(old(model).(tick := TickAt(start, clockRate, now)), Subscribe(listener, idleTicks))
    {
      if !tick {
        UpdateTime(now);
        NotInThePast(model.tick, idleTicks, now);
      }
      AddScheduledTickListener(idleTicks, listener);
    }

    lemma NotInThePast(k: nat, n: nat, now: int)
      requires 0 < clockRate && start + clockRate * k <= now < start + clockRate * k + clockRate
      requires n == 0 ==> now == start + clockRate * k
      ensures now <= start + clockRate * (k + n)
    {}

    /** The scheduled tick itself stays, possibly without listeners. */
    method UnsubscribeTicks(listener: Listener)
      requires Valid()
      modifies this`scheduledTicks, this`model
      ensures Valid() && model == DoCall(old(model), Unsubscribe(listener))
    {
      var i := 0;
      while i < |scheduledTicks|
        invariant 0 <= i <= |scheduledTicks| == |old(scheduledTicks)| && model == old(model)
        invariant forall j :: 0 <= j < i ==> scheduledTicks[j] == Stripped(old(scheduledTicks), listener)[j]
        invariant forall j :: i <= j < |scheduledTicks| ==> scheduledTicks[j] == old(scheduledTicks)[j]
      {
        var entry := scheduledTicks[i];
        scheduledTicks := scheduledTicks[i := entry.(listeners := Without(entry.listeners, listener))];
        i := i + 1;
      }
      assert scheduledTicks == Stripped(old(scheduledTicks), listener);
      StrippedConsistent(old(scheduledTicks), model, lastGlobalTickTimestamp, clockRate, listener);
      model := DoCall(model, Unsubscribe(listener));
    }

    /** Notifies the listeners of the front entry, which is out of the list meanwhile, so that
        they may subscribe to this very tick again. */
    method NotifyNextTick(front: Entry, callbacks: seq<seq<Call>>) returns (notified: seq<Listener>)
      requires Valid() && tick && |callbacks| == |front.listeners|
      modifies this
      ensures Valid() && tick && notified == front.listeners
      ensures model == React(old(model), callbacks) && model.tick == old(model).tick
    {
      notified := [];
      ghost var todo := callbacks;
      while |notified| < |front.listeners|
        invariant |notified| <= |front.listeners| && notified == front.listeners[..|notified|]
        invariant todo == callbacks[|notified|..]
        invariant Valid() && tick && model.tick == old(model).tick
        invariant React(model, todo) == React(old(model), callbacks)
      {
        var calls := callbacks[|notified|];
        assert todo[0] == calls && todo[1..] == callbacks[|notified| + 1..];
        notified := notified + [front.listeners[|notified|]];
        Listen(calls);
        todo := todo[1..];
      }
    }

    /** The calls one listener makes while it is being notified: the time stands still. */
    method Listen(calls: seq<Call>)
      requires Valid() && tick
      modifies this
      ensures Valid() && tick && model == DoCalls(old(model), calls) && model.tick == old(model).tick
      decreases |calls|
    {
      if |calls| != 0 {
        assert DoCalls(model, calls) == DoCalls(DoCall(model, calls[0]), calls[1..]);
        match calls[0] {
          case GetTime => var _ := GetTime(lastGlobalTickTimestamp);
          case Subscribe(l, n) => SubscribeTick(l, n, lastGlobalTickTimestamp);
          case Unsubscribe(l) => UnsubscribeTicks(l);
        }
        Listen(calls[1..]);
      }
    }

    /** The kernel delivers a pending message of least time stamp. */
    ghost predicate Fires(message: nat, now: int)
      reads this
    {
      && (exists i :: 0 <= i < |scheduledTicks| &&
                      scheduledTicks[i].message == message && scheduledTicks[i].timestamp == now)
      && (forall i :: 0 <= i < |scheduledTicks| ==> now <= scheduledTicks[i].timestamp)
    }

    /** A scheduled tick: time advances, everybody who subscribed to this tick is notified, and
        what the notified listeners ask for meanwhile is done. */
    method HandleMessage(message: nat, now: int, callbacks: seq<seq<Call>>) returns (notified: seq<Listener>)
      requires Ready(now) && Fires(message, now)
      requires start <= now && |callbacks| == |PendingAt(model, TickAt(start, clockRate, now))|
      modifies this
      ensures Valid() && !tick && now == start + clockRate * model.tick
      ensures var due := old(model).(tick := TickAt(start, clockRate, now));
        && Enabled(due, Due) && notified == PendingAt(due, due.tick)
        && model == React(Apply(due, Due), callbacks)
    {
      tick := true;
      UpdateTimeOnScheduledTick(message, now);
      assert message == scheduledTicks[0].message;
      var front := scheduledTicks[0];
      assert scheduledTicks == [front] + scheduledTicks[1..];
      scheduledTicks := scheduledTicks[1..];
      FrontIsDue(front, scheduledTicks, model, lastGlobalTickTimestamp, clockRate);
      model := Apply(model, Due);
      notified := NotifyNextTick(front, callbacks);
      scheduledTicks := [front] + scheduledTicks;
      // the front entry is deleted again
      scheduledTicks := scheduledTicks[1..];
      tick := false;
    }

    method UpdateTimeOnScheduledTick(message: nat, now: int)
      requires Valid() && tick && Current(model, start, clockRate, now) && Fires(message, now)
      modifies this
      ensures Valid() && tick && start <= now && model == old(model).(tick := TickAt(start, clockRate, now))
      ensures now == start + clockRate * model.tick
      ensures |scheduledTicks| != 0 && scheduledTicks[0].ticks == 0 && scheduledTicks[0].message == message
      ensures lastGlobalNonTickTimestamp == now
    {
      ghost var k := FrontFires(message, now);
      var elapsedTicks := scheduledTicks[0].ticks;
      PendingAhead(model, start, clockRate, now);
      DecrementedConsistent(scheduledTicks, model, lastGlobalTickTimestamp, clockRate, elapsedTicks);
      DecrementedOwnMessages(scheduledTicks, elapsedTicks, nextMessage);
      IncrementTime(elapsedTicks, now, now);
      DecrementScheduledTickCountdowns(elapsedTicks);
      model := model.(tick := k);
    }

    /** The message that fires is always the one of the front entry, and its time is the tick it
        was scheduled for. */
    lemma FrontFires(message: nat, now: int) returns (k: nat)
      requires Valid() && Current(model, start, clockRate, now) && Fires(message, now)
      ensures |scheduledTicks| != 0 && scheduledTicks[0].message == message && scheduledTicks[0].timestamp == now
      ensures start <= now && k == TickAt(start, clockRate, now) == model.tick + scheduledTicks[0].ticks
      ensures now == start + clockRate * k == lastLocalTickTimestamp + clockRate * scheduledTicks[0].ticks
    {
      var i :| 0 <= i < |scheduledTicks| && scheduledTicks[i].message == message && scheduledTicks[i].timestamp == now;
      MulMonotone(clockRate, scheduledTicks[0].ticks, scheduledTicks[i].ticks);
      k := model.tick + scheduledTicks[0].ticks;
      assert clockRate * k == clockRate * model.tick + clockRate * scheduledTicks[0].ticks;
      assert clockRate * (k + 1) == clockRate * k + clockRate;
      TickAtIs(start, clockRate, now, k);
    }
  }

  /** The front entry, counted down to zero, holds exactly what is due. */
  lemma FrontIsDue(front: Entry, rest: seq<Entry>, m: Clock, base: int, rate: int)
    requires Consistent([front] + rest, m, base, rate) && front.ticks == 0
    ensures Enabled(m, Due) && PendingAt(m, m.tick) == front.listeners
    ensures Consistent(rest, Apply(m, Due), base, rate)
  {
    var es := [front] + rest;
    assert es[0] == front && es[1..] == rest;
    assert forall i :: 0 <= i < |rest| ==> rest[i] == es[i + 1];
    AbsoluteAbove(rest, m.tick, 1);
    ApplyKeepsValid(m, Due);
  }
}
