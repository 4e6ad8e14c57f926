/** The reference clock: it steps through every single tick and keeps its subscriptions in a map
    from absolute tick numbers to the listeners to notify.  ClockBase (LazyClock.dfy) is proved
    to be indistinguishable from it; what subscribers may rely on is proved here. */
module EagerClock {
  import opened Traces

  type Listener = nat

  /** What a module may ask of the clock, from outside a tick or from inside a notification. */
  datatype Call =
    | GetTime
    | Subscribe(listener: Listener, idleTicks: nat)
    | Unsubscribe(listener: Listener)

  datatype Clock = Clock(tick: nat, pending: map<nat, seq<Listener>>)

  /** Tick: one clock period passes.  Due: the subscribers of the present tick are notified. */
  datatype Action = Tick | Due | Do(call: Call)

  ghost predicate Distinct(ls: seq<Listener>) {
    forall i, j :: 0 <= i < j < |ls| ==> ls[i] != ls[j]
  }

  ghost predicate Valid(c: Clock) {
    forall t :: t in c.pending ==> c.tick <= t && Distinct(c.pending[t])
  }

  function AddOnce(ls: seq<Listener>, l: Listener): seq<Listener> {
    if l in ls then ls else ls + [l]
  }

  function Without(ls: seq<Listener>, l: Listener): (r: seq<Listener>)
    ensures forall x :: x in r <==> x in ls && x != l
    ensures Distinct(ls) ==> Distinct(r)
  {
    if ls == [] then []
    else
      var rest := Without(ls[1..], l);
      assert Distinct(ls) ==> Distinct(ls[1..]) && ls[0] !in ls[1..];
      if ls[0] == l then rest else [ls[0]] + rest
  }

  function PendingAt(c: Clock, t: nat): seq<Listener> {
    if t in c.pending then c.pending[t] else []
  }

  function DoCall(c: Clock, call: Call): Clock {
    match call
    case GetTime => c
    case Subscribe(l, n) =>
      c.(pending := c.pending[c.tick + n := AddOnce(PendingAt(c, c.tick + n), l)])
    case Unsubscribe(l) =>
      c.(pending := map t | t in c.pending :: Without(c.pending[t], l))
  }

  /** The clock may not pass a tick that still has a scheduled notification. */
  predicate Enabled(c: Clock, a: Action) {
    match a
    case Tick => c.tick !in c.pending
    case Due => c.tick in c.pending
    case Do(_) => true
  }

  function Apply(c: Clock, a: Action): Clock {
    match a
    case Tick => c.(tick := c.tick + 1)
    case Due => c.(pending := c.pending - {c.tick})
    case Do(call) => DoCall(c, call)
  }

  function Run(c: Clock, run: Trace<Action>): Clock {
    match run
    case Start => c
    case Then(before, a) => Apply(Run(c, before), a)
  }

  ghost predicate Legal(c: Clock, run: Trace<Action>) {
    match run
    case Start => true
    case Then(before, a) => Legal(c, before) && Enabled(Run(c, before), a)
  }

  function Stamp(t: nat, ls: seq<Listener>): seq<(nat, Listener)> {
    if ls == [] then [] else [(t, ls[0])] + Stamp(t, ls[1..])
  }

  function Notified(c: Clock, a: Action): seq<(nat, Listener)> {
    if a.Due? then Stamp(c.tick, PendingAt(c, c.tick)) else []
  }

  /** All notifications of a run, each with the tick at which it happened. */
  function Log(c: Clock, run: Trace<Action>): seq<(nat, Listener)> {
    match run
    case Start => []
    case Then(before, a) => Log(c, before) + Notified(Run(c, before), a)
  }

  lemma ApplyKeepsValid(c: Clock, a: Action)
    requires Valid(c) && Enabled(c, a)
    ensures Valid(Apply(c, a)) && c.tick <= Apply(c, a).tick
  {}

  lemma {:induction false} RunKeepsValid(c: Clock, run: Trace<Action>)
    requires Valid(c) && Legal(c, run)
    ensures Valid(Run(c, run)) && c.tick <= Run(c, run).tick
  {
    match run
    case Start =>
    case Then(before, a) =>
      RunKeepsValid(c, before);
      ApplyKeepsValid(Run(c, before), a);
  }

  // ----- what a subscriber may rely on -----------------------------------------------------

  function Waiting(c: Clock, l: Listener, t: nat): nat {
    if l in PendingAt(c, t) then 1 else 0
  }

  function BookedNow(c: Clock, a: Action, l: Listener, t: nat): nat {
    if a.Do? && a.call.Subscribe? && a.call.listener == l && c.tick + a.call.idleTicks == t
    then 1 - Waiting(c, l, t) else 0
  }

  function CancelledNow(c: Clock, a: Action, l: Listener, t: nat): nat {
    if a == Do(Unsubscribe(l)) then Waiting(c, l, t) else 0
  }

  /** Subscriptions of l for tick t that did not merge with one already there. */
  function Booked(c: Clock, run: Trace<Action>, l: Listener, t: nat): nat {
    match run
    case Start => 0
    case Then(before, a) => Booked(c, before, l, t) + BookedNow(Run(c, before), a, l, t)
  }

  /** Subscriptions of l for tick t that were withdrawn before they were delivered. */
  function Cancelled(c: Clock, run: Trace<Action>, l: Listener, t: nat): nat {
    match run
    case Start => 0
    case Then(before, a) => Cancelled(c, before, l, t) + CancelledNow(Run(c, before), a, l, t)
  }

  /** How often the run notified l at tick t. */
  function Count(log: seq<(nat, Listener)>, l: Listener, t: nat): nat {
    if log == [] then 0 else Count(log[1..], l, t) + if log[0] == (t, l) then 1 else 0
  }

  lemma {:induction false} CountConcat(a: seq<(nat, Listener)>, b: seq<(nat, Listener)>, l: Listener, t: nat)
    ensures Count(a + b, l, t) == Count(a, l, t) + Count(b, l, t)
  {
    if a == [] {
      assert a + b == b;
    } else {
      assert (a + b)[1..] == a[1..] + b;
      CountConcat(a[1..], b, l, t);
    }
  }

  lemma {:induction false} CountStamp(now: nat, ls: seq<Listener>, l: Listener, t: nat)
    requires Distinct(ls)
    ensures Count(Stamp(now, ls), l, t) == if now == t && l in ls then 1 else 0
  {
    if ls != [] {
      assert forall i :: 0 <= i < |ls[1..]| ==> ls[1..][i] != ls[0];
      CountStamp(now, ls[1..], l, t);
      assert ls == [ls[0]] + ls[1..];
    }
  }

  lemma LedgerStep(c: Clock, a: Action, l: Listener, t: nat)
    requires Valid(c) && Enabled(c, a)
    ensures Waiting(c, l, t) + BookedNow(c, a, l, t)
         == Count(Notified(c, a), l, t) + CancelledNow(c, a, l, t) + Waiting(Apply(c, a), l, t)
  {
    if a.Due? {
      CountStamp(c.tick, PendingAt(c, c.tick), l, t);
    } else {
      assert Notified(c, a) == [];
    }
  }

  /** Conservation of subscriptions: whatever was waiting or newly booked was delivered,
      withdrawn, or still waits. */
  lemma {:induction false} SubscriptionLedger(c: Clock, run: Trace<Action>, l: Listener, t: nat)
    requires Valid(c) && Legal(c, run)
    ensures Waiting(c, l, t) + Booked(c, run, l, t)
         == Count(Log(c, run), l, t) + Cancelled(c, run, l, t) + Waiting(Run(c, run), l, t)
  {
    match run
    case Start =>
    case Then(before, a) =>
      SubscriptionLedger(c, before, l, t);
      RunKeepsValid(c, before);
      LedgerStep(Run(c, before), a, l, t);
      CountConcat(Log(c, before), Notified(Run(c, before), a), l, t);
  }

  /** A subscription made at tick c.tick for n ticks ahead is delivered exactly once, and exactly at
      tick c.tick + n, once the clock has passed that tick, provided it was neither withdrawn nor
      booked anew after its delivery. */
  lemma DeliveredExactlyOnce(c: Clock, l: Listener, n: nat, later: Trace<Action>)
    requires Valid(c)
    requires var s := DoCall(c, Subscribe(l, n));
      && Legal(s, later)
      && Run(s, later).tick > c.tick + n
      && Cancelled(s, later, l, c.tick + n) == 0
      && Booked(s, later, l, c.tick + n) == 0
    ensures Count(Log(DoCall(c, Subscribe(l, n)), later), l, c.tick + n) == 1
  {
    var s := DoCall(c, Subscribe(l, n));
    ApplyKeepsValid(c, Do(Subscribe(l, n)));
    SubscriptionLedger(s, later, l, c.tick + n);
    RunKeepsValid(s, later);
  }

  /** Nobody is notified of a tick he never subscribed to. */
  lemma NeverDeliveredUnbooked(c: Clock, run: Trace<Action>, l: Listener, t: nat)
    requires Valid(c) && Legal(c, run)
    requires Waiting(c, l, t) == 0 && Booked(c, run, l, t) == 0
    ensures Count(Log(c, run), l, t) == 0
  {
    SubscriptionLedger(c, run, l, t);
  }

  lemma {:induction false} StampTicks(t: nat, ls: seq<Listener>)
    ensures |Stamp(t, ls)| == |ls|
    ensures forall i :: 0 <= i < |ls| ==> Stamp(t, ls)[i] == (t, ls[i])
  {
    if ls != [] {
      StampTicks(t, ls[1..]);
    }
  }

  /** Notifications never go back in time. */
  lemma {:induction false} LogIsOrdered(c: Clock, run: Trace<Action>)
    requires Valid(c) && Legal(c, run)
    ensures var log := Log(c, run);
      && (forall i, j :: 0 <= i < j < |log| ==> log[i].0 <= log[j].0)
      && (forall i :: 0 <= i < |log| ==> c.tick <= log[i].0 <= Run(c, run).tick)
  {
    match run
    case Start =>
    case Then(before, a) =>
      LogIsOrdered(c, before);
      RunKeepsValid(c, run);
      RunKeepsValid(c, before);
      var now := Run(c, before);
      StampTicks(now.tick, PendingAt(now, now.tick));
      assert Log(c, run) == Log(c, before) + Notified(now, a);
      assert now.tick <= Run(c, run).tick by { ApplyKeepsValid(now, a); }
  }

  // ----- the order within a tick ------------------------------------------------------------

  /** a stands before b. */
  ghost predicate Before(ls: seq<Listener>, a: Listener, b: Listener) {
    exists i, j :: 0 <= i < j < |ls| && ls[i] == a && ls[j] == b
  }

  lemma BeforePrepended(ls: seq<Listener>, x: Listener, a: Listener, b: Listener)
    requires Before(ls, a, b) || (x == a && b in ls)
    ensures Before([x] + ls, a, b)
  {
    var s := [x] + ls;
    assert forall i :: 0 <= i < |ls| ==> s[i + 1] == ls[i];
    if Before(ls, a, b) {
      var i, j :| 0 <= i < j < |ls| && ls[i] == a && ls[j] == b;
      assert s[i + 1] == a && s[j + 1] == b;
    } else {
      var j :| 0 <= j < |ls| && ls[j] == b;
      assert s[0] == a && s[j + 1] == b;
    }
  }

  lemma {:induction false} WithoutKeepsOrder(ls: seq<Listener>, l: Listener, a: Listener, b: Listener)
    requires Before(ls, a, b) && a != l && b != l
    ensures Before(Without(ls, l), a, b)
  {
    var i, j :| 0 <= i < j < |ls| && ls[i] == a && ls[j] == b;
    var rest := ls[1..];
    assert forall k :: 0 < k < |ls| ==> rest[k - 1] == ls[k];
    if i != 0 {
      WithoutKeepsOrder(rest, l, a, b);
    }
    if ls[0] != l {
      BeforePrepended(Without(rest, l), ls[0], a, b);
    }
  }

  /** Withdrawing a listener leaves the others of every tick in their order. */
  lemma WithdrawalKeepsOrder(c: Clock, l: Listener, t: nat, a: Listener, b: Listener)
    requires Before(PendingAt(c, t), a, b) && a != l && b != l
    ensures Before(PendingAt(Apply(c, Do(Unsubscribe(l))), t), a, b)
  {
    WithoutKeepsOrder(PendingAt(c, t), l, a, b);
  }

  /** m is notified at tick t only after l: l still waits, in front of m if m waits, or has been notified. */
  ghost predicate Precedes(c: Clock, log: seq<(nat, Listener)>, l: Listener, m: Listener, t: nat) {
    && ((t, l) in log || (l in PendingAt(c, t) && (m in PendingAt(c, t) ==> Before(PendingAt(c, t), l, m))))
    && forall j :: 0 <= j < |log| && log[j] == (t, m) ==> exists i :: 0 <= i < j && log[i] == (t, l)
  }

  lemma NotifyingKeepsPrecedence(c: Clock, log: seq<(nat, Listener)>, l: Listener, m: Listener, t: nat)
    requires Valid(c) && Enabled(c, Due) && l != m && Precedes(c, log, l, m, t)
    ensures Precedes(Apply(c, Due), log + Stamp(c.tick, PendingAt(c, c.tick)), l, m, t)
  {
    var ls := PendingAt(c, c.tick);
    var stamps := Stamp(c.tick, ls);
    var log' := log + stamps;
    StampTicks(c.tick, ls);
    if (t, l) in log {
      var i :| 0 <= i < |log| && log[i] == (t, l);
      assert log'[i] == (t, l);
    } else if c.tick == t {
      var i :| 0 <= i < |ls| && ls[i] == l;
      assert log'[|log| + i] == (t, l);
    }
    forall j | 0 <= j < |log'| && log'[j] == (t, m)
      ensures exists i :: 0 <= i < j && log'[i] == (t, l)
    {
      if j < |log| {
        assert log[j] == (t, m);
        var i :| 0 <= i < j && log[i] == (t, l);
        assert log'[i] == (t, l);
      } else if (t, l) in log {
        var i :| 0 <= i < |log| && log[i] == (t, l);
        assert log'[i] == (t, l);
      } else {
        assert stamps[j - |log|] == (c.tick, ls[j - |log|]);
        var i, k :| 0 <= i < k < |ls| && ls[i] == l && ls[k] == m;
        assert k == j - |log|;
        assert log'[|log| + i] == (t, l);
      }
    }
  }

  lemma AskingKeepsPrecedence(c: Clock, a: Action, log: seq<(nat, Listener)>, l: Listener, m: Listener, t: nat)
    requires Valid(c) && Enabled(c, a) && !a.Due? && l != m && Precedes(c, log, l, m, t)
    requires CancelledNow(c, a, l, t) == 0
    ensures Precedes(Apply(c, a), log, l, m, t)
  {
    var ls, ls' := PendingAt(c, t), PendingAt(Apply(c, a), t);
    if a.Do? && a.call.Unsubscribe? && Before(ls, l, m) && m in ls' && (t, l) !in log {
      WithdrawalKeepsOrder(c, a.call.listener, t, l, m);
    } else if a.Do? && a.call.Subscribe? && l in ls && m in ls' {
      if m in ls {
        var i, j :| Before(ls, l, m) ==> 0 <= i < j < |ls| && ls[i] == l && ls[j] == m;
        assert Before(ls, l, m) ==> ls'[i] == l && ls'[j] == m;
      } else {
        var i :| 0 <= i < |ls| && ls[i] == l;
        assert ls'[i] == l && ls'[|ls|] == m;
      }
    }
  }

  lemma {:induction false} RunKeepsPrecedence(c: Clock, run: Trace<Action>, l: Listener, m: Listener, t: nat)
    requires Valid(c) && Legal(c, run) && l != m && Precedes(c, [], l, m, t) && Cancelled(c, run, l, t) == 0
    ensures Precedes(Run(c, run), Log(c, run), l, m, t)
  {
    match run
    case Start =>
    case Then(before, a) =>
      RunKeepsPrecedence(c, before, l, m, t);
      RunKeepsValid(c, before);
      if a.Due? {
        NotifyingKeepsPrecedence(Run(c, before), Log(c, before), l, m, t);
      } else {
        AskingKeepsPrecedence(Run(c, before), a, Log(c, before), l, m, t);
        assert Log(c, run) == Log(c, before);
      }
  }

  lemma {:induction false} CountedIsThere(log: seq<(nat, Listener)>, l: Listener, t: nat)
    requires 0 < Count(log, l, t)
    ensures (t, l) in log
  {
    if log[0] != (t, l) {
      CountedIsThere(log[1..], l, t);
    }
  }

  /** First come, first served: l waits for a tick that m newly books, and is not withdrawn from it.  In everything
      that follows m is never notified at this tick before l has been; once the tick is over l has been notified,
      and before m unless that is withdrawn. */
  lemma FirstComeFirstServed(c: Clock, l: Listener, m: Listener, n: nat, later: Trace<Action>)
    requires Valid(c) && l in PendingAt(c, c.tick + n) && m !in PendingAt(c, c.tick + n)
    requires var s := DoCall(c, Subscribe(m, n)); Legal(s, later) && Cancelled(s, later, l, c.tick + n) == 0
    ensures var s, t := DoCall(c, Subscribe(m, n)), c.tick + n; var log := Log(s, later);
      && (forall j :: 0 <= j < |log| && log[j] == (t, m) ==> exists i :: 0 <= i < j && log[i] == (t, l))
      && (t < Run(s, later).tick ==> (t, l) in log)
      && (t < Run(s, later).tick && Cancelled(s, later, m, t) == 0 ==>
           exists i, j :: 0 <= i < j < |log| && log[i] == (t, l) && log[j] == (t, m))
  {
    var s, t := DoCall(c, Subscribe(m, n)), c.tick + n;
    var ls, ls', log := PendingAt(c, t), PendingAt(s, t), Log(s, later);
    var i :| 0 <= i < |ls| && ls[i] == l;
    assert ls'[i] == l && ls'[|ls|] == m;
    ApplyKeepsValid(c, Do(Subscribe(m, n)));
    RunKeepsPrecedence(s, later, l, m, t);
    RunKeepsValid(s, later);
    if t < Run(s, later).tick && Cancelled(s, later, m, t) == 0 {
      SubscriptionLedger(s, later, m, t);
      CountedIsThere(log, m, t);
      var j :| 0 <= j < |log| && log[j] == (t, m);
    }
  }
}
