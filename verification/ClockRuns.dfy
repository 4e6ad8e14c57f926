/** Whole runs: the simulation kernel fires the clock's messages in time order while other modules
    call the clock in between.  The lazy clock's notifications are those of the reference clock,
    which passes through every tick. */
module ClockRuns {
  import opened Traces
  import opened EagerClock
  import opened LazyClock

  /** Request: a module calls the clock.  Fire: the earliest self-message is delivered, and each
      notified listener makes the calls listed for it. */
  datatype Event =
    | Request(now: int, call: Call)
    | Fire(now: int, callbacks: seq<seq<Call>>)

  function Ticked(run: Trace<Action>, n: nat): Trace<Action> {
    if n == 0 then run else Then(Ticked(run, n - 1), Tick)
  }

  function Asked(run: Trace<Action>, calls: seq<Call>): Trace<Action>
    decreases |calls|
  {
    if |calls| == 0 then run else Asked(Then(run, Do(calls[0])), calls[1..])
  }

  function AskedAll(run: Trace<Action>, callbacks: seq<seq<Call>>): Trace<Action>
    decreases |callbacks|
  {
    if |callbacks| == 0 then run else AskedAll(Asked(run, callbacks[0]), callbacks[1..])
  }

  /** What the kernel and the callers guarantee: time order, nothing overdue, a message fires at its
      own time, and nobody subscribes into the past. */
  ghost predicate Possible(m: Clock, start: int, rate: int, e: Event)
    requires 0 < rate
  {
    && Current(m, start, rate, e.now) && start <= e.now
    && var k := TickAt(start, rate, e.now);
      match e
      case Request(now, call) => call.Subscribe? && call.idleTicks == 0 ==> now == start + rate * k
      case Fire(now, callbacks) => now == start + rate * k && k in m.pending && |callbacks| == |m.pending[k]|
  }

  /** The reference clock's run for a script of events. */
  ghost function History(m: Clock, start: int, rate: int, script: Trace<Event>): Trace<Action>
    requires 0 < rate
  {
    match script
    case Start => Start
    case Then(before, e) =>
      var h := History(m, start, rate, before);
      if !Possible(Run(m, h), start, rate, e) then h
      else Extended(h, Run(m, h).tick, start, rate, e)
  }

  ghost function Extended(h: Trace<Action>, tick: nat, start: int, rate: int, e: Event): Trace<Action>
    requires 0 < rate && start <= e.now
  {
    var k := TickAt(start, rate, e.now);
    var h' := Ticked(h, if tick <= k then k - tick else 0);
    match e
    case Request(_, call) => Then(h', Do(call))
    case Fire(_, callbacks) => AskedAll(Then(h', Due), callbacks)
  }

  ghost predicate Feasible(m: Clock, start: int, rate: int, script: Trace<Event>)
    requires 0 < rate
  {
    match script
    case Start => true
    case Then(before, e) =>
      Feasible(m, start, rate, before) && Possible(Run(m, History(m, start, rate, before)), start, rate, e)
  }

  lemma {:induction false} TickedRuns(m: Clock, h: Trace<Action>, n: nat)
    requires Legal(m, h)
    requires forall t :: t in Run(m, h).pending ==> Run(m, h).tick + n <= t
    ensures Legal(m, Ticked(h, n)) && Log(m, Ticked(h, n)) == Log(m, h)
    ensures Run(m, Ticked(h, n)) == Run(m, h).(tick := Run(m, h).tick + n)
  {
    if n != 0 {
      TickedRuns(m, h, n - 1);
    }
  }

  lemma {:induction false} AskedRuns(m: Clock, h: Trace<Action>, calls: seq<Call>)
    requires Legal(m, h)
    ensures Legal(m, Asked(h, calls)) && Log(m, Asked(h, calls)) == Log(m, h)
    ensures Run(m, Asked(h, calls)) == DoCalls(Run(m, h), calls)
    decreases |calls|
  {
    if |calls| != 0 {
      AskedRuns(m, Then(h, Do(calls[0])), calls[1..]);
    }
  }

  lemma {:induction false} AskedAllRuns(m: Clock, h: Trace<Action>, callbacks: seq<seq<Call>>)
    requires Legal(m, h)
    ensures Legal(m, AskedAll(h, callbacks)) && Log(m, AskedAll(h, callbacks)) == Log(m, h)
    ensures Run(m, AskedAll(h, callbacks)) == React(Run(m, h), callbacks)
    decreases |callbacks|
  {
    if |callbacks| != 0 {
      AskedRuns(m, h, callbacks[0]);
      AskedAllRuns(m, Asked(h, callbacks[0]), callbacks[1..]);
    }
  }

  // ----- the reference run is the script's --------------------------------------------------

  /** The calls made in a run of the reference clock, each with the tick at which it was made. */
  function Asks(m: Clock, run: Trace<Action>): seq<(nat, Call)> {
    match run
    case Start => []
    case Then(before, a) => Asks(m, before) + if a.Do? then [(Run(m, before).tick, a.call)] else []
  }

  function Firings(run: Trace<Action>): nat {
    match run
    case Start => 0
    case Then(before, a) => Firings(before) + if a.Due? then 1 else 0
  }

  function AtTick(tick: nat, calls: seq<Call>): seq<(nat, Call)> {
    if calls == [] then [] else [(tick, calls[0])] + AtTick(tick, calls[1..])
  }

  function AllAtTick(tick: nat, callbacks: seq<seq<Call>>): seq<(nat, Call)> {
    if callbacks == [] then [] else AtTick(tick, callbacks[0]) + AllAtTick(tick, callbacks[1..])
  }

  /** The calls of a script, each with the tick of its time. */
  function CallsOf(start: int, rate: int, script: Trace<Event>): seq<(nat, Call)>
    requires 0 < rate
  {
    match script
    case Start => []
    case Then(before, e) =>
      var k := if start <= e.now then TickAt(start, rate, e.now) else 0;
      CallsOf(start, rate, before) +
      match e { case Request(_, call) => [(k, call)] case Fire(_, callbacks) => AllAtTick(k, callbacks) }
  }

  function FiringsOf(script: Trace<Event>): nat {
    match script
    case Start => 0
    case Then(before, e) => FiringsOf(before) + if e.Fire? then 1 else 0
  }

  lemma {:induction false} TickedAsks(m: Clock, h: Trace<Action>, n: nat)
    ensures Asks(m, Ticked(h, n)) == Asks(m, h) && Firings(Ticked(h, n)) == Firings(h)
    ensures Run(m, Ticked(h, n)).tick == Run(m, h).tick + n
  {
    if n != 0 {
      TickedAsks(m, h, n - 1);
    }
  }

  lemma {:induction false} AskedAsks(m: Clock, h: Trace<Action>, calls: seq<Call>)
    ensures Asks(m, Asked(h, calls)) == Asks(m, h) + AtTick(Run(m, h).tick, calls)
    ensures Firings(Asked(h, calls)) == Firings(h) && Run(m, Asked(h, calls)).tick == Run(m, h).tick
    decreases |calls|
  {
    if |calls| != 0 {
      var next := Then(h, Do(calls[0]));
      AskedAsks(m, next, calls[1..]);
      assert Asks(m, next) == Asks(m, h) + [(Run(m, h).tick, calls[0])];
    }
  }

  lemma {:induction false} AskedAllAsks(m: Clock, h: Trace<Action>, callbacks: seq<seq<Call>>)
    ensures Asks(m, AskedAll(h, callbacks)) == Asks(m, h) + AllAtTick(Run(m, h).tick, callbacks)
    ensures Firings(AskedAll(h, callbacks)) == Firings(h) && Run(m, AskedAll(h, callbacks)).tick == Run(m, h).tick
    decreases |callbacks|
  {
    if |callbacks| != 0 {
      AskedAsks(m, h, callbacks[0]);
      AskedAllAsks(m, Asked(h, callbacks[0]), callbacks[1..]);
    }
  }

  lemma EventAsks(m: Clock, h: Trace<Action>, start: int, rate: int, e: Event)
    requires 0 < rate && start <= e.now && Run(m, h).tick <= TickAt(start, rate, e.now)
    ensures var k, h' := TickAt(start, rate, e.now), Extended(h, Run(m, h).tick, start, rate, e);
      && Asks(m, h') == Asks(m, h) +
           (match e { case Request(_, call) => [(k, call)] case Fire(_, callbacks) => AllAtTick(k, callbacks) })
      && Firings(h') == Firings(h) + (if e.Fire? then 1 else 0) && Run(m, h').tick == k
  {
    var ticked := Ticked(h, TickAt(start, rate, e.now) - Run(m, h).tick);
    TickedAsks(m, h, TickAt(start, rate, e.now) - Run(m, h).tick);
    if e.Fire? {
      assert Asks(m, Then(ticked, Due)) == Asks(m, ticked);
      AskedAllAsks(m, Then(ticked, Due), e.callbacks);
    }
  }

  /** The reference clock is driven by the whole script and by nothing else: its run makes the script's calls, in order,
      each at the tick of its time, delivers as often as messages fire, and ends at the tick of the last event. */
  lemma {:induction false} HistoryIsScript(m: Clock, start: int, rate: int, script: Trace<Event>)
    requires 0 < rate && Feasible(m, start, rate, script)
    ensures var h := History(m, start, rate, script);
      && Asks(m, h) == CallsOf(start, rate, script) && Firings(h) == FiringsOf(script)
      && (script.Then? ==> start <= script.last.now && Run(m, h).tick == TickAt(start, rate, script.last.now))
  {
    match script
    case Start =>
    case Then(before, e) =>
      HistoryIsScript(m, start, rate, before);
      var h := History(m, start, rate, before);
      PendingAhead(Run(m, h), start, rate, e.now);
      EventAsks(m, h, start, rate, e);
  }

  lemma {:induction false} FindEntry(es: seq<Entry>, base: nat, t: nat) returns (i: nat)
    requires t in Absolute(es, base)
    ensures i < |es| && base + es[i].ticks == t
  {
    if base + es[0].ticks == t {
      i := 0;
    } else {
      i := FindEntry(es[1..], base, t);
      i := i + 1;
    }
  }

  /** Time stamps of the list in absolute ticks. */
  lemma StampOf(es: seq<Entry>, m: Clock, start: int, rate: int, j: nat)
    requires j < |es| && Timed(es, start + rate * m.tick, rate)
    ensures es[j].timestamp == start + rate * (m.tick + es[j].ticks)
  {}

  lemma StampsAhead(es: seq<Entry>, m: Clock, start: int, rate: int, now: int)
    requires Consistent(es, m, start + rate * m.tick, rate) && Current(m, start, rate, now)
    ensures forall j :: 0 <= j < |es| ==> now <= es[j].timestamp
  {
    forall j | 0 <= j < |es|
      ensures now <= es[j].timestamp
    {
      AbsoluteHasEntry(es, m.tick, j);
      StampOf(es, m, start, rate, j);
    }
  }

  /** What is due on the reference clock is what the kernel fires: the front entry's message. */
  lemma DueFires(es: seq<Entry>, m: Clock, start: int, rate: int, now: int, k: nat)
    requires 0 < rate && Consistent(es, m, start + rate * m.tick, rate) && Current(m, start, rate, now)
    requires now == start + rate * k && k in m.pending
    ensures |es| != 0 && es[0].timestamp == now && forall j :: 0 <= j < |es| ==> now <= es[j].timestamp
  {
    StampsAhead(es, m, start, rate, now);
    var i := FindEntry(es, m.tick, k);
    StampOf(es, m, start, rate, i);
    StampOf(es, m, start, rate, 0);
    MulMonotone(rate, m.tick + es[i].ticks, m.tick + es[0].ticks);
  }

  /** A notification log with global time stamps in place of tick numbers. */
  function AtTimes(log: seq<(nat, Listener)>, start: int, rate: int): seq<(int, Listener)> {
    if log == [] then [] else [(start + rate * log[0].0, log[0].1)] + AtTimes(log[1..], start, rate)
  }

  function TimeStamped(time: int, ls: seq<Listener>): seq<(int, Listener)> {
    if ls == [] then [] else [(time, ls[0])] + TimeStamped(time, ls[1..])
  }

  lemma {:induction false} AtTimesConcat(a: seq<(nat, Listener)>, b: seq<(nat, Listener)>, start: int, rate: int)
    ensures AtTimes(a + b, start, rate) == AtTimes(a, start, rate) + AtTimes(b, start, rate)
  {
    if a == [] {
      assert a + b == b;
    } else {
      assert (a + b)[1..] == a[1..] + b;
      AtTimesConcat(a[1..], b, start, rate);
    }
  }

  lemma {:induction false} AtTimesStamp(t: nat, ls: seq<Listener>, start: int, rate: int)
    ensures AtTimes(Stamp(t, ls), start, rate) == TimeStamped(start + rate * t, ls)
  {
    if ls != [] {
      AtTimesStamp(t, ls[1..], start, rate);
      assert Stamp(t, ls)[1..] == Stamp(t, ls[1..]);
    }
  }

  /** The lazy clock may be behind the reference clock, but only by ticks without subscribers. */
  ghost predicate Lags(lazy: Clock, eager: Clock) {
    lazy.pending == eager.pending && lazy.tick <= eager.tick
  }

  lemma CatchesUp(lazy: Clock, eager: Clock, start: int, rate: int, now: int)
    requires 0 < rate && Lags(lazy, eager) && Current(eager, start, rate, now)
    ensures Current(lazy, start, rate, now) && start <= now && eager.tick <= TickAt(start, rate, now)
    ensures forall t :: t in eager.pending ==> TickAt(start, rate, now) <= t
  {
    MulMonotone(rate, eager.tick, lazy.tick);
    PendingAhead(eager, start, rate, now);
  }

  /** Withdrawing subscriptions does not need the present time; subscribing does. */
  lemma CallKeepsLag(lazy: Clock, eager: Clock, call: Call)
    requires Lags(lazy, eager) && (call.Subscribe? ==> lazy == eager)
    ensures Lags(DoCall(lazy, call), DoCall(eager, call))
  {}

  lemma CallLog(m0: Clock, u: Trace<Action>, call: Call)
    requires Legal(m0, u)
    ensures Legal(m0, Then(u, Do(call))) && Run(m0, Then(u, Do(call))) == DoCall(Run(m0, u), call)
    ensures Log(m0, Then(u, Do(call))) == Log(m0, u)
  {}

  /** Serves a call from outside a tick: nobody is notified. */
  method ServeRequest(clock: ClockBase, now: int, call: Call, ghost m0: Clock, ghost h: Trace<Action>)
    requires clock.Valid() && !clock.tick && Legal(m0, h) && Lags(clock.model, Run(m0, h))
    requires Possible(Run(m0, h), clock.start, clock.clockRate, Request(now, call))
    modifies clock
    ensures clock.Valid() && !clock.tick
    ensures var h' := Extended(h, Run(m0, h).tick, clock.start, clock.clockRate, Request(now, call));
      Legal(m0, h') && Lags(clock.model, Run(m0, h')) && Log(m0, h') == Log(m0, h)
  {
    ghost var eager, k := Run(m0, h), TickAt(clock.start, clock.clockRate, now);
    CatchesUp(clock.model, eager, clock.start, clock.clockRate, now);
    TickedRuns(m0, h, k - eager.tick);
    CallLog(m0, Ticked(h, k - eager.tick), call);
    ghost var lazy := if call.Unsubscribe? then clock.model else clock.model.(tick := k);
    CallKeepsLag(lazy, eager.(tick := k), call);
    match call {
      case GetTime => var _ := clock.GetTime(now);
      case Subscribe(l, n) => clock.SubscribeTick(l, n, now);
      case Unsubscribe(l) => clock.UnsubscribeTicks(l);
    }
    assert clock.model == DoCall(lazy, call);
  }

  /** Serves a self-message: everybody the reference clock notifies is notified, at its time. */
  method ServeFiring(clock: ClockBase, now: int, callbacks: seq<seq<Call>>, ghost m0: Clock, ghost h: Trace<Action>)
    returns (log: seq<(int, Listener)>)
    requires clock.Valid() && !clock.tick && Legal(m0, h) && Lags(clock.model, Run(m0, h))
    requires Possible(Run(m0, h), clock.start, clock.clockRate, Fire(now, callbacks))
    modifies clock
    ensures clock.Valid() && !clock.tick
    ensures var h' := Extended(h, Run(m0, h).tick, clock.start, clock.clockRate, Fire(now, callbacks));
      && Legal(m0, h') && Lags(clock.model, Run(m0, h'))
      && AtTimes(Log(m0, h'), clock.start, clock.clockRate) == AtTimes(Log(m0, h), clock.start, clock.clockRate) + log
  {
    ghost var start, rate := clock.start, clock.clockRate;
    ghost var k := TickAt(start, rate, now);
    CatchesUp(clock.model, Run(m0, h), start, rate, now);
    DueFires(clock.scheduledTicks, clock.model, start, rate, now, k);
    ghost var due := clock.model.(tick := k);
    var notified := clock.HandleMessage(clock.scheduledTicks[0].message, now, callbacks);
    log := TimeStamped(now, notified);
    FiringExtends(m0, h, due, start, rate, now, callbacks);
  }

  lemma FiringExtends(m0: Clock, h: Trace<Action>, due: Clock, start: int, rate: int, now: int,
    callbacks: seq<seq<Call>>)
    requires 0 < rate && Legal(m0, h) && Possible(Run(m0, h), start, rate, Fire(now, callbacks))
    requires due == Run(m0, h).(tick := TickAt(start, rate, now)) && Enabled(due, Due)
    ensures var h' := Extended(h, Run(m0, h).tick, start, rate, Fire(now, callbacks));
      && Legal(m0, h') && Run(m0, h') == React(Apply(due, Due), callbacks)
      && AtTimes(Log(m0, h'), start, rate) ==
        AtTimes(Log(m0, h), start, rate) + TimeStamped(now, PendingAt(due, due.tick))
  {
    PendingAhead(Run(m0, h), start, rate, now);
    FiringLog(m0, h, due, due.tick, callbacks, start, rate);
  }

  lemma FiringLog(m0: Clock, h: Trace<Action>, due: Clock, k: nat, callbacks: seq<seq<Call>>, start: int, rate: int)
    requires Legal(m0, h) && Run(m0, h).tick <= k && due == Run(m0, h).(tick := k) && Enabled(due, Due)
    requires forall t :: t in due.pending ==> k <= t
    ensures var h' := AskedAll(Then(Ticked(h, k - Run(m0, h).tick), Due), callbacks);
      && Legal(m0, h') && Run(m0, h') == React(Apply(due, Due), callbacks)
      && AtTimes(Log(m0, h'), start, rate)
         == AtTimes(Log(m0, h), start, rate) + TimeStamped(start + rate * k, PendingAt(due, k))
  {
    TickedRuns(m0, h, k - Run(m0, h).tick);
    AskedAllRuns(m0, Then(Ticked(h, k - Run(m0, h).tick), Due), callbacks);
    AtTimesConcat(Log(m0, h), Stamp(k, PendingAt(due, k)), start, rate);
    AtTimesStamp(k, PendingAt(due, k), start, rate);
  }

  /** Any script that the kernel can produce drives the lazy clock and the reference clock to the
      same notifications, at the same times and in the same order. */
  method Simulate(clock: ClockBase, script: Trace<Event>) returns (log: seq<(int, Listener)>)
    requires clock.Valid() && !clock.tick && Feasible(clock.model, clock.start, clock.clockRate, script)
    modifies clock
    ensures clock.Valid() && !clock.tick
    ensures var h := History(old(clock.model), clock.start, clock.clockRate, script);
      && Legal(old(clock.model), h)
      && Lags(clock.model, Run(old(clock.model), h))
      && log == AtTimes(Log(old(clock.model), h), clock.start, clock.clockRate)
    decreases script
  {
    match script
    case Start => log := [];
    case Then(before, e) =>
      ghost var m0 := clock.model;
      log := Simulate(clock, before);
      ghost var h := History(m0, clock.start, clock.clockRate, before);
      match e {
        case Request(now, call) => ServeRequest(clock, now, call, m0, h);
        case Fire(now, callbacks) =>
          var more := ServeFiring(clock, now, callbacks, m0, h);
          log := log + more;
      }
  }
}
