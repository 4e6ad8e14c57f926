/** The host's traffic schedule as a value: VlanEtherTrafGenSched subscribes tick by tick to distances
    between entries, and the sends are to follow the absolute start times of the schedule. */
module HostTraffic {
  import opened Traces

  /** Starts and the cycle are C++ ints; the getters of the schedule return them as unsigned. */
  datatype Entry = Entry(start: int, size: nat, header: nat)

  datatype Schedule = Schedule(entries: seq<Entry>, cycle: int)

  /** `index` entries of the present cycle are sent; `count` packets have been sent in all. */
  datatype Traffic = Traffic(current: Schedule, next: Option<Schedule>, index: nat, count: nat)

  /** What was sent, and at which clock tick. */
  datatype Packet = Packet(tick: int, number: nat, entry: Entry)

  const WORD := 0x1_0000_0000

  function Unsigned(x: int): nat {
    x % WORD
  }

  ghost predicate Valid(s: Traffic) {
    s.index <= |s.current.entries|
  }

  function StartOf(sch: Schedule, i: nat): nat
    requires i < |sch.entries|
  {
    Unsigned(sch.entries[i].start)
  }

  /** scheduleNextTickEvent: the clock takes the difference of unsigned numbers as an unsigned one. */
  function Distance(s: Traffic): nat
    requires Valid(s)
  {
    var n := |s.current.entries|;
    if n == 0 then Unsigned(s.current.cycle)
    else if s.index == n then Unsigned(Unsigned(s.current.cycle) - StartOf(s.current, s.index - 1))
    else if s.index == 0 then StartOf(s.current, s.index)
    else Unsigned(StartOf(s.current, s.index) - StartOf(s.current, s.index - 1))
  }

  /** The tick sends an entry, or, all being sent, starts a cycle with the next schedule if there is one. */
  function Ticked(s: Traffic): Traffic
    requires Valid(s)
  {
    if s.index == |s.current.entries| then
      s.(current := if s.next.Some? then s.next.value else s.current, next := None, index := 0)
    else s.(index := s.index + 1, count := s.count + 1)
  }

  // ----- the plan ---------------------------------------------------------------------------

  /** When the next tick is due in the plan, counted from the start of the cycle: the next entry's start,
      or the end of the cycle. */
  function Planned(sch: Schedule, index: nat): nat
    requires index <= |sch.entries|
  {
    if index == |sch.entries| then Unsigned(sch.cycle) else StartOf(sch, index)
  }

  /** Starts in order, and none after the end of the cycle. */
  ghost predicate Ordered(sch: Schedule) {
    forall i :: 0 < i <= |sch.entries| ==> StartOf(sch, i - 1) <= Planned(sch, i)
  }

  /** How often the plan steps back up to its `index`-th tick. */
  function StepsBack(sch: Schedule, index: nat): nat
    requires index <= |sch.entries|
  {
    if index == 0 then 0
    else StepsBack(sch, index - 1) + if Planned(sch, index) < StartOf(sch, index - 1) then 1 else 0
  }

  lemma {:induction false} OrderedNeverStepsBack(sch: Schedule, index: nat)
    requires index <= |sch.entries| && Ordered(sch)
    ensures StepsBack(sch, index) == 0
  {
    if index != 0 {
      OrderedNeverStepsBack(sch, index - 1);
    }
  }

  lemma {:induction false} StepsBackRise(sch: Schedule, i: nat, index: nat)
    requires i <= index <= |sch.entries|
    ensures StepsBack(sch, i) <= StepsBack(sch, index)
  {
    if i < index {
      StepsBackRise(sch, i, index - 1);
    }
  }

  /** A schedule keeps to its plan exactly if it is in order. */
  lemma OrderedIff(sch: Schedule)
    ensures Ordered(sch) <==> StepsBack(sch, |sch.entries|) == 0
  {
    if Ordered(sch) {
      OrderedNeverStepsBack(sch, |sch.entries|);
    } else {
      var i :| 0 < i <= |sch.entries| && Planned(sch, i) < StartOf(sch, i - 1);
      StepsBackRise(sch, i, |sch.entries|);
    }
  }

  /** The distance is the plan's step, once around the word if that goes back. */
  lemma DistanceFollowsPlan(s: Traffic)
    requires Valid(s)
    ensures Distance(s) ==
      if s.index == 0 then Planned(s.current, 0)
      else Planned(s.current, s.index) - StartOf(s.current, s.index - 1)
           + if Planned(s.current, s.index) < StartOf(s.current, s.index - 1) then WORD else 0
  {}

  /** So from the last start it leads to the planned time, in the arithmetic of the word. */
  lemma DistanceLeadsOn(s: Traffic)
    requires Valid(s) && 0 < s.index
    ensures (StartOf(s.current, s.index - 1) + Distance(s)) % WORD == Planned(s.current, s.index)
  {
    DistanceFollowsPlan(s);
  }

  // ----- runs -------------------------------------------------------------------------------

  datatype Action = Tick | Load(schedule: Schedule)

  ghost function After(first: Schedule, run: Trace<Action>): (s: Traffic)
    ensures Valid(s)
  {
    match run
    case Start => Traffic(first, None, 0, 0)
    case Then(before, Tick) => Ticked(After(first, before))
    case Then(before, Load(schedule)) => After(first, before).(next := Some(schedule))
  }

  /** The clock tick at which the next tick is delivered, the first subscription being made at `zero`. */
  ghost function Due(first: Schedule, zero: int, run: Trace<Action>): int {
    match run
    case Start => zero + Distance(After(first, Start))
    case Then(before, Tick) => Due(first, zero, before) + Distance(After(first, run))
    case Then(before, Load(_)) => Due(first, zero, before)
  }

  ghost predicate EndsCycle(s: Traffic) {
    s.index == |s.current.entries|
  }

  /** The clock tick at which the present cycle began. */
  ghost function Began(first: Schedule, zero: int, run: Trace<Action>): int {
    match run
    case Start => zero
    case Then(before, Tick) =>
      if EndsCycle(After(first, before)) then Due(first, zero, before) else Began(first, zero, before)
    case Then(before, Load(_)) => Began(first, zero, before)
  }

  /** All that was sent: the tick for an unsent entry sends it at the time it is delivered. */
  ghost function Log(first: Schedule, zero: int, run: Trace<Action>): seq<Packet> {
    match run
    case Start => []
    case Then(before, Tick) =>
      var s := After(first, before);
      Log(first, zero, before) +
      if EndsCycle(s) then [] else [Packet(Due(first, zero, before), s.count, s.current.entries[s.index])]
    case Then(before, Load(_)) => Log(first, zero, before)
  }

  /** The first `index` sends of a schedule played from `began`, each step back in its plan having cost
      2^32 ticks. */
  ghost function Played(sch: Schedule, began: int, number: nat, index: nat): seq<Packet>
    requires index <= |sch.entries|
  {
    if index == 0 then []
    else
      Played(sch, began, number, index - 1) +
      [Packet(began + StartOf(sch, index - 1) + WORD * StepsBack(sch, index - 1), number + index - 1,
        sch.entries[index - 1])]
  }

  /** The packets sent before the present cycle. */
  ghost function Earlier(first: Schedule, run: Trace<Action>): nat {
    match run
    case Start => 0
    case Then(before, Tick) =>
      if EndsCycle(After(first, before)) then After(first, before).count else Earlier(first, before)
    case Then(before, Load(_)) => Earlier(first, before)
  }

  /** All finished cycles, each schedule played in full from the beginning of its cycle. */
  ghost function Past(first: Schedule, zero: int, run: Trace<Action>): seq<Packet> {
    match run
    case Start => []
    case Then(before, Tick) =>
      var s := After(first, before);
      Past(first, zero, before) +
      if EndsCycle(s) then Played(s.current, Began(first, zero, before), Earlier(first, before), s.index) else []
    case Then(before, Load(_)) => Past(first, zero, before)
  }

  /** The chain of distances gives the absolute times of the plan, late by 2^32 ticks for each step
      back in the present cycle. */
  lemma {:induction false} DistancesAddUp(first: Schedule, zero: int, run: Trace<Action>)
    ensures var s := After(first, run);
      Due(first, zero, run) ==
      Began(first, zero, run) + Planned(s.current, s.index) + WORD * StepsBack(s.current, s.index)
  {
    DistanceFollowsPlan(After(first, run));
    match run
    case Start =>
    case Then(before, a) => DistancesAddUp(first, zero, before);
  }

  lemma {:induction false} CountSinceCycle(first: Schedule, run: Trace<Action>)
    ensures After(first, run).count == Earlier(first, run) + After(first, run).index
  {
    match run
    case Start =>
    case Then(before, a) => CountSinceCycle(first, before);
  }

  /** Everything sent, in any run: the finished cycles in full and in order, then the part of the
      present one that is due. */
  lemma {:induction false} LogIsPlan(first: Schedule, zero: int, run: Trace<Action>)
    ensures var s := After(first, run);
      Log(first, zero, run) ==
      Past(first, zero, run) + Played(s.current, Began(first, zero, run), Earlier(first, run), s.index)
  {
    match run
    case Start =>
    case Then(before, a) =>
      var s := After(first, before);
      LogIsPlan(first, zero, before);
      DistancesAddUp(first, zero, before);
      CountSinceCycle(first, before);
      if a.Tick? && !EndsCycle(s) {
        PlayedOneMore(s.current, Began(first, zero, before), Earlier(first, before), s.index);
      }
  }

  lemma PlayedOneMore(sch: Schedule, began: int, number: nat, index: nat)
    requires index < |sch.entries|
    ensures Played(sch, began, number, index + 1) == Played(sch, began, number, index) +
      [Packet(began + StartOf(sch, index) + WORD * StepsBack(sch, index), number + index, sch.entries[index])]
  {}

  /** In an ordered schedule entry i goes out at its start in the cycle, numbered in order. */
  lemma {:induction false} OrderedPlaysOnTime(sch: Schedule, began: int, number: nat, index: nat, i: nat)
    requires Ordered(sch) && i < index <= |sch.entries|
    ensures |Played(sch, began, number, index)| == index
    ensures Played(sch, began, number, index)[i] == Packet(began + StartOf(sch, i), number + i, sch.entries[i])
  {
    OrderedNeverStepsBack(sch, index - 1);
    PlayedHas(sch, began, number, index - 1);
    if i < index - 1 {
      OrderedPlaysOnTime(sch, began, number, index - 1, i);
    }
  }

  lemma {:induction false} PlayedHas(sch: Schedule, began: int, number: nat, index: nat)
    requires index <= |sch.entries|
    ensures |Played(sch, began, number, index)| == index
  {
    if index != 0 {
      PlayedHas(sch, began, number, index - 1);
    }
  }

  /** The next cycle begins one cycle length after this one, whatever is loaded meanwhile, exactly if
      the schedule played is ordered; an empty schedule is. */
  lemma CycleLengthIff(first: Schedule, zero: int, before: Trace<Action>)
    requires EndsCycle(After(first, before))
    ensures var sch := After(first, before).current;
      Began(first, zero, Then(before, Tick)) == Began(first, zero, before) + Unsigned(sch.cycle) <==> Ordered(sch)
  {
    DistancesAddUp(first, zero, before);
    OrderedIff(After(first, before).current);
  }

  /** The schedule in force changes only where a cycle ends; the new one starts at its entry 0, is the
      one loaded last, and nothing is sent. */
  lemma SwapsOnlyBetweenCycles(first: Schedule, zero: int, before: Trace<Action>, a: Action)
    ensures var s, t := After(first, before), After(first, Then(before, a));
      && (t.current != s.current ==> a.Tick? && EndsCycle(s) && s.next == Some(t.current))
      && (a.Tick? && EndsCycle(s) ==> t.index == 0 && t.next.None? && (s.next.Some? ==> t.current == s.next.value)
                                      && Log(first, zero, Then(before, a)) == Log(first, zero, before))
  {}

  /** The schedule of the last load in a run, from its actions alone. */
  function LastLoaded(first: Schedule, run: Trace<Action>): Schedule {
    match run
    case Start => first
    case Then(before, Tick) => LastLoaded(first, before)
    case Then(before, Load(schedule)) => schedule
  }

  /** What was loaded last waits, or is in force if nothing waits. */
  lemma {:induction false} LastLoadedIsNext(first: Schedule, run: Trace<Action>)
    ensures var s := After(first, run);
      LastLoaded(first, run) == if s.next.Some? then s.next.value else s.current
  {
    match run
    case Start =>
    case Then(before, a) => LastLoadedIsNext(first, before);
  }

  /** Every load is played: over every run, the cycle that begins where another one ends plays the schedule loaded last,
      or the one played if there was no load; within a cycle the schedule stays, and what is loaded waits. */
  lemma LoadsArePlayed(first: Schedule, before: Trace<Action>, a: Action)
    ensures var s, t := After(first, before), After(first, Then(before, a));
      && (a.Tick? && EndsCycle(s) ==> t.current == LastLoaded(first, before) && t.index == 0)
      && (!(a.Tick? && EndsCycle(s)) ==> t.current == s.current)
      && (a.Load? ==> t.next == Some(a.schedule) && t.index == s.index && t.count == s.count)
  {
    LastLoadedIsNext(first, before);
  }

  ghost predicate AllOrdered(first: Schedule, run: Trace<Action>) {
    match run
    case Start => Ordered(first)
    case Then(before, Tick) => AllOrdered(first, before)
    case Then(before, Load(schedule)) => AllOrdered(first, before) && Ordered(schedule)
  }

  /** The start of the run and the lengths of all finished cycles. */
  ghost function SumOfCycles(first: Schedule, zero: int, run: Trace<Action>): int {
    match run
    case Start => zero
    case Then(before, Tick) =>
      var s := After(first, before);
      SumOfCycles(first, zero, before) + if EndsCycle(s) then Unsigned(s.current.cycle) else 0
    case Then(before, Load(_)) => SumOfCycles(first, zero, before)
  }

  lemma {:induction false} LoadedIsOrdered(first: Schedule, run: Trace<Action>)
    requires AllOrdered(first, run)
    ensures var s := After(first, run); Ordered(s.current) && (s.next.Some? ==> Ordered(s.next.value))
  {
    match run
    case Start =>
    case Then(before, a) => LoadedIsOrdered(first, before);
  }

  /** Over any run of ordered schedules the times never drift: each cycle begins where the lengths of the
      earlier ones add up to, and the next tick is due at the plan's time in it. */
  lemma {:induction false} NeverDrifts(first: Schedule, zero: int, run: Trace<Action>)
    requires AllOrdered(first, run)
    ensures var s := After(first, run);
      && Began(first, zero, run) == SumOfCycles(first, zero, run)
      && Due(first, zero, run) == SumOfCycles(first, zero, run) + Planned(s.current, s.index)
  {
    DistancesAddUp(first, zero, run);
    LoadedIsOrdered(first, run);
    OrderedNeverStepsBack(After(first, run).current, After(first, run).index);
    match run
    case Start =>
    case Then(before, a) => NeverDrifts(first, zero, before);
  }
}
