/** Gate schedules and the walk of the gate controller through them, as values.  What the gates will
    show in the future is defined by iterating the controller's own tick. */
module GateSchedules {
  import opened Traces

  /** `length` is in clock ticks; `open` holds the indices of the gates whose bit is set. */
  datatype Entry = Entry(length: nat, open: set<nat>)

  type Schedule = seq<Entry>

  /** `index` is the entry that the next tick will show; `next` replaces `current` at the cycle end. */
  datatype Control = Control(current: Schedule, next: Option<Schedule>, index: nat)

  ghost predicate Running(c: Control) {
    c.index < |c.current| && (c.next.Some? ==> c.next.value != [])
  }

  function Swapped(c: Control): Control {
    if c.index == 0 && c.next.Some? then Control(c.next.value, None, 0) else c
  }

  function Advanced(c: Control): Control {
    c.(index := if c.index + 1 == |c.current| then 0 else c.index + 1)
  }

  function Tick(c: Control): Control {
    Advanced(Swapped(c))
  }

  /** The entry whose gate states are in force since the last tick. */
  function Shown(c: Control): nat
    requires c.index < |c.current|
  {
    if c.index == 0 then |c.current| - 1 else c.index - 1
  }

  function ShownEntry(c: Control): Entry
    requires c.index < |c.current|
  {
    c.current[Shown(c)]
  }

  lemma TickKeepsRunning(c: Control)
    requires Running(c)
    ensures Running(Tick(c)) && Tick(c).current == Swapped(c).current && Tick(c).next == Swapped(c).next
    ensures Shown(Tick(c)) == Swapped(c).index
  {}

  // ----- the future -------------------------------------------------------------------------

  /** The state after k more ticks. */
  ghost function After(c: Control, k: nat): (r: Control)
    requires Running(c)
    ensures Running(r)
  {
    if k == 0 then c else Tick(After(c, k - 1))
  }

  ghost predicate OpenAfter(c: Control, g: nat, k: nat)
    requires Running(c)
  {
    g in ShownEntry(After(c, k)).open
  }

  /** The k-th tick from now is the first moment at which gate g is closed. */
  ghost predicate FirstClosed(c: Control, g: nat, k: nat)
    requires Running(c)
  {
    !OpenAfter(c, g, k) && forall i: nat :: i < k ==> OpenAfter(c, g, i)
  }

  /** Clock ticks from the last tick of the controller to its k-th tick from now. */
  ghost function TimeTo(c: Control, k: nat): nat
    requires Running(c)
  {
    if k == 0 then 0 else TimeTo(c, k - 1) + ShownEntry(After(c, k - 1)).length
  }

  /** Clock ticks from the present moment, `since` after the last tick, to the k-th tick from now. */
  ghost function TimeUntil(c: Control, since: nat, k: nat): (t: nat)
    requires Running(c) && since <= ShownEntry(c).length
  {
    TimeToFirst(c);
    TimeToIncreases(c, 1, if k == 0 then 1 else k);
    if k == 0 then 0 else TimeTo(c, k) - since
  }

  lemma TimeToFirst(c: Control)
    requires Running(c)
    ensures TimeTo(c, 0) == 0 && TimeTo(c, 1) == ShownEntry(c).length
  {}

  lemma {:induction false} TimeToIncreases(c: Control, i: nat, k: nat)
    requires Running(c) && i <= k
    ensures TimeTo(c, i) <= TimeTo(c, k)
    decreases k - i
  {
    if i < k {
      TimeToIncreases(c, i, k - 1);
    }
  }

  lemma TimeUntilIncreases(c: Control, since: nat, i: nat, k: nat)
    requires Running(c) && since <= ShownEntry(c).length && i <= k
    ensures TimeUntil(c, since, i) <= TimeUntil(c, since, k)
  {
    TimeToIncreases(c, i, k);
  }

  lemma TimeUntilStep(c: Control, since: nat, k: nat)
    requires Running(c) && since <= ShownEntry(c).length
    ensures TimeUntil(c, since, k + 1)
         == TimeUntil(c, since, k) + ShownEntry(After(c, k)).length - if k == 0 then since else 0
  {
    TimeToFirst(c);
  }

  lemma {:induction false} AfterTick(c: Control, k: nat)
    requires Running(c)
    ensures Running(Tick(c)) && After(c, k + 1) == After(Tick(c), k)
    ensures TimeTo(c, k + 1) == ShownEntry(c).length + TimeTo(Tick(c), k)
  {
    if k == 0 {
      assert After(c, 0) == c;
      TimeToFirst(c);
    } else {
      AfterTick(c, k - 1);
    }
  }

  /** A gate that is not open forever has a first moment at which it is closed. */
  lemma {:induction false} FindFirstClosed(c: Control, g: nat, k: nat) returns (first: nat)
    requires Running(c) && !OpenAfter(c, g, k)
    ensures first <= k && FirstClosed(c, g, first)
  {
    if i: nat :| i < k && !OpenAfter(c, g, i) {
      first := FindFirstClosed(c, g, i);
    } else {
      first := k;
    }
  }

  // ----- the gate trace ---------------------------------------------------------------------

  function TotalLength(s: Schedule): nat {
    if s == [] then 0 else s[0].length + TotalLength(s[1..])
  }

  /** When entry i starts, counted from the start of the cycle. */
  function StartOf(s: Schedule, i: nat): nat
    requires i <= |s|
  {
    TotalLength(s[..i])
  }

  /** The entry that covers a moment of the cycle, found from the schedule alone. */
  function Covering(s: Schedule, offset: nat): (i: nat)
    requires offset < TotalLength(s)
    ensures i < |s|
  {
    if offset < s[0].length then 0 else 1 + Covering(s[1..], offset - s[0].length)
  }

  lemma {:induction false} TotalLengthConcat(a: Schedule, b: Schedule)
    ensures TotalLength(a + b) == TotalLength(a) + TotalLength(b)
  {
    if a == [] {
      assert a + b == b;
    } else {
      assert (a + b)[1..] == a[1..] + b;
      TotalLengthConcat(a[1..], b);
    }
  }

  lemma StartOfNext(s: Schedule, i: nat)
    requires i < |s|
    ensures StartOf(s, i + 1) == StartOf(s, i) + s[i].length <= TotalLength(s)
  {
    assert s[..i + 1] == s[..i] + [s[i]];
    TotalLengthConcat(s[..i], [s[i]]);
    assert s == s[..i + 1] + s[i + 1..];
    TotalLengthConcat(s[..i + 1], s[i + 1..]);
  }

  lemma {:induction false} CoveringIs(s: Schedule, i: nat, offset: nat)
    requires i < |s| && StartOf(s, i) <= offset < StartOf(s, i) + s[i].length
    ensures offset < TotalLength(s) && Covering(s, offset) == i
  {
    StartOfNext(s, i);
    if i != 0 {
      assert s[1..][..i - 1] == s[..i][1..];
      assert StartOf(s, i) == s[0].length + StartOf(s[1..], i - 1);
      CoveringIs(s[1..], i - 1, offset - s[0].length);
    }
  }

  /** A controller in time, in clock ticks: when its last tick was and when its cycle started. */
  datatype Walk = Walk(control: Control, lastChange: nat, cycleStart: nat)

  datatype WalkEvent = LoadSchedule(schedule: Schedule) | NextTick

  function NextChange(w: Walk): nat
    requires w.control.index < |w.control.current|
  {
    w.lastChange + ShownEntry(w.control).length
  }

  /** The tick comes when it was subscribed for: after the length of the entry now shown. */
  function Stepped(w: Walk, s: WalkEvent): Walk
    requires w.control.index < |w.control.current|
  {
    match s
    case LoadSchedule(schedule) => w.(control := w.control.(next := Some(schedule)))
    case NextTick =>
      Walk(Tick(w.control), NextChange(w), if Swapped(w.control).index == 0 then NextChange(w) else w.cycleStart)
  }

  ghost predicate OnSchedule(w: Walk) {
    && Running(w.control)
    && w.lastChange == w.cycleStart + StartOf(w.control.current, Shown(w.control))
  }

  ghost predicate ValidStep(s: WalkEvent) {
    s.LoadSchedule? ==> s.schedule != []
  }

  lemma StepKeepsSchedule(w: Walk, s: WalkEvent)
    requires OnSchedule(w) && ValidStep(s)
    ensures OnSchedule(Stepped(w, s))
  {
    if s.NextTick? {
      TickKeepsRunning(w.control);
      StartOfNext(w.control.current, Shown(w.control));
    }
  }

  ghost predicate Walkable(w: Walk, run: Trace<WalkEvent>) {
    match run
    case Start => true
    case Then(before, s) => Walkable(w, before) && ValidStep(s)
  }

  ghost function Walked(w: Walk, run: Trace<WalkEvent>): (r: Walk)
    requires OnSchedule(w) && Walkable(w, run)
    ensures OnSchedule(r)
  {
    match run
    case Start => w
    case Then(before, s) =>
      StepKeepsSchedule(Walked(w, before), s);
      Stepped(Walked(w, before), s)
  }

  /** Over every run, from each tick until the next, the gates show the entry of the schedule in
      force that covers the time since the cycle started. */
  lemma GatesFollowSchedule(w: Walk, run: Trace<WalkEvent>, time: nat)
    requires OnSchedule(w) && Walkable(w, run)
    requires var r := Walked(w, run); r.lastChange <= time < NextChange(r)
    ensures var r := Walked(w, run);
      && r.cycleStart <= time && time - r.cycleStart < TotalLength(r.control.current)
      && ShownEntry(r.control) == r.control.current[Covering(r.control.current, time - r.cycleStart)]
  {
    var r := Walked(w, run);
    CoveringIs(r.control.current, Shown(r.control), time - r.cycleStart);
  }

  /** A new schedule takes effect at the end of a complete cycle and nowhere else, from its first
      entry on; loading one changes nothing that is shown. */
  lemma SwapOnlyAtCycleEnd(w: Walk, s: WalkEvent)
    requires OnSchedule(w) && ValidStep(s)
    ensures var r := Stepped(w, s); var last := Shown(w.control) == |w.control.current| - 1;
      if s.LoadSchedule? then
        r.control.current == w.control.current && Shown(r.control) == Shown(w.control) &&
          r.lastChange == w.lastChange && r.cycleStart == w.cycleStart && r.control.next == Some(s.schedule)
      else if last then
        && r.cycleStart == r.lastChange == w.cycleStart + TotalLength(w.control.current)
        && r.control.current == (if w.control.next.Some? then w.control.next.value else w.control.current)
        && r.control.next.None? && Shown(r.control) == 0
      else
        && r.cycleStart == w.cycleStart && r.control.current == w.control.current
        && r.control.next == w.control.next && Shown(r.control) == Shown(w.control) + 1
  {
    StartOfNext(w.control.current, Shown(w.control));
    assert w.control.current[..|w.control.current|] == w.control.current;
  }

  /** The schedule of the last load in a run, from its events alone. */
  function LastLoaded(c: Control, run: Trace<WalkEvent>): Schedule {
    match run
    case Start => if c.next.Some? then c.next.value else c.current
    case Then(before, NextTick) => LastLoaded(c, before)
    case Then(before, LoadSchedule(schedule)) => schedule
  }

  lemma {:induction false} LastLoadedIsNext(w: Walk, run: Trace<WalkEvent>)
    requires OnSchedule(w) && Walkable(w, run)
    ensures var c := Walked(w, run).control;
      LastLoaded(w.control, run) == if c.next.Some? then c.next.value else c.current
  {
    match run
    case Start =>
    case Then(before, s) =>
      LastLoadedIsNext(w, before);
      SwapOnlyAtCycleEnd(Walked(w, before), s);
  }

  /** Every load takes effect: over every run, the cycle that begins where another one ends is of the schedule loaded
      last, or of the same one if there was no load. */
  lemma LoadsTakeEffect(w: Walk, run: Trace<WalkEvent>)
    requires OnSchedule(w) && Walkable(w, run)
    requires Shown(Walked(w, run).control) == |Walked(w, run).control.current| - 1
    ensures Walkable(w, Then(run, NextTick))
    ensures var r := Walked(w, Then(run, NextTick));
      r.control.current == LastLoaded(w.control, run) && Shown(r.control) == 0
  {
    LastLoadedIsNext(w, run);
    SwapOnlyAtCycleEnd(Walked(w, run), NextTick);
  }
}
