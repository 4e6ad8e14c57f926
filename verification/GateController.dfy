/** The gate controller: walks through the current schedule on clock ticks, replaces it at the end
    of a cycle, and looks ahead to tell how many bits still fit through a gate. */
module GateControllers {
  import opened Traces
  import opened GateSchedules
  import opened Lookahead
  import opened LookaheadEnds

  /** One second in units of the simulation time. */
  const SECOND: real := 1000000000000.0

  /** The width of a gate bit vector. */
  const MAX_SUPPORTED_QUEUES := 8

  /** A schedule as the builders fill it, entry by entry. */
  class ScheduleBuilder {
    var entries: Schedule
    var totalLength: nat

    ghost predicate Valid()
      reads this
    {
      totalLength == TotalLength(entries)
    }

    constructor ()
      ensures Valid() && entries == []
    {
      entries, totalLength := [], 0;
    }

    method AddEntry(length: nat, open: set<nat>)
      requires Valid()
      modifies this
      ensures Valid() && entries == old(entries) + [Entry(length, open)]
      ensures totalLength == old(totalLength) + length
    {
      TotalLengthConcat(entries, [Entry(length, open)]);
      totalLength := totalLength + length;
      entries := entries + [Entry(length, open)];
    }
  }

  lemma PredModulo(i: nat, n: nat)
    requires i < n
    ensures (i + n - 1) % n == if i == 0 then n - 1 else i - 1
  {}

  lemma SuccModulo(i: nat, n: nat)
    requires i < n
    ensures (i + 1) % n == if i + 1 == n then 0 else i + 1
  {}

  class GateController {
    const clockRate: real
    const transmitRate: real
    const gateOpen: array<bool>
    var currentSchedule: Schedule
    var nextSchedule: Option<Schedule>
    var scheduleIndex: nat
    /** Local time of the last tick; the local time is always a whole number of clock ticks. */
    var lastChange: nat

    ghost function View(): Control
      reads this
    {
      Control(currentSchedule, nextSchedule, scheduleIndex)
    }

    /** Gate g lets packets through. */
    ghost predicate GatesShow(open: set<nat>)
      reads gateOpen
    {
      forall g :: 0 <= g < gateOpen.Length ==> (gateOpen[g] <==> g in open)
    }

    /** Bits that the link carries in one clock tick. */
    function PerTick(): real
      requires 0.0 < transmitRate
    {
      clockRate / (SECOND / transmitRate)
    }

    constructor (gates: nat, rate: real, txRate: real, initial: Schedule)
      requires 0.0 < rate && gates <= MAX_SUPPORTED_QUEUES
      ensures clockRate == rate && transmitRate == txRate && gateOpen.Length == gates && fresh(gateOpen)
      ensures currentSchedule == [] && nextSchedule == Some(initial) && scheduleIndex == 0 && lastChange == 0
      ensures forall g :: 0 <= g < gates ==> gateOpen[g]
    {
      clockRate, transmitRate := rate, txRate;
      gateOpen := new bool[gates](_ => true);
      currentSchedule, nextSchedule, scheduleIndex, lastChange := [], Some(initial), 0, 0;
    }

    method SetGateStates(open: set<nat>)
      modifies gateOpen
      ensures GatesShow(open)
    {
      var g := 0;
      while g < gateOpen.Length
        invariant 0 <= g <= gateOpen.Length
        invariant forall h :: 0 <= h < g ==> (gateOpen[h] <==> h in open)
      {
        gateOpen[g] := g in open;
        g := g + 1;
      }
    }

    method OpenAllGates()
      requires gateOpen.Length <= MAX_SUPPORTED_QUEUES
      modifies gateOpen
      ensures forall g :: 0 <= g < gateOpen.Length ==> gateOpen[g]
    {
      SetGateStates({0, 1, 2, 3, 4, 5, 6, 7});
    }

    /** Loads a schedule, to be used from the end of the present cycle on. */
    method LoadSchedule(schedule: Schedule)
      modifies this`nextSchedule
      ensures nextSchedule == Some(schedule)
    {
      nextSchedule := Some(schedule);
    }

    /** Returns the number of clock ticks after which the controller wants its next tick, or None
        if it has loaded an empty schedule: then all gates are open and it stops. */
    method Tick(now: nat) returns (subscription: Option<nat>)
      requires gateOpen.Length <= MAX_SUPPORTED_QUEUES
      requires (scheduleIndex == 0 && nextSchedule.Some?) || scheduleIndex < |currentSchedule|
      modifies this, gateOpen
      ensures if Swapped(old(View())).current == []
        then
          && subscription == None && currentSchedule == [] && nextSchedule == None
          && scheduleIndex == 0 && lastChange == old(lastChange)
          && forall g :: 0 <= g < gateOpen.Length ==> gateOpen[g]
        else
          && View() == GateSchedules.Tick(old(View())) && scheduleIndex < |currentSchedule|
          && GatesShow(ShownEntry(View()).open)
          && subscription == Some(ShownEntry(View()).length) && lastChange == now
    {
      if scheduleIndex == 0 && nextSchedule.Some? {
        currentSchedule := nextSchedule.value;
        nextSchedule := None;
        if currentSchedule == [] {
          OpenAllGates();
          return None;
        }
      }
      var entry := currentSchedule[scheduleIndex];
      SetGateStates(entry.open);
      subscription := Some(entry.length);
      lastChange := now;
      SuccModulo(scheduleIndex, |currentSchedule|);
      scheduleIndex := (scheduleIndex + 1) % |currentSchedule|;
    }

    /** The bits that fit into the rest of an entry, s ticks of which are over already. */
    method BitsOfRest(length: nat, timeSinceLastChange: real, ghost t: nat, ghost s: nat) returns (bits: real)
      requires 0.0 < clockRate && 0.0 < transmitRate && s <= length && timeSinceLastChange == s as real * clockRate
      ensures BitsIn(t, PerTick()) + bits == BitsIn(t + length - s, PerTick())
    {
      var bitTime := SECOND / transmitRate;
      bits := (length as real * clockRate - timeSinceLastChange) / bitTime;
      ghost var d := (length - s) as real;
      assert length as real * clockRate - s as real * clockRate == d * clockRate;
      assert (d * clockRate) / bitTime == d * PerTick();
      BitsInIs(t, PerTick());
      BitsInIs(t + length - s, PerTick());
      assert (t as real + d) * PerTick() == t as real * PerTick() + d * PerTick();
    }

    lemma RatesArePositive()
      requires 0.0 < clockRate && 0.0 < transmitRate
      ensures 0.0 < PerTick()
    {}

    /** One step of the lookahead to the following entry, in the current schedule or, once that is
        finished, in the pending one. */
    method NextEntry(touchedNextSchedule: bool, currentIndex: nat, open: set<nat>, ghost d: Control)
      returns (touched: bool, index: nat, open': set<nat>)
      requires Running(d) && (touchedNextSchedule ==> nextSchedule.Some?)
      requires Looking(d, touchedNextSchedule, currentIndex, open)
      ensures touched ==> nextSchedule.Some?
      ensures Running(GateSchedules.Tick(d)) && Looking(GateSchedules.Tick(d), touched, index, open')
    {
      NextLook(d);
      SuccModulo(currentIndex, |d.current|);
      touched := touchedNextSchedule;
      if nextSchedule.None? {
        index := (currentIndex + 1) % |currentSchedule|;
        open' := currentSchedule[index].open;
      } else if !touchedNextSchedule {
        if currentIndex < |currentSchedule| - 1 {
          index := (currentIndex + 1) % |currentSchedule|;
          open' := currentSchedule[index].open;
        } else {
          touched := true;
          index := 0;
          open' := nextSchedule.value[index].open;
        }
      } else {
        index := (currentIndex + 1) % |nextSchedule.value|;
        open' := nextSchedule.value[index].open;
      }
    }

    /** The number of bits that fit through a gate until the schedule, followed tick by tick and
        across the pending swap, first closes it. */
    method CalculateMaxBit(gateIndex: nat, now: nat) returns (maxBit: nat)
      requires 0.0 < clockRate && Running(View())
      requires lastChange <= now <= lastChange + ShownEntry(View()).length
      requires 0.0 < transmitRate ==> !Stuck(View(), gateIndex, now - lastChange, PerTick())
      ensures transmitRate <= 0.0 ==> maxBit == 0
      ensures 0.0 < transmitRate ==> 0.0 < PerTick() && IsMaxBit(View(), gateIndex, now - lastChange, PerTick(), maxBit)
    {
      if transmitRate <= 0.0 {
        return 0;
      }
      RatesArePositive();
      PredModulo(scheduleIndex, |currentSchedule|);
      var currentIndex := (scheduleIndex + |currentSchedule| - 1) % |currentSchedule|;
      maxBit := SumUp(gateIndex, currentIndex, now - lastChange, PerTick());
    }

    /** The loop of calculateMaxBit: adds up whole entries until the gate is closed or a full frame fits. */
    method SumUp(gateIndex: nat, first: nat, elapsed: nat, ghost perTick: real) returns (maxBit: nat)
      requires 0.0 < clockRate && 0.0 < transmitRate && perTick == PerTick() && 0.0 < perTick
      requires Running(View()) && first == Shown(View()) && elapsed <= ShownEntry(View()).length
      requires !Stuck(View(), gateIndex, elapsed, perTick)
      ensures IsMaxBit(View(), gateIndex, elapsed, perTick, maxBit)
    {
      ghost var c, k := View(), 0;
      ghost var last := Deciding(c, gateIndex, elapsed, perTick);
      var timeSinceLastChange := elapsed as real * clockRate;
      var bits := 0.0;
      var touchedNextSchedule := false;
      var currentIndex := first;
      var open := currentSchedule[currentIndex].open;
      while bits < MTU_BITS as real
        invariant touchedNextSchedule ==> nextSchedule.Some?
        invariant k <= last && Looking(After(c, k), touchedNextSchedule, currentIndex, open)
        invariant SoFar(c, gateIndex, elapsed, perTick, k, bits)
        invariant if k == 0 then timeSinceLastChange == elapsed as real * clockRate else timeSinceLastChange == 0.0
        decreases last - k
      {
        if gateIndex !in open {
          ClosedAnswer(c, gateIndex, elapsed, perTick, k, bits);
          return bits.Floor;
        }
        var schedule := if touchedNextSchedule then nextSchedule.value else currentSchedule;
        OnwardFrom(c, gateIndex, elapsed, perTick, k, bits, last);
        var more := BitsOfRest(schedule[currentIndex].length, timeSinceLastChange, TimeUntil(c, elapsed, k),
          if k == 0 then elapsed else 0);
        touchedNextSchedule, currentIndex, open := NextEntry(touchedNextSchedule, currentIndex, open, After(c, k));
        bits := bits + more;
        timeSinceLastChange := 0.0;
        k := k + 1;
      }
      FullAnswer(c, gateIndex, elapsed, perTick, k, bits);
      return MTU_BITS;
    }

    /** The lookahead's variables describe the future state d. */
    ghost predicate Looking(d: Control, touched: bool, index: nat, open: set<nat>)
      requires d.index < |d.current| && (touched ==> nextSchedule.Some?)
      reads this
    {
      && d.current == (if touched then nextSchedule.value else currentSchedule)
      && d.next == (if touched then None else nextSchedule)
      && index == Shown(d) && open == ShownEntry(d).open
    }
  }

  /** What the tick after state d will show. */
  lemma NextLook(d: Control)
    requires Running(d)
    ensures Running(Tick(d))
    ensures if d.next.None? || Shown(d) < |d.current| - 1 then
        && Tick(d).current == d.current && Tick(d).next == d.next
        && Shown(Tick(d)) == if Shown(d) + 1 == |d.current| then 0 else Shown(d) + 1
      else
        Tick(d).current == d.next.value && Tick(d).next == None && Shown(Tick(d)) == 0
  {}

  /** The lookahead has passed k entries with the gate open and collected their bits. */
  ghost predicate SoFar(c: Control, g: nat, since: nat, perTick: real, k: nat, bits: real)
    requires Running(c) && since <= ShownEntry(c).length
  {
    bits == BitsIn(TimeUntil(c, since, k), perTick) && forall i: nat :: i < k ==> OpenAfter(c, g, i)
  }

  lemma ClosedAnswer(c: Control, g: nat, since: nat, perTick: real, k: nat, bits: real)
    requires Running(c) && since <= ShownEntry(c).length && 0.0 < perTick
    requires SoFar(c, g, since, perTick, k, bits) && bits < MTU_BITS as real && !OpenAfter(c, g, k)
    ensures 0 <= bits.Floor && IsMaxBit(c, g, since, perTick, bits.Floor)
  {
    DecidedIsMaxBit(c, g, since, perTick, k);
    BitsInMonotone(0, TimeUntil(c, since, k), perTick);
  }

  lemma FullAnswer(c: Control, g: nat, since: nat, perTick: real, k: nat, bits: real)
    requires Running(c) && since <= ShownEntry(c).length && 0.0 < perTick
    requires SoFar(c, g, since, perTick, k, bits) && MTU_BITS as real <= bits
    ensures IsMaxBit(c, g, since, perTick, MTU_BITS)
  {
    DecidedIsMaxBit(c, g, since, perTick, k);
  }

  lemma OnwardFrom(c: Control, g: nat, since: nat, perTick: real, k: nat, bits: real, last: nat)
    requires Running(c) && since <= ShownEntry(c).length
    requires SoFar(c, g, since, perTick, k, bits) && bits < MTU_BITS as real && OpenAfter(c, g, k)
    requires k <= last && Decided(c, g, since, perTick, last)
    ensures k < last && (k == 0 ==> After(c, k) == c)
    ensures var length := ShownEntry(After(c, k)).length; var s := if k == 0 then since else 0;
      s <= length && SoFar(c, g, since, perTick, k + 1, BitsIn(TimeUntil(c, since, k) + length - s, perTick))
  {
    TimeUntilStep(c, since, k);
  }
}
