/** When the lookahead loop comes to an end.  A pass through a schedule of zero total length with
    the gate open all the time gains nothing, so the loop would repeat it forever. */
module LookaheadEnds {
  import opened Traces
  import opened GateSchedules
  import opened Lookahead

  /** The schedule in which the lookahead finally circulates. */
  function Circle(c: Control): Schedule {
    if c.next.Some? then c.next.value else c.current
  }

  /** The number of ticks after which only `Circle` is looked at. */
  function Entering(c: Control): nat
    requires Running(c)
  {
    if c.next.Some? then |c.current| - Shown(c) else 0
  }

  /** Only the entries up to the end of the first full pass matter, so this can be checked. */
  ghost predicate Stuck(c: Control, g: nat, since: nat, perTick: real)
    requires Running(c) && since <= ShownEntry(c).length
  {
    var m, p := Entering(c), |Circle(c)|;
    && (forall i: nat :: i < m + p ==> OpenAfter(c, g, i))
    && (forall i: nat :: m <= i < m + p ==> ShownEntry(After(c, i)).length == 0)
    && BitsIn(TimeUntil(c, since, m), perTick) < MTU_BITS as real
  }

  /** Without a pending schedule the controller is back where it was after |current| ticks. */
  lemma {:induction false} WithinPass(c: Control, k: nat)
    requires Running(c) && c.next.None? && k <= |c.current|
    ensures After(c, k) == c.(index := if c.index + k < |c.current| then c.index + k else c.index + k - |c.current|)
  {
    if k != 0 {
      WithinPass(c, k - 1);
    }
  }

  lemma {:induction false} AfterSum(c: Control, a: nat, b: nat)
    requires Running(c)
    ensures After(c, a + b) == After(After(c, a), b)
  {
    if b != 0 {
      AfterSum(c, a, b - 1);
    }
  }

  /** A pending schedule is in force, at its first entry, once the current pass is over. */
  lemma {:induction false} UntilSwap(c: Control, k: nat)
    requires Running(c) && c.next.Some? && k < |c.current| - Shown(c)
    ensures After(c, k) == c.(index := if Shown(c) + k + 1 < |c.current| then Shown(c) + k + 1 else 0)
  {
    if k != 0 {
      UntilSwap(c, k - 1);
    }
  }

  lemma Entered(c: Control)
    requires Running(c)
    ensures After(c, Entering(c)).next.None? && After(c, Entering(c)).current == Circle(c)
  {
    if c.next.Some? {
      UntilSwap(c, Entering(c) - 1);
    }
  }

  lemma FullPass(d: Control)
    requires Running(d) && d.next.None?
    ensures After(d, |d.current|) == d
  {
    WithinPass(d, |d.current|);
  }

  lemma PassFrom(c: Control, m: nat, p: nat)
    requires Running(c) && After(c, m).next.None? && p == |After(c, m).current|
    ensures After(c, m + p) == After(c, m)
  {
    FullPass(After(c, m));
    AfterSum(c, m, p);
  }

  lemma {:induction false} RepeatsFrom(c: Control, m: nat, p: nat, k: nat)
    requires Running(c) && After(c, m + p) == After(c, m) && m <= k
    ensures After(c, k + p) == After(c, k)
  {
    if m < k {
      RepeatsFrom(c, m, p, k - 1);
    }
  }

  /** From the moment the circle is entered, the future repeats itself. */
  lemma Repeats(c: Control, k: nat)
    requires Running(c) && Entering(c) <= k
    ensures After(c, k + |Circle(c)|) == After(c, k)
  {
    Entered(c);
    PassFrom(c, Entering(c), |Circle(c)|);
    RepeatsFrom(c, Entering(c), |Circle(c)|, k);
  }

  /** A stuck lookahead sees an open gate and an entry of zero length at every tick of the circle. */
  lemma {:induction false} StuckForever(c: Control, g: nat, since: nat, perTick: real, k: nat)
    requires Running(c) && since <= ShownEntry(c).length && Stuck(c, g, since, perTick) && Entering(c) <= k
    ensures OpenAfter(c, g, k) && ShownEntry(After(c, k)).length == 0
  {
    var p := |Circle(c)|;
    if Entering(c) + p <= k {
      Repeats(c, k - p);
      StuckForever(c, g, since, perTick, k - p);
    }
  }

  lemma {:induction false} StuckStandsStill(c: Control, g: nat, since: nat, perTick: real, k: nat)
    requires Running(c) && since <= ShownEntry(c).length && Stuck(c, g, since, perTick) && Entering(c) <= k
    ensures OpenAfter(c, g, k) && TimeUntil(c, since, k) == TimeUntil(c, since, Entering(c))
  {
    StuckForever(c, g, since, perTick, k);
    if Entering(c) < k {
      StuckStandsStill(c, g, since, perTick, k - 1);
      StuckForever(c, g, since, perTick, k - 1);
      TimeUntilStep(c, since, k - 1);
      assert After(c, 0) == c;
    }
  }

  lemma StuckNeverDecides(c: Control, g: nat, since: nat, perTick: real, k: nat)
    requires Running(c) && since <= ShownEntry(c).length && 0.0 < perTick && Stuck(c, g, since, perTick)
    ensures !Decided(c, g, since, perTick, k)
  {
    if k <= Entering(c) {
      TimeUntilIncreases(c, since, k, Entering(c));
      BitsInMonotone(TimeUntil(c, since, k), TimeUntil(c, since, Entering(c)), perTick);
      if k == Entering(c) {
        StuckStandsStill(c, g, since, perTick, k);
      }
    } else {
      StuckStandsStill(c, g, since, perTick, k);
    }
  }

  function Times(n: nat, p: nat): nat {
    if n == 0 then 0 else Times(n - 1, p) + p
  }

  lemma {:induction false} AfterPasses(c: Control, i: nat, n: nat)
    requires Running(c) && Entering(c) <= i
    ensures After(c, i + Times(n, |Circle(c)|)) == After(c, i)
  {
    if n != 0 {
      AfterPasses(c, i, n - 1);
      Repeats(c, i + Times(n - 1, |Circle(c)|));
    }
  }

  lemma LaterEntryTakesTime(c: Control, i: nat, j: nat)
    requires Running(c) && i < j && 0 < ShownEntry(After(c, j)).length
    ensures TimeTo(c, i + 1) < TimeTo(c, j + 1)
  {
    TimeToIncreases(c, i + 1, j);
  }

  /** Every pass that contains a positive entry costs at least one clock tick. */
  lemma {:induction false} PassesTakeTime(c: Control, i: nat, n: nat)
    requires Running(c) && Entering(c) <= i && 0 < ShownEntry(After(c, i)).length
    ensures n <= TimeTo(c, i + 1 + Times(n, |Circle(c)|))
  {
    if n != 0 {
      var j, j' := i + Times(n, |Circle(c)|), i + Times(n - 1, |Circle(c)|);
      PassesTakeTime(c, i, n - 1);
      AfterPasses(c, i, n);
      LaterEntryTakesTime(c, j', j);
    }
  }

  lemma EnoughTicks(perTick: real) returns (n: nat)
    requires 0.0 < perTick
    ensures BitsIn(n, perTick) >= MTU_BITS as real
  {
    var exact := MTU_BITS as real / perTick;
    assert exact * perTick == MTU_BITS as real && exact >= 0.0;
    n := exact.Floor + 1;
    var more := n as real - exact;
    assert more * perTick >= 0.0;
    assert (exact + more) * perTick == exact * perTick + more * perTick;
    BitsInIs(n, perTick);
  }

  lemma Deciding(c: Control, g: nat, since: nat, perTick: real) returns (k: nat)
    requires Running(c) && since <= ShownEntry(c).length && 0.0 < perTick
    requires !Stuck(c, g, since, perTick)
    ensures Decided(c, g, since, perTick, k)
  {
    var m, p := Entering(c), |Circle(c)|;
    if i: nat :| i < m + p && !OpenAfter(c, g, i) {
      k := i;
    } else if BitsIn(TimeUntil(c, since, m), perTick) >= MTU_BITS as real {
      k := m;
    } else {
      var i: nat :| m <= i < m + p && ShownEntry(After(c, i)).length != 0;
      var n := EnoughTicks(perTick);
      PassesTakeTime(c, i, n + since);
      k := i + 1 + Times(n + since, p);
      BitsInMonotone(n, TimeUntil(c, since, k), perTick);
    }
  }

  /** The lookahead comes to an end exactly when it is not stuck. */
  lemma LookaheadEndsIff(c: Control, g: nat, since: nat, perTick: real)
    requires Running(c) && since <= ShownEntry(c).length && 0.0 < perTick
    ensures (exists k: nat :: Decided(c, g, since, perTick, k)) <==> !Stuck(c, g, since, perTick)
  {
    if Stuck(c, g, since, perTick) {
      forall k: nat
        ensures !Decided(c, g, since, perTick, k)
      {
        StuckNeverDecides(c, g, since, perTick, k);
      }
    } else {
      var k := Deciding(c, g, since, perTick);
    }
  }

  /** It does get stuck: in the last entry of a cycle, less than a full frame before its end, with a schedule
      pending whose only entry has no length and leaves the gate open. */
  lemma ZeroLengthSticks(c: Control, g: nat, since: nat, perTick: real)
    requires Running(c) && c.index == 0 && since <= ShownEntry(c).length && 0.0 < perTick
    requires g in ShownEntry(c).open && c.next == Some([Entry(0, {g})])
    requires BitsIn(ShownEntry(c).length - since, perTick) < MTU_BITS as real
    ensures Stuck(c, g, since, perTick) && forall k: nat :: !Decided(c, g, since, perTick, k)
  {
    assert After(c, 0) == c;
    var d := After(c, 1);
    assert d == Tick(c) && d.current == [Entry(0, {g})] && Shown(d) == 0;
    TimeToFirst(c);
    assert TimeUntil(c, since, 1) == ShownEntry(c).length - since;
    forall k: nat
      ensures !Decided(c, g, since, perTick, k)
    {
      StuckNeverDecides(c, g, since, perTick, k);
    }
  }
}
