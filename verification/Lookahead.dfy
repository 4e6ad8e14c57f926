/** What the gate controller's lookahead means: how many bits fit through a gate before it closes. */
module Lookahead {
  import opened GateSchedules

  /** 1500 bytes. */
  const MTU_BITS := 12000

  /** The bits that the link carries in some clock ticks, `perTick` of them in each. */
  function BitsIn(ticks: nat, perTick: real): real {
    if ticks == 0 then 0.0 else BitsIn(ticks - 1, perTick) + perTick
  }

  lemma {:induction false} BitsInIs(ticks: nat, perTick: real)
    ensures BitsIn(ticks, perTick) == ticks as real * perTick
  {
    if ticks != 0 {
      BitsInIs(ticks - 1, perTick);
      assert (ticks - 1) as real * perTick + perTick == ticks as real * perTick;
    }
  }

  lemma {:induction false} BitsInMonotone(t: nat, u: nat, perTick: real)
    requires 0.0 < perTick && t <= u
    ensures 0.0 <= BitsIn(t, perTick) <= BitsIn(u, perTick)
    decreases t + u
  {
    if t < u {
      BitsInMonotone(t, u - 1, perTick);
    } else if t != 0 {
      BitsInMonotone(t - 1, u - 1, perTick);
    }
  }

  /** The whole bits that fit into some clock ticks, at most a full frame. */
  function Capped(ticks: nat, perTick: real): (bits: nat)
    requires 0.0 < perTick
    ensures bits <= MTU_BITS
  {
    BitsInMonotone(0, ticks, perTick);
    var bits := BitsIn(ticks, perTick).Floor;
    if bits < MTU_BITS then bits else MTU_BITS
  }

  lemma CappedMonotone(t: nat, u: nat, perTick: real)
    requires 0.0 < perTick && t <= u
    ensures Capped(t, perTick) <= Capped(u, perTick)
  {
    BitsInMonotone(t, u, perTick);
  }

  // ----- the meaning of the lookahead -------------------------------------------------------

  /** `bits` is what can pass gate g until it is first closed on the run that further ticks produce;
      the last tick was `since` clock ticks ago. */
  ghost predicate IsMaxBit(c: Control, g: nat, since: nat, perTick: real, bits: nat)
    requires Running(c) && since <= ShownEntry(c).length && 0.0 < perTick
  {
    && (forall k: nat :: FirstClosed(c, g, k) ==> bits == Capped(TimeUntil(c, since, k), perTick))
    && ((forall k: nat :: OpenAfter(c, g, k)) ==> bits == MTU_BITS)
  }

  /** The lookahead may stop at the k-th tick: the gate is closed or a full frame fits already. */
  ghost predicate Decided(c: Control, g: nat, since: nat, perTick: real, k: nat)
    requires Running(c) && since <= ShownEntry(c).length
  {
    !OpenAfter(c, g, k) || BitsIn(TimeUntil(c, since, k), perTick) >= MTU_BITS as real
  }

  lemma DecidedIsMaxBit(c: Control, g: nat, since: nat, perTick: real, k: nat)
    requires Running(c) && since <= ShownEntry(c).length && 0.0 < perTick
    requires Decided(c, g, since, perTick, k) && forall i: nat :: i < k ==> OpenAfter(c, g, i)
    ensures IsMaxBit(c, g, since, perTick, Capped(TimeUntil(c, since, k), perTick))
  {
    var bits := Capped(TimeUntil(c, since, k), perTick);
    if BitsIn(TimeUntil(c, since, k), perTick) >= MTU_BITS as real {
      forall i: nat | FirstClosed(c, g, i)
        ensures bits == Capped(TimeUntil(c, since, i), perTick)
      {
        assert k <= i;
        TimeUntilIncreases(c, since, k, i);
        CappedMonotone(TimeUntil(c, since, k), TimeUntil(c, since, i), perTick);
      }
    }
  }

  /** There is one answer only. */
  lemma MaxBitIsUnique(c: Control, g: nat, since: nat, perTick: real, bits: nat, bits': nat)
    requires Running(c) && since <= ShownEntry(c).length && 0.0 < perTick
    requires IsMaxBit(c, g, since, perTick, bits) && IsMaxBit(c, g, since, perTick, bits')
    ensures bits == bits' <= MTU_BITS
  {
    if k: nat :| !OpenAfter(c, g, k) {
      var first := FindFirstClosed(c, g, k);
    }
  }

  /** The limit is always defined, even where the lookahead itself would not come to an end. */
  lemma MaxBitExists(c: Control, g: nat, since: nat, perTick: real) returns (bits: nat)
    requires Running(c) && since <= ShownEntry(c).length && 0.0 < perTick
    ensures IsMaxBit(c, g, since, perTick, bits)
  {
    if k: nat :| !OpenAfter(c, g, k) {
      var first := FindFirstClosed(c, g, k);
      DecidedIsMaxBit(c, g, since, perTick, first);
      bits := Capped(TimeUntil(c, since, first), perTick);
    } else {
      bits := MTU_BITS;
    }
  }

  /** As time passes between two ticks the limit can only shrink. */
  lemma MaxBitShrinks(c: Control, g: nat, since: nat, since': nat, perTick: real, bits: nat, bits': nat)
    requires Running(c) && since <= since' <= ShownEntry(c).length && 0.0 < perTick
    requires IsMaxBit(c, g, since, perTick, bits) && IsMaxBit(c, g, since', perTick, bits')
    ensures bits' <= bits
  {
    if k: nat :| !OpenAfter(c, g, k) {
      var first := FindFirstClosed(c, g, k);
      CappedMonotone(TimeUntil(c, since', first), TimeUntil(c, since, first), perTick);
    }
  }

  lemma OpenAfterTick(c: Control, g: nat, k: nat)
    requires Running(c) && Running(Tick(c))
    ensures OpenAfter(c, g, k + 1) == OpenAfter(Tick(c), g, k)
  {
    AfterTick(c, k);
  }

  lemma FirstClosedAfterTick(c: Control, g: nat, k: nat)
    requires Running(c) && Running(Tick(c)) && OpenAfter(c, g, 0) && FirstClosed(Tick(c), g, k)
    ensures FirstClosed(c, g, k + 1)
  {
    OpenAfterTick(c, g, k);
    forall i: nat | i < k + 1
      ensures OpenAfter(c, g, i)
    {
      if i != 0 {
        OpenAfterTick(c, g, i - 1);
      }
    }
  }

  lemma AlwaysOpenAfterTick(c: Control, g: nat)
    requires Running(c) && Running(Tick(c)) && OpenAfter(c, g, 0)
    requires forall k: nat :: OpenAfter(Tick(c), g, k)
    ensures forall k: nat :: OpenAfter(c, g, k)
  {
    forall k: nat
      ensures OpenAfter(c, g, k)
    {
      if k != 0 {
        OpenAfterTick(c, g, k - 1);
      }
    }
  }

  /** A tick that leaves the gate open continues the prediction made just before it. */
  lemma MaxBitAcrossTick(c: Control, g: nat, perTick: real, bits: nat, bits': nat)
    requires Running(c) && Running(Tick(c)) && 0.0 < perTick && OpenAfter(c, g, 0)
    requires IsMaxBit(c, g, ShownEntry(c).length, perTick, bits)
    requires IsMaxBit(Tick(c), g, 0, perTick, bits')
    ensures bits' == bits
  {
    if k: nat :| !OpenAfter(Tick(c), g, k) {
      var first := FindFirstClosed(Tick(c), g, k);
      FirstClosedAfterTick(c, g, first);
      AfterTick(c, first);
    } else {
      AlwaysOpenAfterTick(c, g);
    }
  }

  lemma MaxBitOverOneTick(c: Control, g: nat, since: nat, perTick: real, bits: nat, bits': nat)
    requires Running(c) && since <= ShownEntry(c).length && 0.0 < perTick && OpenAfter(c, g, 0)
    requires IsMaxBit(c, g, since, perTick, bits)
    requires Running(Tick(c)) && IsMaxBit(Tick(c), g, 0, perTick, bits')
    ensures bits' <= bits
  {
    var late := MaxBitExists(c, g, ShownEntry(c).length, perTick);
    MaxBitShrinks(c, g, since, ShownEntry(c).length, perTick, bits, late);
    MaxBitAcrossTick(c, g, perTick, late, bits');
  }

  /** While a gate stays open, whatever ticks pass, the limit never grows. */
  lemma {:induction false} MaxBitNeverGrows(c: Control, g: nat, since: nat, perTick: real, bits: nat, k: nat,
    since': nat, bits': nat)
    requires Running(c) && since <= ShownEntry(c).length && 0.0 < perTick
    requires IsMaxBit(c, g, since, perTick, bits)
    requires since' <= ShownEntry(After(c, k)).length && (k == 0 ==> since <= since')
    requires IsMaxBit(After(c, k), g, since', perTick, bits')
    requires forall i: nat :: i <= k ==> OpenAfter(c, g, i)
    ensures bits' <= bits
    decreases k
  {
    if k == 0 {
      MaxBitShrinks(c, g, since, since', perTick, bits, bits');
    } else {
      AfterTick(c, k - 1);
      var early := MaxBitExists(Tick(c), g, 0, perTick);
      MaxBitOverOneTick(c, g, since, perTick, bits, early);
      forall i: nat | i <= k - 1
        ensures OpenAfter(Tick(c), g, i)
      {
        OpenAfterTick(c, g, i);
      }
      MaxBitNeverGrows(Tick(c), g, 0, perTick, early, k - 1, since', bits');
    }
  }

  // ----- a single open entry ----------------------------------------------------------------

  lemma {:induction false} OneEntryStays(c: Control, k: nat)
    requires |c.current| == 1 && c.next.None? && c.index == 0
    ensures After(c, k) == c
  {
    if k != 0 {
      OneEntryStays(c, k - 1);
    }
  }

  /** A schedule of one entry that leaves the gate open keeps it open, and a full frame fits. */
  lemma OneOpenEntry(c: Control, g: nat, perTick: real)
    requires |c.current| == 1 && c.next.None? && c.index == 0 && g in c.current[0].open && 0.0 < perTick
    ensures Running(c) && ShownEntry(c) == c.current[0] && IsMaxBit(c, g, 0, perTick, MTU_BITS)
  {
    forall k: nat
      ensures OpenAfter(c, g, k)
    {
      OneEntryStays(c, k);
    }
  }
}
