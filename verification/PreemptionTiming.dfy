/** When a running preemptable part may be cut, what the MAC's prediction of that instant is worth, and
    how long an express frame waits at most. */
module PreemptionTiming {
  import opened Traces
  import opened FramePreemption

  /** A preemptable part is being sent that nobody has cut yet. */
  ghost predicate Running(s: Sender, now: int, byteTime: nat)
    requires 0 < byteTime
  {
    && Sound(s, byteTime) && s.preemptableOn && Uncut(s, byteTime)
    && s.start <= now <= s.endTx.value
  }

  /** Bytes of the part that are over. */
  function Gone(s: Sender, now: int, byteTime: nat): nat
    requires 0 < byteTime && s.start <= now
  {
    BytesOf(now - s.start, byteTime)
  }

  /** What is left of the frame at the start of the part. */
  function Rest(s: Sender): int
    requires s.frame.Some?
  {
    s.frame.value.length - s.sent
  }

  lemma GoneIsBounded(s: Sender, now: int, byteTime: nat)
    requires 0 < byteTime && Running(s, now, byteTime)
    ensures Gone(s, now, byteTime) <= Rest(s) + PREAMBLE
  {
    BytesOfMonotone(now - s.start, s.endTx.value - s.start, byteTime);
    BytesOfIs(s.endTx.value - s.start, byteTime, Rest(s) + PREAMBLE);
  }

  /** The rule of isPreemptionNowPossible in terms of bytes: 60 are over and 60 remain. */
  lemma NowPossibleIs(s: Sender, now: int, byteTime: nat)
    requires 0 < byteTime && Running(s, now, byteTime)
    ensures NowPossible(s, now, byteTime) <==> 60 <= Gone(s, now, byteTime) <= Rest(s) - 60
  {}

  /** At the end of an uncut part nothing is left to cut. */
  lemma NotPossibleAtEnd(s: Sender, byteTime: nat)
    requires 0 < byteTime && Sound(s, byteTime) && s.preemptableOn && Uncut(s, byteTime) && s.start <= s.endTx.value
    ensures !NowPossible(s, s.endTx.value, byteTime)
  {
    NowPossibleIs(s, s.endTx.value, byteTime);
    BytesOfIs(s.endTx.value - s.start, byteTime, Rest(s) + PREAMBLE);
  }

  /** isPreemptionLaterPossible in terms of bytes. */
  lemma LaterPossibleIs(s: Sender, now: int, byteTime: nat)
    requires 0 < byteTime && Running(s, now, byteTime)
    ensures var x := Gone(s, now, byteTime);
      LaterPossible(s, now, byteTime)
        == if NowPossible(s, now, byteTime) then Some(now)
           else if x < 60 && 124 <= Rest(s) then Some(now + Duration(60 - x, byteTime)) else None
  {}

  /** In the checksum of a part that was cut the MAC cuts again at once or not at all. */
  lemma NeverLaterOnceCut(s: Sender, now: int, byteTime: nat)
    requires 0 < byteTime && Sound(s, byteTime) && s.preemptableOn && !Uncut(s, byteTime)
    requires s.start <= now <= s.endTx.value && s.endTx.value - Duration(4, byteTime) <= now
    ensures LaterPossible(s, now, byteTime).Some? <==> NowPossible(s, now, byteTime)
  {
    var bytes :| CutAfter(s, bytes, byteTime);
    BytesOfMonotone(s.endTx.value - Duration(4, byteTime) - s.start, now - s.start, byteTime);
  }

  /** The first instant at which 60 bytes are over. */
  function Sixty(s: Sender, byteTime: nat): int {
    s.start + Duration(60, byteTime)
  }

  lemma SixtyIsFirst(s: Sender, now: int, byteTime: nat)
    requires 0 < byteTime && s.start <= now
    ensures 60 <= Gone(s, now, byteTime) <==> Sixty(s, byteTime) <= now
    ensures Gone(s, Sixty(s, byteTime), byteTime) == 60
  {
    BytesOfReaches(now - s.start, byteTime, 60);
    BytesOfIs(Duration(60, byteTime), byteTime, 60);
  }

  /** Some instant of the part, now or later, allows to cut it, if and only if it is allowed now or 60
      bytes are still to come and would leave 60. */
  lemma SomeInstantIff(s: Sender, now: int, byteTime: nat)
    requires 0 < byteTime && Running(s, now, byteTime)
    ensures (exists u :: now <= u <= s.endTx.value && NowPossible(s, u, byteTime))
       <==> NowPossible(s, now, byteTime) || (Gone(s, now, byteTime) < 60 && 120 <= Rest(s))
  {
    NowPossibleIs(s, now, byteTime);
    SixtyIsFirst(s, now, byteTime);
    if u :| now <= u <= s.endTx.value && NowPossible(s, u, byteTime) {
      NowPossibleIs(s, u, byteTime);
      BytesOfMonotone(now - s.start, u - s.start, byteTime);
    }
    if Gone(s, now, byteTime) < 60 && 120 <= Rest(s) {
      var u := Sixty(s, byteTime);
      DurationRises(60, Rest(s) + PREAMBLE, byteTime);
      NowPossibleIs(s, u, byteTime);
    }
  }

  /** The predicted instant is legal and lies within the same part. */
  lemma LaterIsLegal(s: Sender, now: int, byteTime: nat)
    requires 0 < byteTime && Running(s, now, byteTime)
    requires LaterPossible(s, now, byteTime).Some?
    ensures var t := LaterPossible(s, now, byteTime).value;
      && now <= t && Running(s, t, byteTime) && NowPossible(s, t, byteTime)
      && Enabled(s, Preempt(t), byteTime)
  {
    LaterPossibleIs(s, now, byteTime);
    if !NowPossible(s, now, byteTime) {
      var x := Gone(s, now, byteTime);
      var t := now + Duration(60 - x, byteTime);
      BytesOfShift(now - s.start, byteTime, 60 - x);
      assert t - s.start == (now - s.start) + Duration(60 - x, byteTime);
      BytesOfBounds(t - s.start, byteTime);
      DurationRises(61, Rest(s) + PREAMBLE, byteTime);
      NowPossibleIs(s, t, byteTime);
    }
  }

  /** How far the byte under way has got. */
  function Begun(s: Sender, now: int, byteTime: nat): int
    requires 0 < byteTime && s.start <= now
  {
    now - s.start - Duration(Gone(s, now, byteTime), byteTime)
  }

  lemma LaterAsSixty(s: Sender, now: int, byteTime: nat)
    requires 0 < byteTime && Running(s, now, byteTime) && !NowPossible(s, now, byteTime)
    requires LaterPossible(s, now, byteTime).Some?
    ensures 0 <= Begun(s, now, byteTime) < byteTime && now < Sixty(s, byteTime)
    ensures LaterPossible(s, now, byteTime) == Some(Sixty(s, byteTime) + Begun(s, now, byteTime))
  {
    LaterPossibleIs(s, now, byteTime);
    SixtyIsFirst(s, now, byteTime);
    BytesOfBounds(now - s.start, byteTime);
    DurationAdds(60 - Gone(s, now, byteTime), Gone(s, now, byteTime), byteTime);
  }

  /** The predicted instant is the earliest legal one exactly if the question is asked on a byte
      boundary of the part; otherwise it is late by the fraction of the byte under way. */
  lemma LaterIsEarliestIff(s: Sender, now: int, byteTime: nat)
    requires 0 < byteTime && Running(s, now, byteTime) && !NowPossible(s, now, byteTime)
    requires LaterPossible(s, now, byteTime).Some?
    ensures (forall u :: now <= u < LaterPossible(s, now, byteTime).value ==> !NowPossible(s, u, byteTime))
       <==> Begun(s, now, byteTime) == 0
  {
    var t := LaterPossible(s, now, byteTime).value;
    LaterAsSixty(s, now, byteTime);
    LaterIsLegal(s, now, byteTime);
    NowPossibleIs(s, now, byteTime);
    forall u | now <= u < Sixty(s, byteTime)
      ensures !NowPossible(s, u, byteTime)
    {
      NowPossibleIs(s, u, byteTime);
      SixtyIsFirst(s, u, byteTime);
    }
    var first := Sixty(s, byteTime);
    SixtyIsFirst(s, now, byteTime);
    LaterPossibleIs(s, now, byteTime);
    NowPossibleIs(s, first, byteTime);
    assert NowPossible(s, first, byteTime);
  }

  /** A frame of 200 bytes, asked for one time unit after its start, the byte taking 8. */
  lemma LaterIsNotAlwaysEarliest() returns (s: Sender)
    ensures Running(s, 1, 8) && !NowPossible(s, 1, 8)
    ensures LaterPossible(s, 1, 8) == Some(481) && NowPossible(s, 480, 8)
  {
    s := Begin(Sender(None, 0, false, 0, false, None), 0, Frame(0, 200), 8);
    DurationIs(60, 8);
    DurationIs(208, 8);
    BytesOfIs(1, 8, 0);
    BytesOfIs(480, 8, 60);
  }

  /** The prediction refuses although the part could be cut later exactly if 60 bytes are still to come
      and between 120 and 123 bytes were left at its start: it asks for 4 bytes more than the rule. */
  lemma RefusesTooOftenIff(s: Sender, now: int, byteTime: nat)
    requires 0 < byteTime && Running(s, now, byteTime)
    ensures Gone(s, now, byteTime) < 60 && 120 <= Rest(s) <= 123
      <==> (&& LaterPossible(s, now, byteTime).None?
            && exists u :: now <= u <= s.endTx.value && NowPossible(s, u, byteTime))
  {
    SomeInstantIff(s, now, byteTime);
    LaterPossibleIs(s, now, byteTime);
    NowPossibleIs(s, now, byteTime);
  }

  /** A frame of 120 bytes can be cut in the middle, but the prediction says never. */
  lemma RefusesCuttableFrame() returns (s: Sender)
    ensures Running(s, 0, 8) && LaterPossible(s, 0, 8).None? && NowPossible(s, 480, 8)
  {
    s := Begin(Sender(None, 0, false, 0, false, None), 0, Frame(0, 120), 8);
    DurationIs(60, 8);
    DurationIs(128, 8);
    BytesOfIs(480, 8, 60);
  }

  /** When it refuses, fewer than 64 bytes remain once 60 bytes are over. */
  lemma RefusalLeavesLittle(s: Sender, now: int, byteTime: nat)
    requires 0 < byteTime && Running(s, now, byteTime) && LaterPossible(s, now, byteTime).None?
    ensures var x := Gone(s, now, byteTime); Rest(s) - (if x < 60 then 60 else x) < 64
  {}

  /** How soon the part frees the link, whatever the MAC decides: in 4 byte times if it cuts the part now, in
      at most 64 if it cuts it later, in at most 131 if it does not.  The gap follows before an express frame. */
  lemma ExpressWaits(s: Sender, now: int, byteTime: nat)
    requires 0 < byteTime && Running(s, now, byteTime)
    ensures match LaterPossible(s, now, byteTime)
      case Some(t) =>
        && Enabled(s, Preempt(t), byteTime)
        && Step(s, Preempt(t), byteTime).endTx == Some(t + Duration(4, byteTime))
        && (if NowPossible(s, now, byteTime) then t == now
          else t + Duration(4, byteTime) <= now + Duration(64, byteTime))
      case None => s.endTx.value <= now + Duration(131, byteTime)
  {
    LaterPossibleIs(s, now, byteTime);
    var x := Gone(s, now, byteTime);
    if LaterPossible(s, now, byteTime).Some? {
      LaterIsLegal(s, now, byteTime);
      if !NowPossible(s, now, byteTime) {
        DurationAdds(60 - x, 4, byteTime);
        DurationRises(64 - x, 64, byteTime);
      }
    } else {
      NowPossibleIs(s, now, byteTime);
      BytesOfBounds(now - s.start, byteTime);
      GoneIsBounded(s, now, byteTime);
      var left := Rest(s) + PREAMBLE - x;
      DurationAdds(x, left, byteTime);
      DurationRises(left, 131, byteTime);
    }
  }
}
