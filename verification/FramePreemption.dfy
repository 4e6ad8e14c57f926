/** The transmitting side of the preemptable MAC (IEEE 802.3 section 99.4) as a value.  Time is an
    integer, and one byte takes `byteTime` units on the link. */
module FramePreemption {
  import opened Traces

  /** `length` in bytes includes the frame check sequence but not the preamble. */
  datatype Frame = Frame(name: nat, length: nat)

  const MIN_FRAME := 64
  const MIN_FINAL_PAYLOAD := 60
  const MIN_NON_FINAL_PAYLOAD := 60
  /** Preamble and start delimiter. */
  const PREAMBLE := 8
  /** Checksum of a frame or of a fragment. */
  const CRC := 4
  /** The inter-frame gap of IEEE 802.3, 96 bits, in bytes. */
  const GAP := 12

  /** What goes over the link.  A preemptable frame is announced part by part, each with the bytes sent
      so far, the bytes of this part, and the time for which it has occupied the link. */
  datatype Message =
    | Whole(frame: Frame)
    | Part(frame: Frame, bytesSent: nat, bytesInThisPart: nat, linkTime: int)

  /** `frame` is the preemptable frame begun and not finished, `sent` its bytes sent in earlier parts,
      `start` the beginning of the present part, `endTx` the pending end of transmission. */
  datatype Sender = Sender(
    frame: Option<Frame>,
    sent: nat,
    preemptableOn: bool,
    start: int,
    expressOn: bool,
    endTx: Option<int>)

  datatype Event =
    | SendPreemptable(now: int, new_: Frame)
    | Resume(now: int)
    | SendExpress(now: int, express: Frame, duration: nat)
    | Preempt(now: int)
    | EndTx(now: int)

  // ----- counting bytes ---------------------------------------------------------------------

  /** calculateTransmissionDuration: one byte after the other. */
  function Duration(bytes: int, byteTime: nat): nat {
    if bytes <= 0 then 0 else Duration(bytes - 1, byteTime) + byteTime
  }

  /** The whole bytes that a time takes. */
  function BytesOf(time: int, byteTime: nat): nat
    requires 0 < byteTime
  {
    if time < byteTime then 0 else BytesOf(time - byteTime, byteTime) + 1
  }

  lemma {:induction false} DurationIs(bytes: nat, byteTime: nat)
    ensures Duration(bytes, byteTime) == bytes * byteTime
  {
    if bytes != 0 {
      DurationIs(bytes - 1, byteTime);
    }
  }

  lemma {:induction false} DurationAdds(a: nat, b: nat, byteTime: nat)
    ensures Duration(a + b, byteTime) == Duration(a, byteTime) + Duration(b, byteTime)
  {
    if b != 0 {
      DurationAdds(a, b - 1, byteTime);
    }
  }

  lemma {:induction false} DurationRises(a: nat, b: nat, byteTime: nat)
    ensures a < b ==> Duration(a, byteTime) + byteTime <= Duration(b, byteTime)
    ensures a <= b ==> Duration(a, byteTime) <= Duration(b, byteTime)
  {
    if a < b {
      DurationRises(a, b - 1, byteTime);
    }
  }

  lemma {:induction false} BytesOfBounds(time: int, byteTime: nat)
    requires 0 < byteTime && 0 <= time
    ensures Duration(BytesOf(time, byteTime), byteTime) <= time < Duration(BytesOf(time, byteTime), byteTime) + byteTime
  {
    if byteTime <= time {
      BytesOfBounds(time - byteTime, byteTime);
    }
  }

  lemma MultiplesApart(a: int, b: int, unit: int)
    requires 0 < unit
    ensures a < b ==> a * unit + unit <= b * unit
  {
    if a < b {
      var d := b - a - 1;
      assert d * unit >= 0;
      assert b * unit == a * unit + unit + d * unit;
    }
  }

  lemma QuotientIs(time: int, unit: int, n: int)
    requires 0 < unit && n * unit <= time < n * unit + unit
    ensures time / unit == n
  {
    var q := time / unit;
    MultiplesApart(q, n, unit);
    MultiplesApart(n, q, unit);
  }

  /** The number of bytes is the quotient, rounded down. */
  lemma BytesOfIsQuotient(time: int, byteTime: nat)
    requires 0 < byteTime && 0 <= time
    ensures BytesOf(time, byteTime) == time / byteTime
  {
    BytesOfBounds(time, byteTime);
    DurationIs(BytesOf(time, byteTime), byteTime);
    QuotientIs(time, byteTime, BytesOf(time, byteTime));
  }

  lemma BytesOfIs(time: int, byteTime: nat, n: nat)
    requires 0 < byteTime && Duration(n, byteTime) <= time < Duration(n, byteTime) + byteTime
    ensures BytesOf(time, byteTime) == n
  {
    BytesOfBounds(time, byteTime);
    DurationRises(BytesOf(time, byteTime), n, byteTime);
    DurationRises(n, BytesOf(time, byteTime), byteTime);
  }

  lemma BytesOfReaches(time: int, byteTime: nat, n: nat)
    requires 0 < byteTime && 0 <= time
    ensures n <= BytesOf(time, byteTime) <==> Duration(n, byteTime) <= time
  {
    BytesOfBounds(time, byteTime);
    DurationRises(n, BytesOf(time, byteTime), byteTime);
    DurationRises(BytesOf(time, byteTime), n, byteTime);
  }

  /** Whole bytes later, whole bytes more. */
  lemma BytesOfShift(time: int, byteTime: nat, n: nat)
    requires 0 < byteTime && 0 <= time
    ensures BytesOf(time + Duration(n, byteTime), byteTime) == BytesOf(time, byteTime) + n
  {
    BytesOfBounds(time, byteTime);
    DurationAdds(BytesOf(time, byteTime), n, byteTime);
    BytesOfIs(time + Duration(n, byteTime), byteTime, BytesOf(time, byteTime) + n);
  }

  lemma BytesOfMonotone(t: int, u: int, byteTime: nat)
    requires 0 < byteTime && 0 <= t <= u
    ensures BytesOf(t, byteTime) <= BytesOf(u, byteTime)
  {
    BytesOfBounds(t, byteTime);
    BytesOfReaches(u, byteTime, BytesOf(t, byteTime));
  }

  /** calculatePreemptedPayloadBytesSent; None stands for its "transmitted more bytes than the
      frame's length" error. */
  function PayloadBytesSent(s: Sender, now: int, sentCRC: bool, byteTime: nat): Option<nat>
    requires 0 < byteTime && (s.preemptableOn ==> s.frame.Some? && s.start <= now)
  {
    if !s.preemptableOn then Some(0)
    else
      var bytes := BytesOf(now - s.start, byteTime) - if sentCRC then CRC else 0;
      if bytes < 0 then Some(0)
      else if bytes > s.frame.value.length + PREAMBLE then None
      else Some(bytes)
  }

  /** isPreemptionNowPossible, preemption being enabled. */
  predicate NowPossible(s: Sender, now: int, byteTime: nat)
    requires 0 < byteTime && (s.preemptableOn ==> s.frame.Some? && s.start <= now)
  {
    !s.preemptableOn ||
    (!s.expressOn &&
     var bytes := PayloadBytesSent(s, now, false, byteTime);
     && bytes.Some?
     && MIN_FINAL_PAYLOAD <= s.frame.value.length - bytes.value - s.sent
     && MIN_NON_FINAL_PAYLOAD <= bytes.value)
  }

  /** isPreemptionLaterPossible: the time to wait for, None if it returns time zero. */
  function LaterPossible(s: Sender, now: int, byteTime: nat): Option<int>
    requires 0 < byteTime && s.frame.Some? && (s.preemptableOn ==> s.start <= now)
  {
    if NowPossible(s, now, byteTime) then Some(now)
    else
      match PayloadBytesSent(s, now, false, byteTime)
      case None => None
      case Some(bytes) =>
        var remaining := s.frame.value.length - bytes - s.sent;
        if bytes < MIN_NON_FINAL_PAYLOAD && remaining >= MIN_NON_FINAL_PAYLOAD + 4 - bytes + MIN_FINAL_PAYLOAD
        then Some(now + Duration(MIN_NON_FINAL_PAYLOAD - bytes, byteTime))
        else None
  }

  // ----- the handlers -----------------------------------------------------------------------

  /** The bytes of a part with the preamble, in the unsigned arithmetic of the code: they wrap around if more was
      sent than the frame has. */
  function PartLength(length: nat, sent: nat): int {
    length + PREAMBLE - sent + if sent <= length + PREAMBLE then 0 else 0x1_0000_0000
  }

  /** A frame that is not the one begun starts anew; the part takes the rest of the frame with its
      preamble. */
  function Begin(s: Sender, now: int, f: Frame, byteTime: nat): Sender {
    var sent := if s.frame.None? || s.frame.value.name != f.name then 0 else s.sent;
    var frame := if s.frame.None? || s.frame.value.name != f.name then f else s.frame.value;
    s.(frame := Some(frame), sent := sent, preemptableOn := true, start := now,
       endTx := Some(now + Duration(PartLength(f.length, sent), byteTime)))
  }

  /** The end of a transmission, and the part that is announced if it was preemptable. */
  function Ended(s: Sender, now: int, byteTime: nat): (Sender, Option<Message>)
    requires 0 < byteTime && (s.preemptableOn ==> s.frame.Some? && s.start <= now)
  {
    var over := s.(preemptableOn := false, expressOn := false, endTx := None);
    if !s.preemptableOn then (over, None)
    else
      match PayloadBytesSent(s, now, true, byteTime)
      case None => (over, None)
      case Some(bytes) =>
        var length, sent := s.frame.value.length, s.sent + bytes;
        if sent + 4 == length + PREAMBLE
        then (over.(frame := None, sent := length),
          Some(Part(s.frame.value, length, if 4 <= bytes then bytes - 4 else 0, now - s.start)))
        else (over.(sent := sent, frame := if sent == length then None else s.frame),
          Some(Part(s.frame.value, sent, bytes, now - s.start)))
  }

  /** Nothing starts while something is being sent, and time does not pass a pending end of transmission.  A
      preemptable frame may come while another one is begun, which is then given up; frames of one name
      are the same frame. */
  ghost predicate Enabled(s: Sender, e: Event, byteTime: nat)
    requires 0 < byteTime
  {
    match e
    case SendPreemptable(_, f) =>
      s.endTx.None? && MIN_FRAME <= f.length && (s.frame.Some? && s.frame.value.name == f.name ==> s.frame.value == f)
    case Resume(_) => s.endTx.None? && s.frame.Some?
    case SendExpress(_, _, _) => s.endTx.None?
    case Preempt(now) =>
      s.preemptableOn && s.endTx.Some? && s.start <= now <= s.endTx.value && s.frame.Some? &&
        NowPossible(s, now, byteTime)
    case EndTx(now) => s.endTx == Some(now) && (s.preemptableOn ==> s.frame.Some? && s.start <= now)
  }

  ghost function Step(s: Sender, e: Event, byteTime: nat): Sender
    requires 0 < byteTime && Enabled(s, e, byteTime)
  {
    match e
    case SendPreemptable(now, f) => Begin(s, now, f, byteTime)
    case Resume(now) => Begin(s, now, s.frame.value, byteTime)
    case SendExpress(now, _, duration) => s.(expressOn := true, endTx := Some(now + duration))
    case Preempt(now) => s.(endTx := Some(now + Duration(4, byteTime)))
    case EndTx(now) => Ended(s, now, byteTime).0
  }

  ghost function Sent(s: Sender, e: Event, byteTime: nat): seq<Message>
    requires 0 < byteTime && Enabled(s, e, byteTime)
  {
    match e
    case SendExpress(_, f, _) => [Whole(f)]
    case EndTx(now) => if Ended(s, now, byteTime).1.Some? then [Ended(s, now, byteTime).1.value] else []
    case _ => []
  }

  // ----- invariant --------------------------------------------------------------------------

  /** The present part will carry all that is left of the frame. */
  ghost predicate Uncut(s: Sender, byteTime: nat)
    requires 0 < byteTime && s.frame.Some? && s.endTx.Some?
  {
    s.endTx.value == s.start + Duration(s.frame.value.length + PREAMBLE - s.sent, byteTime)
  }

  /** The present part was cut short after `bytes` bytes, at a legal instant. */
  ghost predicate CutAfter(s: Sender, bytes: nat, byteTime: nat)
    requires 0 < byteTime && s.frame.Some? && s.endTx.Some?
  {
    && MIN_NON_FINAL_PAYLOAD <= bytes && bytes + s.sent + MIN_FINAL_PAYLOAD <= s.frame.value.length
    && var at := s.endTx.value - Duration(4, byteTime) - s.start;
       0 <= at && BytesOf(at, byteTime) == bytes
  }

  ghost predicate Sound(s: Sender, byteTime: nat)
    requires 0 < byteTime
  {
    && (s.endTx.Some? <==> s.preemptableOn || s.expressOn) && !(s.preemptableOn && s.expressOn)
    && (s.frame.Some? ==>
          var length := s.frame.value.length;
          && MIN_FRAME <= length
          && (s.sent != 0 ==> MIN_NON_FINAL_PAYLOAD <= s.sent && s.sent + MIN_FINAL_PAYLOAD <= length)
          && (!s.preemptableOn ==> s.sent != 0))
    && (s.preemptableOn ==> s.frame.Some? && (Uncut(s, byteTime) || exists bytes: nat :: CutAfter(s, bytes, byteTime)))
  }

  /** The count at the end of a part, and with it the whole outcome of the part: either everything
      that was left, or exactly the bytes sent when it was cut. */
  lemma PartEnds(s: Sender, byteTime: nat) returns (bytes: nat)
    requires 0 < byteTime && Sound(s, byteTime) && s.preemptableOn
    ensures s.start + Duration(4, byteTime) <= s.endTx.value
    ensures PayloadBytesSent(s, s.endTx.value, true, byteTime) == Some(bytes)
    ensures if Uncut(s, byteTime) then bytes == s.frame.value.length + 4 - s.sent else CutAfter(s, bytes, byteTime)
    ensures Duration(bytes + 4, byteTime) <= s.endTx.value - s.start < Duration(bytes + 5, byteTime)
    ensures Uncut(s, byteTime) ==> Duration(bytes + 4, byteTime) == s.endTx.value - s.start
  {
    if Uncut(s, byteTime) {
      bytes := s.frame.value.length + 4 - s.sent;
      DurationAdds(bytes, 4, byteTime);
      BytesOfIs(Duration(bytes, byteTime), byteTime, bytes);
    } else {
      bytes :| CutAfter(s, bytes, byteTime);
      DurationAdds(bytes, 4, byteTime);
    }
    var at := s.endTx.value - Duration(4, byteTime) - s.start;
    BytesOfBounds(at, byteTime);
    BytesOfShift(at, byteTime, 4);
  }

  lemma StepKeepsSound(s: Sender, e: Event, byteTime: nat)
    requires 0 < byteTime && Sound(s, byteTime) && Enabled(s, e, byteTime)
    ensures Sound(Step(s, e, byteTime), byteTime)
  {
    match e
    case SendPreemptable(now, f) =>
    case Resume(now) =>
    case SendExpress(_, _, _) =>
    case Preempt(now) =>
      var s' := Step(s, e, byteTime);
      assert CutAfter(s', BytesOf(now - s.start, byteTime), byteTime);
    case EndTx(now) =>
      if s.preemptableOn {
        var bytes := PartEnds(s, byteTime);
      }
  }

  /** The end of a part in the sender's own arithmetic. */
  lemma EndedIs(s: Sender, now: int, byteTime: nat)
    requires 0 < byteTime && Sound(s, byteTime) && s.preemptableOn && s.endTx == Some(now)
    ensures s.start <= now && Enabled(s, EndTx(now), byteTime) && Sound(Ended(s, now, byteTime).0, byteTime)
    ensures var f, bytes := s.frame.value, BytesOf(now - s.start, byteTime) - CRC;
      var sent := s.sent + bytes;
      var over := s.(preemptableOn := false, expressOn := false, endTx := None);
      && MIN_NON_FINAL_PAYLOAD <= bytes
      && if sent + 4 == f.length + PREAMBLE then
           Ended(s, now, byteTime) ==
             (over.(frame := None, sent := f.length), Some(Part(f, f.length, bytes - 4, now - s.start)))
         else
           sent != f.length && Ended(s, now, byteTime) ==
             (over.(sent := sent), Some(Part(f, sent, bytes, now - s.start)))
  {
    var bytes := PartEnds(s, byteTime);
    StepKeepsSound(s, EndTx(now), byteTime);
  }

  /** A frame that comes under the name of the frame begun is taken for the rest of it, whatever its length: the part
      takes as long as the new frame would, and the frame begun is counted.  It ends as finished exactly if the
      lengths are the same or the new one is 4 bytes shorter, and with the error of too many bytes exactly if the new
      one is much longer or so short that its rest wraps around. */
  lemma SameNameFinishesIff(s: Sender, now: int, g: Frame, byteTime: nat)
    requires 0 < byteTime && Sound(s, byteTime) && s.endTx.None? && s.frame.Some?
    requires g.name == s.frame.value.name && s.frame.value.length < 0x4000_0000
    ensures var f, b := s.frame.value, Begin(s, now, g, byteTime);
      && b.endTx.Some? && now <= b.endTx.value
      && (Ended(b, b.endTx.value, byteTime).0.frame.None? <==> g.length == f.length || g.length + 4 == f.length)
      && (Ended(b, b.endTx.value, byteTime).1.None? <==>
            f.length + s.sent + 4 < g.length || g.length + PREAMBLE < s.sent)
  {
    var bytes := PartLength(g.length, s.sent);
    BytesOfIs(Duration(bytes, byteTime), byteTime, bytes);
  }
}
