/** Whole runs of the preemptable MAC: what its parts add up to, and what the receiving MAC makes of
    them.  The link delivers messages in order; express frames may come between any two parts. */
module Reassembly {
  import opened Traces
  import opened FramePreemption

  // ----- runs of the sender -----------------------------------------------------------------

  const IDLE := Sender(None, 0, false, 0, false, None)

  ghost predicate Legal(run: Trace<Event>, byteTime: nat)
    requires 0 < byteTime
    decreases run, 0
  {
    match run
    case Start => true
    case Then(before, e) => Legal(before, byteTime) && Enabled(SenderAfter(before, byteTime), e, byteTime)
  }

  ghost function SenderAfter(run: Trace<Event>, byteTime: nat): (s: Sender)
    requires 0 < byteTime && Legal(run, byteTime)
    ensures Sound(s, byteTime)
    decreases run, 1
  {
    match run
    case Start => IDLE
    case Then(before, e) =>
      StepKeepsSound(SenderAfter(before, byteTime), e, byteTime);
      Step(SenderAfter(before, byteTime), e, byteTime)
  }

  /** Everything put on the link. */
  ghost function Link(run: Trace<Event>, byteTime: nat): Trace<Message>
    requires 0 < byteTime && Legal(run, byteTime)
  {
    match run
    case Start => Start
    case Then(before, e) =>
      LinkWith(Link(before, byteTime), Sent(SenderAfter(before, byteTime), e, byteTime))
  }

  /** The preemptable frames handed to the MAC, in order. */
  function Begun(run: Trace<Event>): seq<Frame> {
    match run
    case Start => []
    case Then(before, e) => Begun(before) + NewFrame(e)
  }

  /** The frames given up because another one came while they were begun. */
  ghost function Dropped(run: Trace<Event>, byteTime: nat): seq<Frame>
    requires 0 < byteTime && Legal(run, byteTime)
  {
    match run
    case Start => []
    case Then(before, e) =>
      Dropped(before, byteTime) + if e.SendPreemptable? then Frames(SenderAfter(before, byteTime).frame) else []
  }

  function WithoutLast(fs: seq<Frame>): seq<Frame> {
    if fs == [] then [] else fs[..|fs| - 1]
  }

  /** The frames handed to the MAC without those given up. */
  ghost function Kept(run: Trace<Event>, byteTime: nat): seq<Frame>
    requires 0 < byteTime && Legal(run, byteTime)
  {
    match run
    case Start => []
    case Then(before, e) =>
      var kept := Kept(before, byteTime);
      (if e.SendPreemptable? && SenderAfter(before, byteTime).frame.Some? then WithoutLast(kept) else kept) +
        NewFrame(e)
  }

  // ----- parts on the link ------------------------------------------------------------------

  /** The parts, if they belong to frame f. */
  function PartsOf(open: Trace<Message>, f: Frame): Trace<Message> {
    if open.Then? && open.last.frame == f then open else Start
  }

  /** The parts of the unfinished preemptable frame announced last, express frames left out. */
  function OpenParts(link: Trace<Message>): Trace<Message> {
    match link
    case Start => Start
    case Then(before, m) =>
      if m.Whole? then OpenParts(before)
      else if m.bytesSent == m.frame.length then Start
      else Then(PartsOf(OpenParts(before), m.frame), m)
  }

  /** Unfinished parts on the link of another frame carry another name. */
  ghost predicate TellsApart(open: Trace<Message>, f: Frame) {
    open.Then? && open.last.frame.name == f.name ==> open.last.frame == f
  }

  function Parts(t: Trace<Message>): nat {
    match t
    case Start => 0
    case Then(before, _) => Parts(before) + 1
  }

  function Bytes(t: Trace<Message>): nat {
    match t
    case Start => 0
    case Then(before, m) => Bytes(before) + if m.Part? then m.bytesInThisPart else 0
  }

  function LinkTime(t: Trace<Message>): int {
    match t
    case Start => 0
    case Then(before, m) => LinkTime(before) + if m.Part? then m.linkTime else 0
  }

  /** Parts of frame f, each cut at a legal instant: at least 60 bytes and followed by its own checksum. */
  ghost predicate CutPartsOf(t: Trace<Message>, f: Frame, byteTime: nat) {
    match t
    case Start => true
    case Then(before, m) =>
      && CutPartsOf(before, f, byteTime) && m.Part? && m.frame == f
      && MIN_NON_FINAL_PAYLOAD <= m.bytesInThisPart && m.bytesSent == Bytes(t)
      && Duration(m.bytesInThisPart + 4, byteTime) <= m.linkTime < Duration(m.bytesInThisPart + 5, byteTime)
  }

  /** A part that may follow the parts o of its frame: either one more cut part that leaves at least 60
      bytes, or the last part with exactly the bytes that are missing. */
  ghost predicate Follows(o: Trace<Message>, m: Message, byteTime: nat) {
    m.Part? ==>
      && CutPartsOf(o, m.frame, byteTime)
      && m.bytesSent == Bytes(o) + m.bytesInThisPart && MIN_FINAL_PAYLOAD <= m.bytesInThisPart
      && if m.bytesSent == m.frame.length
         then m.linkTime == Duration(m.bytesInThisPart + 8, byteTime)
         else CutPartsOf(Then(o, m), m.frame, byteTime) && m.bytesSent + MIN_FINAL_PAYLOAD <= m.frame.length
  }

  ghost predicate WellFormed(link: Trace<Message>, byteTime: nat) {
    match link
    case Start => true
    case Then(before, m) =>
      WellFormed(before, byteTime) &&
      (m.Part? ==> Follows(PartsOf(OpenParts(before), m.frame), m, byteTime) && TellsApart(OpenParts(before), m.frame))
  }

  /** The sender's own bookkeeping agrees with what is on the link. */
  ghost predicate Agrees(s: Sender, open: Trace<Message>, byteTime: nat) {
    match s.frame
    case None => open == Start
    case Some(f) =>
      CutPartsOf(PartsOf(open, f), f, byteTime) && s.sent == Bytes(PartsOf(open, f)) && TellsApart(open, f)
  }

  lemma MessageFollows(s: Sender, now: int, open: Trace<Message>, byteTime: nat)
    requires 0 < byteTime && Sound(s, byteTime) && s.preemptableOn && s.endTx == Some(now) && s.start <= now
    requires Agrees(s, open, byteTime)
    ensures var (s', out) := Ended(s, now, byteTime);
      && out.Some? && out.value.Part? && out.value.frame == s.frame.value
      && Follows(PartsOf(open, s.frame.value), out.value, byteTime) && TellsApart(open, s.frame.value)
      && (out.value.bytesSent == s.frame.value.length ==> s'.frame.None?)
      && (out.value.bytesSent != s.frame.value.length ==> s'.frame == s.frame && s'.sent == out.value.bytesSent)
      && (out.value.bytesSent == s.frame.value.length <==> Uncut(s, byteTime))
  {
    var bytes := PartEnds(s, byteTime);
  }

  lemma {:induction false} LinkIsWellFormed(run: Trace<Event>, byteTime: nat)
    requires 0 < byteTime && Legal(run, byteTime)
    ensures WellFormed(Link(run, byteTime), byteTime)
    ensures Agrees(SenderAfter(run, byteTime), OpenParts(Link(run, byteTime)), byteTime)
  {
    match run
    case Start =>
    case Then(before, e) =>
      LinkIsWellFormed(before, byteTime);
      var s := SenderAfter(before, byteTime);
      if e.EndTx? && s.preemptableOn {
        MessageFollows(s, e.now, OpenParts(Link(before, byteTime)), byteTime);
      }
  }

  // ----- conservation of bytes --------------------------------------------------------------

  lemma {:induction false} CutPartsAddUp(t: Trace<Message>, f: Frame, byteTime: nat)
    requires CutPartsOf(t, f, byteTime)
    ensures MIN_NON_FINAL_PAYLOAD * Parts(t) <= Bytes(t)
    ensures Duration(Bytes(t) + 4 * Parts(t), byteTime) <= LinkTime(t)
    ensures if Parts(t) == 0 then LinkTime(t) == 0 else LinkTime(t) < Duration(Bytes(t) + 5 * Parts(t), byteTime)
  {
    match t
    case Start =>
    case Then(before, m) =>
      CutPartsAddUp(before, f, byteTime);
      DurationAdds(Bytes(before) + 4 * Parts(before), m.bytesInThisPart + 4, byteTime);
      DurationAdds(Bytes(before) + 5 * Parts(before), m.bytesInThisPart + 5, byteTime);
  }

  /** The cut parts of a frame and its last one. */
  lemma LastPartAddsUp(o: Trace<Message>, last: Message, byteTime: nat)
    requires Follows(o, last, byteTime) && last.Part? && last.bytesSent == last.frame.length
    ensures var k, length, parts := Parts(o), last.frame.length, Then(o, last);
      && Bytes(parts) == length && MIN_FINAL_PAYLOAD * (k + 1) <= length
      && Duration(length + 8 + 4 * k, byteTime) <= LinkTime(parts)
      && (if k == 0 then LinkTime(parts) == Duration(length + 8, byteTime)
          else LinkTime(parts) < Duration(length + 8 + 5 * k, byteTime))
  {
    CutPartsAddUp(o, last.frame, byteTime);
    DurationAdds(Bytes(o) + 4 * Parts(o), last.bytesInThisPart + 8, byteTime);
    DurationAdds(Bytes(o) + 5 * Parts(o), last.bytesInThisPart + 8, byteTime);
  }

  /** Over every run, when a preemptable frame is finished after k preemptions, its parts carry exactly
      its length, each of them at least 60 bytes, and the link was busy with it for its length and
      preamble plus, for every preemption, four byte times and less than one more. */
  lemma FrameIsConserved(run: Trace<Event>, byteTime: nat, before: Trace<Message>, last: Message)
    requires 0 < byteTime && Legal(run, byteTime) && Link(run, byteTime) == Then(before, last)
    requires last.Part? && last.bytesSent == last.frame.length
    ensures var o := PartsOf(OpenParts(before), last.frame);
      var k, length, parts := Parts(o), last.frame.length, Then(o, last);
      && CutPartsOf(o, last.frame, byteTime)
      && Bytes(parts) == length && MIN_FINAL_PAYLOAD * (k + 1) <= length
      && Duration(length + 8 + 4 * k, byteTime) <= LinkTime(parts)
      && (if k == 0 then LinkTime(parts) == Duration(length + 8, byteTime)
          else LinkTime(parts) < Duration(length + 8 + 5 * k, byteTime))
  {
    LinkIsWellFormed(run, byteTime);
    LastPartAddsUp(PartsOf(OpenParts(before), last.frame), last, byteTime);
  }

  /** Over every run the announced number of bytes rises by at least 60 with every part and reaches the
      length of the frame with the last part only; a cut part always leaves 60 bytes. */
  lemma BytesSentRise(run: Trace<Event>, byteTime: nat, before: Trace<Message>, m: Message)
    requires 0 < byteTime && Legal(run, byteTime) && Link(run, byteTime) == Then(before, m) && m.Part?
    ensures Bytes(PartsOf(OpenParts(before), m.frame)) + MIN_NON_FINAL_PAYLOAD <= m.bytesSent
    ensures m.bytesSent == m.frame.length || m.bytesSent + MIN_FINAL_PAYLOAD <= m.frame.length
  {
    LinkIsWellFormed(run, byteTime);
  }

  /** The sender's error report is unreachable: in every run, at any time up to the end of a part, no
      more bytes than the frame has are counted. */
  lemma NeverTooManyBytes(run: Trace<Event>, byteTime: nat, now: int, sentCRC: bool)
    requires 0 < byteTime && Legal(run, byteTime)
    requires var s := SenderAfter(run, byteTime); s.preemptableOn && s.start <= now <= s.endTx.value
    ensures PayloadBytesSent(SenderAfter(run, byteTime), now, sentCRC, byteTime).Some?
  {
    var s := SenderAfter(run, byteTime);
    var bytes := PartEnds(s, byteTime);
    BytesOfMonotone(now - s.start, s.endTx.value - s.start, byteTime);
  }

  // ----- the receiver -----------------------------------------------------------------------

  /** The frame whose parts are being received, as announced. */
  datatype Receiver = Receiver(frame: Option<Frame>, bytesReceived: nat)

  datatype Delivery = Delivery(frame: Frame, express: bool)

  function Received(r: Receiver, m: Message): (Receiver, Option<Delivery>) {
    match m
    case Whole(f) => (r, Some(Delivery(f, true)))
    case Part(f, bytesSent, _, _) =>
      var frame := if r.frame.None? || r.frame.value.name != f.name then f else r.frame.value;
      if frame.length + PREAMBLE == bytesSent + 8
      then (Receiver(None, bytesSent), Some(Delivery(frame, false)))
      else (Receiver(Some(frame), bytesSent), None)
  }

  function ReceiverAfter(link: Trace<Message>): Receiver {
    match link
    case Start => Receiver(None, 0)
    case Then(before, m) => Received(ReceiverAfter(before), m).0
  }

  function Delivered(link: Trace<Message>): seq<Delivery> {
    match link
    case Start => []
    case Then(before, m) =>
      var d := Received(ReceiverAfter(before), m).1;
      Delivered(before) + if d.Some? then [d.value] else []
  }

  function Preemptable(ds: seq<Delivery>): seq<Frame> {
    if ds == [] then []
    else Preemptable(ds[..|ds| - 1]) + if ds[|ds| - 1].express then [] else [ds[|ds| - 1].frame]
  }

  lemma PreemptableSnoc(ds: seq<Delivery>, d: Delivery)
    ensures Preemptable(ds + [d]) == Preemptable(ds) + if d.express then [] else [d.frame]
  {}

  /** The receiver holds the frame of the open parts and the bytes announced of it, and nothing else. */
  ghost predicate Holds(r: Receiver, open: Trace<Message>) {
    match open
    case Start => r.frame.None?
    case Then(_, m) => m.Part? && r.frame == Some(m.frame) && r.bytesReceived == m.bytesSent
  }

  lemma {:induction false} ReceiverFollows(link: Trace<Message>, byteTime: nat)
    requires WellFormed(link, byteTime)
    ensures Holds(ReceiverAfter(link), OpenParts(link))
  {
    match link
    case Start =>
    case Then(before, m) => ReceiverFollows(before, byteTime);
  }

  /** A message is delivered exactly when it is an express frame or the last part of a frame, and then
      the frame is the one it announces. */
  lemma DeliveredWithLastPart(before: Trace<Message>, m: Message, byteTime: nat)
    requires WellFormed(Then(before, m), byteTime)
    ensures Received(ReceiverAfter(before), m).1
         == if m.Whole? then Some(Delivery(m.frame, true))
            else if m.bytesSent == m.frame.length then Some(Delivery(m.frame, false)) else None
  {
    ReceiverFollows(before, byteTime);
  }

  function Frames(f: Option<Frame>): seq<Frame> {
    if f.Some? then [f.value] else []
  }

  /** One message: the preemptable frames delivered grow by the frame just finished, if any. */
  lemma DeliverOne(link: Trace<Message>, m: Message, byteTime: nat)
    requires WellFormed(Then(link, m), byteTime)
    ensures Preemptable(Delivered(Then(link, m)))
         == Preemptable(Delivered(link)) + if m.Part? && m.bytesSent == m.frame.length then [m.frame] else []
  {
    DeliveredWithLastPart(link, m, byteTime);
    var d := Received(ReceiverAfter(link), m).1;
    if d.Some? {
      PreemptableSnoc(Delivered(link), d.value);
    }
    assert Delivered(link) + [] == Delivered(link);
  }

  /** The end of a part moves the frame from the sender to the receiver exactly if it is finished. */
  lemma EndDelivers(s: Sender, now: int, link: Trace<Message>, byteTime: nat)
    requires 0 < byteTime && Sound(s, byteTime) && s.preemptableOn && s.endTx == Some(now) && s.start <= now
    requires WellFormed(link, byteTime) && Agrees(s, OpenParts(link), byteTime)
    ensures var (s', out) := Ended(s, now, byteTime);
      && out.Some?
      && Preemptable(Delivered(Then(link, out.value))) + Frames(s'.frame) ==
        Preemptable(Delivered(link)) + Frames(s.frame)
  {
    MessageFollows(s, now, OpenParts(link), byteTime);
    DeliverOne(link, Ended(s, now, byteTime).1.value, byteTime);
  }

  ghost function LinkWith(link: Trace<Message>, ms: seq<Message>): Trace<Message> {
    if ms == [] then link else Then(link, ms[0])
  }

  function NewFrame(e: Event): seq<Frame> {
    if e.SendPreemptable? then [e.new_] else []
  }

  /** Only a new frame and the end of a part change what is under way. */
  lemma FrameUnderWay(s: Sender, e: Event, byteTime: nat)
    requires 0 < byteTime && Enabled(s, e, byteTime) && (e.EndTx? ==> !s.preemptableOn)
    ensures Frames(Step(s, e, byteTime).frame) == (if e.SendPreemptable? then [] else Frames(s.frame)) + NewFrame(e)
    ensures Sent(s, e, byteTime) == if e.SendExpress? then [Whole(e.express)] else []
  {}

  lemma OtherEventBalances(s: Sender, e: Event, link: Trace<Message>, byteTime: nat)
    requires 0 < byteTime && Enabled(s, e, byteTime) && (e.EndTx? ==> !s.preemptableOn) && WellFormed(link, byteTime)
    ensures Preemptable(Delivered(LinkWith(link, Sent(s, e, byteTime)))) == Preemptable(Delivered(link))
  {
    FrameUnderWay(s, e, byteTime);
    if e.SendExpress? {
      DeliverOne(link, Whole(e.express), byteTime);
    }
  }

  /** A new frame takes the place of the one begun; nothing else is lost or gained. */
  lemma EventBalances(s: Sender, e: Event, link: Trace<Message>, byteTime: nat)
    requires 0 < byteTime && Sound(s, byteTime) && Enabled(s, e, byteTime)
    requires WellFormed(link, byteTime) && Agrees(s, OpenParts(link), byteTime)
    ensures Preemptable(Delivered(LinkWith(link, Sent(s, e, byteTime)))) + Frames(Step(s, e, byteTime).frame)
         == Preemptable(Delivered(link)) + ((if e.SendPreemptable? then [] else Frames(s.frame)) + NewFrame(e))
  {
    if e.EndTx? && s.preemptableOn {
      EndDelivers(s, e.now, link, byteTime);
      assert LinkWith(link, Sent(s, e, byteTime)) == Then(link, Ended(s, e.now, byteTime).1.value);
      assert Frames(s.frame) + NewFrame(e) == Frames(s.frame);
    } else {
      FrameUnderWay(s, e, byteTime);
      OtherEventBalances(s, e, link, byteTime);
    }
  }

  /** Over every run the preemptable frames delivered, followed by the one under way, are the frames handed to
      the sender without those given up, in order and each once. */
  lemma {:induction false} DeliveredAreKept(run: Trace<Event>, byteTime: nat)
    requires 0 < byteTime && Legal(run, byteTime)
    ensures Preemptable(Delivered(Link(run, byteTime))) + Frames(SenderAfter(run, byteTime).frame) ==
      Kept(run, byteTime)
  {
    match run
    case Start =>
    case Then(before, e) =>
      var s, link := SenderAfter(before, byteTime), Link(before, byteTime);
      DeliveredAreKept(before, byteTime);
      LinkIsWellFormed(before, byteTime);
      EventBalances(s, e, link, byteTime);
      if e.SendPreemptable? && s.frame.Some? {
        assert WithoutLast(Preemptable(Delivered(link)) + [s.frame.value]) == Preemptable(Delivered(link));
      }
  }

  /** Kept and given up frames together are all frames. */
  lemma {:induction false} KeptOrDropped(run: Trace<Event>, byteTime: nat)
    requires 0 < byteTime && Legal(run, byteTime)
    ensures multiset(Begun(run)) == multiset(Kept(run, byteTime)) + multiset(Dropped(run, byteTime))
  {
    match run
    case Start =>
    case Then(before, e) =>
      KeptOrDropped(before, byteTime);
      var s, kept := SenderAfter(before, byteTime), Kept(before, byteTime);
      if e.SendPreemptable? && s.frame.Some? {
        DeliveredAreKept(before, byteTime);
        assert kept == WithoutLast(kept) + [s.frame.value];
      }
  }

  lemma {:induction false} NothingDropped(run: Trace<Event>, byteTime: nat)
    requires 0 < byteTime && Legal(run, byteTime) && Dropped(run, byteTime) == []
    ensures Kept(run, byteTime) == Begun(run)
  {
    match run
    case Start =>
    case Then(before, e) => NothingDropped(before, byteTime);
  }

  /** Over every run, fragmentation and reassembly undo each other, that is, the frames delivered and the one
      under way are all frames handed to the sender, in order and once each, exactly if no frame came while
      another one was begun. */
  lemma ReassemblyInvertsFragmentation(run: Trace<Event>, byteTime: nat)
    requires 0 < byteTime && Legal(run, byteTime)
    ensures Preemptable(Delivered(Link(run, byteTime))) + Frames(SenderAfter(run, byteTime).frame) == Begun(run)
       <==> Dropped(run, byteTime) == []
  {
    DeliveredAreKept(run, byteTime);
    KeptOrDropped(run, byteTime);
    if Dropped(run, byteTime) == [] {
      NothingDropped(run, byteTime);
    } else {
      assert |multiset(Begun(run))| == |multiset(Kept(run, byteTime))| + |multiset(Dropped(run, byteTime))|;
    }
  }

  lemma OneMore(run: Trace<Event>, e: Event, s: Sender, byteTime: nat)
    requires 0 < byteTime && Legal(run, byteTime) && SenderAfter(run, byteTime) == s && Enabled(s, e, byteTime)
    ensures Legal(Then(run, e), byteTime) && SenderAfter(Then(run, e), byteTime) == Step(s, e, byteTime)
    ensures Begun(Then(run, e)) == Begun(run) + NewFrame(e)
    ensures Dropped(Then(run, e), byteTime)
         == Dropped(run, byteTime) + if e.SendPreemptable? then Frames(s.frame) else []
  {}

  /** A frame of 200 bytes, the byte taking 8, is cut after 60 bytes for an express frame, and that is sent. */
  lemma CutForExpress(f: Frame) returns (run: Trace<Event>)
    requires f.length == 200
    ensures Legal(run, 8) && SenderAfter(run, 8) == Sender(Some(f), 60, false, 0, false, None)
    ensures Begun(run) == [f] && Dropped(run, 8) == []
  {
    var s := IDLE;
    run := Start;
    OneMore(run, SendPreemptable(0, f), s, 8);
    run, s := Then(run, SendPreemptable(0, f)), Begin(s, 0, f, 8);
    FirstPartCut(s, f);
    OneMore(run, Preempt(480), s, 8);
    run, s := Then(run, Preempt(480)), s.(endTx := Some(512));
    OneMore(run, EndTx(512), s, 8);
    run, s := Then(run, EndTx(512)), Sender(Some(f), 60, false, 0, false, None);
    OneMore(run, SendExpress(608, Frame(2, 64), 576), s, 8);
    run, s := Then(run, SendExpress(608, Frame(2, 64), 576)), s.(expressOn := true, endTx := Some(1184));
    OneMore(run, EndTx(1184), s, 8);
    run := Then(run, EndTx(1184));
  }

  /** The frame that comes next is not the rest of it but another preemptable one: the first is given up. */
  lemma BegunFrameCanBeDropped() returns (run: Trace<Event>)
    ensures Legal(run, 8) && Begun(run) == [Frame(0, 200), Frame(1, 200)] && Dropped(run, 8) == [Frame(0, 200)]
  {
    var before := CutForExpress(Frame(0, 200));
    OneMore(before, SendPreemptable(1280, Frame(1, 200)), Sender(Some(Frame(0, 200)), 60, false, 0, false, None), 8);
    run := Then(before, SendPreemptable(1280, Frame(1, 200)));
  }

  lemma FirstPartCut(s: Sender, f: Frame)
    requires f.length == 200 && s == Begin(IDLE, 0, f, 8)
    ensures Enabled(s, Preempt(480), 8) && Step(s, Preempt(480), 8) == s.(endTx := Some(512))
    ensures var cut := s.(endTx := Some(512));
      Enabled(cut, EndTx(512), 8) && Step(cut, EndTx(512), 8) == Sender(Some(f), 60, false, 0, false, None)
  {
    DurationIs(60, 8);
    DurationIs(64, 8);
    DurationIs(208, 8);
    DurationIs(4, 8);
    BytesOfIs(480, 8, 60);
    BytesOfIs(512, 8, 64);
  }

  /** Express frames are delivered whole and at once, wherever they come between parts. */
  lemma ExpressPassesThrough(run: Trace<Event>, byteTime: nat, now: int, f: Frame, duration: nat)
    requires 0 < byteTime && Legal(Then(run, SendExpress(now, f, duration)), byteTime)
    ensures var after := Then(run, SendExpress(now, f, duration));
      && Delivered(Link(after, byteTime)) == Delivered(Link(run, byteTime)) + [Delivery(f, true)]
      && ReceiverAfter(Link(after, byteTime)) == ReceiverAfter(Link(run, byteTime))
  {}
}
