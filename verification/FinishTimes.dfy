/** Runs of the sender in time: when a preemptable frame is finished, and what cuts cost it. */
module FinishTimes {
  import opened Traces
  import opened FramePreemption
  import opened Reassembly

  /** When the last event happened; a run starts at time 0. */
  function TimeOf(run: Trace<Event>): int {
    match run
    case Start => 0
    case Then(_, e) => e.now
  }

  predicate Starts(e: Event) {
    e.SendPreemptable? || e.Resume? || e.SendExpress?
  }

  /** Time does not go back, and between the end of a transmission and the next one there is the gap. */
  ghost predicate InTime(run: Trace<Event>, byteTime: nat) {
    match run
    case Start => true
    case Then(before, e) =>
      && InTime(before, byteTime)
      && TimeOf(before) + (if before.Then? && Starts(e) then Duration(GAP, byteTime) else 0) <= e.now
  }

  /** The frame handed over is not the one begun. */
  predicate NewTo(s: Sender, e: Event) {
    e.SendPreemptable? && s.frame != Some(e.new_)
  }

  /** When the preemptable frame begun last was started. */
  ghost function BegunAt(run: Trace<Event>, byteTime: nat): int
    requires 0 < byteTime && Legal(run, byteTime)
  {
    match run
    case Start => 0
    case Then(before, e) => if NewTo(SenderAfter(before, byteTime), e) then e.now else BegunAt(before, byteTime)
  }

  /** The end of a part that leaves its frame begun. */
  ghost predicate EndsCut(s: Sender, e: Event, byteTime: nat)
    requires 0 < byteTime && Enabled(s, e, byteTime)
  {
    e.EndTx? && s.preemptableOn && Step(s, e, byteTime).frame.Some?
  }

  /** How often the frame begun last has been cut. */
  ghost function Cuts(run: Trace<Event>, byteTime: nat): nat
    requires 0 < byteTime && Legal(run, byteTime)
  {
    match run
    case Start => 0
    case Then(before, e) =>
      var s := SenderAfter(before, byteTime);
      if NewTo(s, e) then 0 else Cuts(before, byteTime) + if EndsCut(s, e, byteTime) then 1 else 0
  }

  /** Each cut costs the checksum of the part and a gap. */
  const CUT := CRC + GAP

  /** A part starts at once, if it is the first, and otherwise no earlier than what was sent and cut took; after
      a part that was cut the gap is still to come. */
  ghost predicate Behind(s: Sender, begun: int, cuts: nat, time: int, byteTime: nat) {
    s.frame.Some? ==>
      && (cuts == 0 ==> s.preemptableOn && s.start == begun && s.sent == 0)
      && if s.preemptableOn then begun + Duration(s.sent + CUT * cuts, byteTime) <= s.start <= time
         else 0 < cuts && begun + Duration(s.sent + CUT * cuts - GAP, byteTime) <= time
  }

  lemma EndKeepsBehind(s: Sender, begun: int, cuts: nat, now: int, byteTime: nat)
    requires 0 < byteTime && Sound(s, byteTime) && s.preemptableOn && s.endTx == Some(now)
    requires Behind(s, begun, cuts, now, byteTime)
    ensures var s' := Ended(s, now, byteTime).0;
      s'.frame.Some? ==> Behind(s', begun, cuts + 1, now, byteTime)
  {
    var bytes := PartEnds(s, byteTime);
    var s' := Ended(s, now, byteTime).0;
    if s'.frame.Some? {
      DurationAdds(s.sent + CUT * cuts, bytes + CRC, byteTime);
    }
  }

  lemma StartKeepsBehind(s: Sender, begun: int, cuts: nat, time: int, e: Event, byteTime: nat)
    requires 0 < byteTime && Sound(s, byteTime) && Enabled(s, e, byteTime) && Starts(e) && !NewTo(s, e)
    requires Behind(s, begun, cuts, time, byteTime) && (s.frame.Some? ==> time + Duration(GAP, byteTime) <= e.now)
    ensures Behind(Step(s, e, byteTime), begun, cuts, e.now, byteTime)
  {
    if s.frame.Some? {
      DurationAdds(s.sent + CUT * cuts - GAP, GAP, byteTime);
    }
  }

  lemma StepKeepsBehind(s: Sender, begun: int, cuts: nat, time: int, e: Event, byteTime: nat)
    requires 0 < byteTime && Sound(s, byteTime) && Enabled(s, e, byteTime) && Behind(s, begun, cuts, time, byteTime)
    requires time <= e.now && (Starts(e) && s.frame.Some? ==> time + Duration(GAP, byteTime) <= e.now)
    ensures Behind(Step(s, e, byteTime), if NewTo(s, e) then e.now else begun,
                   if NewTo(s, e) then 0 else cuts + if EndsCut(s, e, byteTime) then 1 else 0, e.now, byteTime)
  {
    if NewTo(s, e) {
    } else if Starts(e) {
      StartKeepsBehind(s, begun, cuts, time, e, byteTime);
    } else if e.EndTx? && s.preemptableOn {
      EndKeepsBehind(s, begun, cuts, e.now, byteTime);
    }
  }

  lemma {:induction false} RunIsBehind(run: Trace<Event>, byteTime: nat)
    requires 0 < byteTime && Legal(run, byteTime) && InTime(run, byteTime)
    ensures Behind(SenderAfter(run, byteTime), BegunAt(run, byteTime), Cuts(run, byteTime), TimeOf(run), byteTime)
  {
    match run
    case Start =>
    case Then(before, e) =>
      RunIsBehind(before, byteTime);
      StepKeepsBehind(SenderAfter(before, byteTime), BegunAt(before, byteTime), Cuts(before, byteTime),
        TimeOf(before), e, byteTime);
  }

  lemma FinishOf(s: Sender, begun: int, cuts: nat, t: int, byteTime: nat)
    requires 0 < byteTime && Sound(s, byteTime) && s.preemptableOn && s.endTx == Some(t) && s.start <= t
    requires Behind(s, begun, cuts, s.start, byteTime) && Ended(s, t, byteTime).0.frame.None?
    ensures var whole := begun + Duration(s.frame.value.length + PREAMBLE, byteTime);
      (t == whole <==> cuts == 0) && whole + Duration(CUT * cuts, byteTime) <= t
  {
    var length := s.frame.value.length;
    var bytes := PartEnds(s, byteTime);
    assert Uncut(s, byteTime);
    DurationAdds(s.sent + CUT * cuts, length + PREAMBLE - s.sent, byteTime);
    DurationAdds(length + PREAMBLE, CUT * cuts, byteTime);
    DurationRises(0, CUT * cuts, byteTime);
  }

  /** The run is about to finish a preemptable frame at time t. */
  ghost predicate Finishes(before: Trace<Event>, t: int, byteTime: nat)
    requires 0 < byteTime
  {
    && Legal(Then(before, EndTx(t)), byteTime) && InTime(before, byteTime)
    && SenderAfter(before, byteTime).preemptableOn && SenderAfter(Then(before, EndTx(t)), byteTime).frame.None?
  }

  /** How much later than after the bytes and the preamble of the frame it is finished. */
  ghost function Lateness(before: Trace<Event>, t: int, byteTime: nat): int
    requires 0 < byteTime && Finishes(before, t, byteTime)
  {
    t - BegunAt(before, byteTime) - Duration(SenderAfter(before, byteTime).frame.value.length + PREAMBLE, byteTime)
  }

  /** Over every run, a preemptable frame is finished when its bytes and preamble have gone since it was begun,
      exactly if it was never cut; with k cuts no earlier than 16 byte times for each of them after that. */
  lemma FinishedOnTimeIff(before: Trace<Event>, t: int, byteTime: nat)
    requires 0 < byteTime && Finishes(before, t, byteTime)
    ensures 0 <= Duration(CUT * Cuts(before, byteTime), byteTime) <= Lateness(before, t, byteTime)
    ensures Lateness(before, t, byteTime) == 0 <==> Cuts(before, byteTime) == 0
  {
    RunIsBehind(before, byteTime);
    FinishOf(SenderAfter(before, byteTime), BegunAt(before, byteTime), Cuts(before, byteTime), t, byteTime);
  }

  // ----- no bound on the lateness of a cut frame --------------------------------------------

  /** A frame of 200 bytes begun at time 0, the byte taking 8, cut after 60 bytes, and n express frames of 64
      bytes sent before it goes on. */
  lemma {:induction false} HeldUp(n: nat) returns (run: Trace<Event>)
    ensures Legal(run, 8) && InTime(run, 8) && TimeOf(run) == 512 + 672 * n && run.Then?
    ensures SenderAfter(run, 8) == Sender(Some(Frame(0, 200)), 60, false, 0, false, None)
    ensures BegunAt(run, 8) == 0 && Cuts(run, 8) == 1
  {
    DurationIs(GAP, 8);
    if n == 0 {
      run := CutOnce();
    } else {
      var before := HeldUp(n - 1);
      var t := TimeOf(before) + 96;
      var s := SenderAfter(before, 8);
      OneMore(before, SendExpress(t, Frame(2, 64), 576), s, 8);
      run := Then(before, SendExpress(t, Frame(2, 64), 576));
      OneMore(run, EndTx(t + 576), s.(expressOn := true, endTx := Some(t + 576)), 8);
      run := Then(run, EndTx(t + 576));
    }
  }

  lemma CutOnce() returns (run: Trace<Event>)
    ensures Legal(run, 8) && InTime(run, 8) && TimeOf(run) == 512 && run.Then?
    ensures SenderAfter(run, 8) == Sender(Some(Frame(0, 200)), 60, false, 0, false, None)
    ensures BegunAt(run, 8) == 0 && Cuts(run, 8) == 1
  {
    var s, f := IDLE, Frame(0, 200);
    run := Start;
    OneMore(run, SendPreemptable(0, f), s, 8);
    run, s := Then(run, SendPreemptable(0, f)), Begin(s, 0, f, 8);
    FirstPartCut(s, f);
    OneMore(run, Preempt(480), s, 8);
    run, s := Then(run, Preempt(480)), s.(endTx := Some(512));
    OneMore(run, EndTx(512), s, 8);
    run := Then(run, EndTx(512));
  }

  /** However late, there is a run in which the last part of that frame ends later still. */
  lemma CutFrameEndsArbitrarilyLate(late: nat) returns (before: Trace<Event>, t: int)
    ensures Finishes(before, t, 8) && SenderAfter(before, 8).frame == Some(Frame(0, 200))
    ensures BegunAt(before, 8) == 0 && late < t
  {
    var held := HeldUp(late);
    var s := SenderAfter(held, 8);
    DurationIs(GAP, 8);
    DurationIs(148, 8);
    t := TimeOf(held) + 96 + 1184;
    OneMore(held, Resume(t - 1184), s, 8);
    before := Then(held, Resume(t - 1184));
    var going := Begin(s, t - 1184, Frame(0, 200), 8);
    var bytes := PartEnds(going, 8);
    OneMore(before, EndTx(t), going, 8);
  }
}
