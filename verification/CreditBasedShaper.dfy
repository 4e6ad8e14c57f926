/** CreditBasedShaper as an object.  A handler is given the time and what the gate and the queue
    answer, and returns whether it tells the gate of a packet. */
module CreditBasedShapers {
  import opened Traces
  import opened CreditShaping

  class CreditBasedShaper {
    const port: Port
    var credit: real
    var state: State
    var lastEventTimestamp: real
    var endSpendingCredit: Option<real>
    var reachedZeroCredit: Option<real>

    ghost function View(): Shaper
      reads this
    {
      Shaper(credit, state, lastEventTimestamp, endSpendingCredit, reachedZeroCredit)
    }

    ghost predicate Valid()
      reads this
    {
      port.Valid() && Sound(port, View())
    }

    constructor (p: Port)
      requires p.Valid()
      ensures Valid() && port == p && View() == FRESH
    {
      port, credit, state, lastEventTimestamp := p, 0.0, Idle, 0.0;
      endSpendingCredit, reachedZeroCredit := None, None;
    }

    method UpdateState(newState: State, now: real)
      modifies this`state, this`lastEventTimestamp
      ensures state == newState && lastEventTimestamp == now
    {
      state, lastEventTimestamp := newState, now;
    }

    /** Time only moves on. */
    method EarnCredits(time: real)
      requires port.Valid() && 0.0 <= time
      modifies this`credit
      ensures credit == old(credit) + Earned(port, time) && old(credit) <= credit
    {
      SlopesPositive(port);
      EarnedRises(port, time);
      credit := credit + CreditsForTime(port.IdleSlope(), time);
    }

    method SpendForPacket(bits: nat)
      requires port.Valid()
      modifies this`credit
      ensures credit == old(credit) - Spent(port, bits) && credit <= old(credit)
    {
      SlopesPositive(port);
      SpentIs(port, bits);
      credit := credit - CreditsForTime(port.SendSlope(), TransmissionTime(port, bits));
    }

    method ResetCredit()
      modifies this`credit
      ensures credit == 0.0
    {
      credit := 0.0;
    }

    /** The timer is not pending, and below zero there is credit to wait for. */
    method ScheduleZeroCredit(now: real)
      requires port.Valid() && credit < 0.0 && reachedZeroCredit.None?
      modifies this`reachedZeroCredit
      ensures reachedZeroCredit == Some(ZeroTimer(port, now, credit)) && now < reachedZeroCredit.value
    {
      SlopesPositive(port);
      ZeroTimerIsSound(port, View(), now);
      reachedZeroCredit := Some(now + TimeForCredits(port.IdleSlope(), 0.0 - credit));
    }

    method HandleGateStateChanged(now: real, gateOpen: bool, packetReady: bool)
      requires Valid() && Enabled(View(), Event(now, gateOpen, packetReady, GateStateChanged))
      modifies this
      ensures Valid() && View() == OnGateStateChanged(port, old(View()), now, gateOpen, packetReady)
      ensures old(state) != EarnCredit && state == EarnCredit ==> gateOpen && packetReady && credit == old(credit)
      ensures gateOpen && packetReady && old(state) == Idle ==> state == EarnCredit
    {
      StepKeepsSound(port, View(), Event(now, gateOpen, packetReady, GateStateChanged));
      CreditPositiveIff(credit);
      if gateOpen {
        if state == Idle && packetReady {
          UpdateState(EarnCredit, now);
          if !CreditPositive(credit) {
            ScheduleZeroCredit(now);
          }
        }
      } else if state == EarnCredit {
        reachedZeroCredit := None;
        EarnCredits(now - lastEventTimestamp);
        UpdateState(Idle, now);
      }
    }

    /** The code asserts that a packet is ready; otherwise the simulation ends. */
    method HandlePacketEnqueued(now: real, gateOpen: bool, packetReady: bool) returns (ok: bool, tellGate: bool)
      requires Valid() && Enabled(View(), Event(now, gateOpen, packetReady, GateStateChanged))
      modifies this
      ensures Valid() && ok == packetReady && (!ok ==> View() == old(View()) && !tellGate)
      ensures ok ==>
        && Enabled(old(View()), Event(now, gateOpen, true, PacketEnqueued))
        && View() == OnPacketEnqueued(port, old(View()), now, gateOpen)
        && tellGate == Notifies(port, old(View()), Event(now, gateOpen, true, PacketEnqueued))
      ensures ok ==> (tellGate <==> -1.0 < credit)
    {
      ok, tellGate := packetReady, false;
      if !packetReady {
        return;
      }
      StepKeepsSound(port, View(), Event(now, gateOpen, true, PacketEnqueued));
      if state == Idle && gateOpen {
        UpdateState(EarnCredit, now);
      } else if state == EarnCredit {
        reachedZeroCredit := None;
        EarnCredits(now - lastEventTimestamp);
        UpdateState(EarnCredit, now);
      }
      CreditPositiveIff(credit);
      if state == EarnCredit && !CreditPositive(credit) {
        ScheduleZeroCredit(now);
      }
      tellGate := CreditPositive(credit);
    }

    method HandleSendPacket(now: real, bits: nat)
      requires Valid() && Enabled(View(), Event(now, true, true, SendPacket(bits)))
      modifies this
      ensures Valid() && View() == OnSendPacket(port, old(View()), now, bits)
      ensures endSpendingCredit.Some? && now <= endSpendingCredit.value
    {
      StepKeepsSound(port, View(), Event(now, true, true, SendPacket(bits)));
      SpentIs(port, bits);
      if state == EarnCredit {
        EarnCredits(now - lastEventTimestamp);
      }
      SpendForPacket(bits);
      endSpendingCredit := Some(now + TransmissionTime(port, bits));
      UpdateState(SpendCredit, now);
    }

    method HandleEndSpendingCredit(now: real, gateOpen: bool, packetReady: bool)
      requires Valid() && endSpendingCredit == Some(now)
      modifies this
      ensures Valid() && View() == OnEndSpending(port, old(View()), now, gateOpen, packetReady)
    {
      StepKeepsSound(port, View(), Event(now, gateOpen, packetReady, EndSpending));
      endSpendingCredit := None;
      if !packetReady && CreditPositive(credit) {
        ResetCredit();
        UpdateState(Idle, now);
      } else if packetReady && gateOpen {
        UpdateState(EarnCredit, now);
        if credit < 0.0 {
          ScheduleZeroCredit(now);
        }
      } else {
        UpdateState(Idle, now);
      }
    }

    /** The timer has fired when the credit is exactly zero. */
    method HandleZeroCreditReached(now: real, packetReady: bool) returns (tellGate: bool)
      requires Valid() && reachedZeroCredit == Some(now)
      modifies this
      ensures Valid() && View() == OnZeroReached(port, old(View()), now)
      ensures old(state) == EarnCredit && credit == 0.0 && tellGate == packetReady
    {
      StepKeepsSound(port, View(), Event(now, true, packetReady, ZeroReached));
      reachedZeroCredit := None;
      EarnCredits(now - lastEventTimestamp);
      UpdateState(EarnCredit, now);
      CreditPositiveIff(credit);
      tellGate := CreditPositive(credit) && packetReady;
    }

    /** Offered only with credit above -1. */
    method IsEmpty(queueIsEmpty: bool) returns (empty: bool)
      ensures !empty <==> -1.0 < credit && !queueIsEmpty
    {
      CreditPositiveIff(credit);
      empty := !CreditPositive(credit) || queueIsEmpty;
    }
  }
}
