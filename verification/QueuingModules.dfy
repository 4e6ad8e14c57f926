/** The modules of the pipeline as objects.  A scheduled self-message is a flag: cancelling it and
    scheduling it again at the same instant leaves one message pending. */
module QueuingModules {
  import opened Traces
  import opened LengthAwareQueues
  import opened Pipeline

  /** TransmissionSelection: chooses a gate and keeps the MAC's request until it can be met. */
  class TransmissionSelection {
    /** The transmission gates with what is behind them; the last one has the highest priority. */
    var tGates: seq<Lane>
    var packetRequestedFromUs: bool
    var packetRequestedFromInputs: bool
    var requestPacketMsg: bool
    var packetEnqueuedMsg: bool

    ghost function View(): Port
      reads this
    {
      Port(tGates, packetEnqueuedMsg, requestPacketMsg, packetRequestedFromUs, packetRequestedFromInputs)
    }

    constructor (gates: seq<Lane>)
      ensures View() == Port(gates, false, false, false, false)
    {
      tGates := gates;
      packetRequestedFromUs, packetRequestedFromInputs := false, false;
      requestPacketMsg, packetEnqueuedMsg := false, false;
    }

    /** Requests a packet from the best gate that has one. */
    method SchedulePacket() returns (success: bool)
      modifies this`tGates
      ensures success == Choice(old(tGates)).Some?
      ensures tGates == Requested(old(tGates))
    {
      var i: nat := |tGates|;
      while i != 0
        invariant i <= |tGates| && tGates == old(tGates)
        invariant Highest(tGates, true, |tGates|) == Highest(tGates, true, i)
      {
        i := i - 1;
        if tGates[i].express && Ready(tGates[i]) {
          tGates := tGates[i := tGates[i].(gateRequest := true)];
          return true;
        }
      }
      i := |tGates|;
      while i != 0
        invariant i <= |tGates| && tGates == old(tGates)
        invariant Highest(tGates, false, |tGates|) == Highest(tGates, false, i)
      {
        i := i - 1;
        if Ready(tGates[i]) {
          tGates := tGates[i := tGates[i].(gateRequest := true)];
          return true;
        }
      }
      return false;
    }

    /** A second request before the first is answered is accepted here and rejected when it is served. */
    method RequestPacket()
      modifies this
      ensures View() == Step(old(View()), MacRequest)
    {
      requestPacketMsg := true;
    }

    /** The module supports one request at a time and reports an error otherwise; nothing else can fail. */
    method HandleRequestPacketEvent() returns (ok: bool)
      requires requestPacketMsg && OneToken(View())
      modifies this
      ensures ok <==> Enabled(old(View()), SelectionRequest)
      ensures View() == if ok then Step(old(View()), SelectionRequest) else old(View()).(request := false)
    {
      requestPacketMsg := false;
      if packetRequestedFromUs {
        return false;
      }
      assert !packetRequestedFromUs && !packetRequestedFromInputs;
      packetRequestedFromUs := true;
      packetRequestedFromInputs := true;
      var success := SchedulePacket();
      if success {
        packetRequestedFromInputs := false;
      }
      return true;
    }

    /** Either meets a waiting request, or tells the MAC, which may then ask. */
    method HandlePacketEnqueuedEvent() returns (notifyMac: bool)
      requires Enabled(View(), SelectionNote)
      modifies this
      ensures View() == Step(old(View()), SelectionNote)
      ensures notifyMac <==> !old(packetRequestedFromInputs) && !old(packetRequestedFromUs)
    {
      packetEnqueuedMsg := false;
      notifyMac := false;
      if packetRequestedFromInputs {
        var success := SchedulePacket();
        if success {
          packetRequestedFromInputs := false;
        }
      } else if !packetRequestedFromUs {
        notifyMac := true;
      }
    }

    /** A packet arrives from gate i and goes on to the express or the preemptable input of the MAC. */
    method HandleMessage(i: nat) returns (packet: Packet, express: bool)
      requires Enabled(View(), ThroughSelection(i))
      modifies this
      ensures View() == Step(old(View()), ThroughSelection(i))
      ensures packet == old(tGates)[i].toSelection[0] && express == old(tGates)[i].express
    {
      packet, express := tGates[i].toSelection[0], tGates[i].express;
      packetRequestedFromUs := false;
      tGates := tGates[i := tGates[i].(toSelection := tGates[i].toSelection[1..])];
    }

    method IsEmpty() returns (empty: bool)
      ensures empty <==> forall i :: 0 <= i < |tGates| ==> !Ready(tGates[i])
    {
      var i := 0;
      while i < |tGates|
        invariant 0 <= i <= |tGates|
        invariant forall j :: 0 <= j < i ==> !Ready(tGates[j])
      {
        if Ready(tGates[i]) {
          return false;
        }
        i := i + 1;
      }
      return true;
    }

    method HasExpressPacketEnqueued() returns (has: bool)
      ensures has <==> exists i :: 0 <= i < |tGates| && tGates[i].express && Ready(tGates[i])
    {
      var i := 0;
      while i < |tGates|
        invariant 0 <= i <= |tGates|
        invariant forall j :: 0 <= j < i ==> !(tGates[j].express && Ready(tGates[j]))
      {
        if tGates[i].express && Ready(tGates[i]) {
          return true;
        }
        i := i + 1;
      }
      return false;
    }
  }

  /** What the events of gate i tell the selection. */
  lemma GateReports(p: Port, i: nat)
    requires i < |p.lanes|
    ensures Enabled(p, GateNote(i)) ==>
      Step(p, GateNote(i)) ==
        p.(lanes := p.lanes[i := LaneStep(p.lanes[i], GateNote(0))], note := p.note || p.lanes[i].open)
    ensures Enabled(p, GateChanged(i)) ==>
      Step(p, GateChanged(i)) ==
        p.(lanes := p.lanes[i := LaneStep(p.lanes[i], GateChanged(0))], note := p.note || Ready(p.lanes[i]))
  {}

  /** TransmissionGate, hold and release being off. */
  class TransmissionGate {
    var gateOpen: bool
    var requestPacketMsg: bool
    var packetEnqueuedMsg: bool
    var gateStateChangedMsg: bool

    /** The lane with this object as its gate. */
    ghost function In(lane: Lane): Lane
      reads this
    {
      lane.(open := gateOpen, gateRequest := requestPacketMsg, gateNote := packetEnqueuedMsg,
        gateChanged := gateStateChangedMsg)
    }

    constructor ()
      ensures gateOpen && !requestPacketMsg && !packetEnqueuedMsg && !gateStateChangedMsg
    {
      gateOpen, requestPacketMsg, packetEnqueuedMsg, gateStateChangedMsg := true, false, false, false;
    }

    /** A change is announced; an open gate that is released without one tells the selection at once. */
    method SetGateState(open: bool, release: bool, queue: seq<Packet>, maxTransferableBits: nat, ghost lane: Lane)
      returns (notifySelection: bool)
      modifies this
      ensures In(lane) == GateSet(old(In(lane)), open, lane.limit)
      ensures notifySelection <==> release && old(gateOpen) && open && !Blocked(queue, maxTransferableBits)
      ensures notifySelection ==> !IsEmpty(queue, maxTransferableBits)
    {
      var changed := gateOpen != open;
      gateOpen := open;
      notifySelection := false;
      if changed {
        gateStateChangedMsg := true;
      } else if release && open && !Blocked(queue, maxTransferableBits) {
        notifySelection := true;
      }
    }

    predicate IsEmpty(queue: seq<Packet>, maxTransferableBits: nat)
      reads this
    {
      !gateOpen || Blocked(queue, maxTransferableBits)
    }

    method PacketEnqueued(ghost lane: Lane)
      modifies this
      ensures In(lane) == old(In(lane)).(gateNote := true)
    {
      packetEnqueuedMsg := true;
    }

    method RequestPacket(ghost lane: Lane)
      modifies this
      ensures In(lane) == old(In(lane)).(gateRequest := true)
    {
      requestPacketMsg := true;
    }

    /** Passes the notification on, but only while the gate is open; port p is any with this gate in lane i. */
    method HandlePacketEnqueuedEvent(ghost lane: Lane, ghost p: Port, ghost i: nat) returns (notifySelection: bool)
      modifies this
      ensures In(lane) == LaneStep(old(In(lane)), GateNote(0))
      ensures notifySelection == old(gateOpen)
      ensures i < |p.lanes| && p.lanes[i] == old(In(lane)) && Enabled(p, GateNote(i)) ==>
        Step(p, GateNote(i)) == p.(lanes := p.lanes[i := In(lane)], note := p.note || notifySelection)
    {
      packetEnqueuedMsg := false;
      notifySelection := gateOpen;
      if i < |p.lanes| && Enabled(p, GateNote(i)) {
        GateReports(p, i);
      }
    }

    /** An open gate reports what it may let through now; the algorithm is told in either case. */
    method HandleGateStateChangedEvent(queue: seq<Packet>, maxTransferableBits: nat, ghost lane: Lane, ghost p: Port,
                                       ghost i: nat)
      returns (notifySelection: bool, notifyAlgorithm: bool)
      modifies this
      ensures In(lane) == LaneStep(old(In(lane)), GateChanged(0))
      ensures notifySelection <==> old(gateOpen) && !Blocked(queue, maxTransferableBits)
      ensures notifyAlgorithm
      ensures lane.queue == queue && lane.limit == maxTransferableBits ==>
        i < |p.lanes| && p.lanes[i] == old(In(lane)) && Enabled(p, GateChanged(i)) ==>
        Step(p, GateChanged(i)) == p.(lanes := p.lanes[i := In(lane)], note := p.note || notifySelection)
    {
      gateStateChangedMsg := false;
      notifySelection := gateOpen && !Blocked(queue, maxTransferableBits);
      notifyAlgorithm := true;
      if i < |p.lanes| && Enabled(p, GateChanged(i)) {
        GateReports(p, i);
      }
    }

    /** Asks the algorithm for a packet within the present limit. */
    method HandleRequestPacketEvent(queue: seq<Packet>, maxTransferableBits: nat, ghost lane: Lane)
      returns (maxBits: nat)
      requires !IsEmpty(queue, maxTransferableBits)
      modifies this
      ensures maxBits == maxTransferableBits
      ensures lane.limit == maxTransferableBits ==>
        In(lane).(algorithmRequest := Some(maxBits)) == LaneStep(old(In(lane)), GateRequest(0))
    {
      requestPacketMsg := false;
      maxBits := maxTransferableBits;
    }
  }

  /** TSAlgorithm, as used for strict priority: passes notifications down and requests up, and ignores
      changes of the gate. */
  class TSAlgorithm {
    var packetEnqueuedMsg: bool
    var requestPacketMsg: bool
    var gateStateChangedMsg: bool
    var maxTransmittableBits: nat

    ghost function In(lane: Lane): Lane
      reads this
    {
      lane.(algorithmNote := packetEnqueuedMsg,
        algorithmRequest := if requestPacketMsg then Some(maxTransmittableBits) else None)
    }

    constructor ()
      ensures !packetEnqueuedMsg && !requestPacketMsg && !gateStateChangedMsg
    {
      packetEnqueuedMsg, requestPacketMsg, gateStateChangedMsg, maxTransmittableBits := false, false, false, 0;
    }

    method PacketEnqueued(ghost lane: Lane)
      modifies this`packetEnqueuedMsg
      ensures In(lane) == old(In(lane)).(algorithmNote := true)
    {
      packetEnqueuedMsg := true;
    }

    method HandlePacketEnqueuedEvent(ghost lane: Lane) returns (notifyGate: bool)
      modifies this`packetEnqueuedMsg
      ensures notifyGate && In(lane).(gateNote := true) == LaneStep(old(In(lane)), AlgorithmNote(0))
    {
      packetEnqueuedMsg := false;
      notifyGate := true;
    }

    method GateStateChanged(ghost lane: Lane)
      modifies this`gateStateChangedMsg
      ensures gateStateChangedMsg && In(lane) == old(In(lane))
    {
      gateStateChangedMsg := true;
    }

    method HandleGateStateChangedEvent(ghost lane: Lane)
      modifies this`gateStateChangedMsg
      ensures !gateStateChangedMsg && In(lane) == old(In(lane))
    {
      gateStateChangedMsg := false;
    }

    /** Asserts that the queue has a packet within the limit, as it has when the gate asks. */
    method RequestPacket(maxBits: nat, queue: seq<Packet>, ghost lane: Lane)
      requires !Blocked(queue, maxBits)
      modifies this`requestPacketMsg, this`maxTransmittableBits
      ensures In(lane) == old(In(lane)).(algorithmRequest := Some(maxBits))
      ensures requestPacketMsg && maxTransmittableBits == maxBits
      ensures lane.queue == queue ==> Granted(In(lane).(queueRequest := None))
    {
      maxTransmittableBits := maxBits;
      requestPacketMsg := true;
    }

    method HandleRequestPacketEvent(ghost lane: Lane) returns (maxBits: nat)
      requires requestPacketMsg
      modifies this`requestPacketMsg
      ensures In(lane).(queueRequest := Some(maxBits)) == LaneStep(old(In(lane)), AlgorithmRequest(0))
      ensures maxBits == maxTransmittableBits
    {
      requestPacketMsg := false;
      maxBits := maxTransmittableBits;
    }
  }
}
