/** EtherMACFullDuplexPreemptable as an object: preemption enabled, never on hold.  The base class is
    reduced to its three transmission states; the end of a transmission is followed by the
    inter-frame gap, and the end of the gap by handleEndIFGPeriod. */
module PreemptableMacs {
  import opened Traces
  import opened FramePreemption
  import opened Reassembly
  import opened PreemptionTiming

  datatype TxState = TxIdle | Transmitting | WaitIfg

  /** A frame from the upper layer and the input it arrived on. */
  datatype Upper = Upper(frame: Frame, express: bool)

  class PreemptableMac {
    const byteTime: nat
    var transmitState: TxState
    var curTxFrame: Option<Upper>
    var currentExpressFrame: Option<Frame>
    var transmittingExpressFrame: bool
    var transmittingPreemptableFrame: bool
    var currentPreemptableFrame: Option<Frame>
    var preemptedBytesSent: nat
    var preemptableTransmissionStart: int
    var endTxMsg: Option<int>
    var endIFGMsg: Option<int>
    var recheckForQueuedExpressFrameMsg: Option<int>
    var receivedPreemptedFrame: Option<Frame>
    var preemptedBytesReceived: nat

    ghost function Sending(): Sender
      reads this
    {
      Sender(currentPreemptableFrame, preemptedBytesSent, transmittingPreemptableFrame,
             preemptableTransmissionStart, transmittingExpressFrame, endTxMsg)
    }

    ghost function Receiving(): Receiver
      reads this
    {
      Receiver(receivedPreemptedFrame, preemptedBytesReceived)
    }

    /** The recheck for express packets is pending only for an instant of a part nobody has cut, at which
        cutting is legal. */
    ghost predicate RecheckIsLegal()
      requires 0 < byteTime
      reads this
    {
      recheckForQueuedExpressFrameMsg.Some? ==>
        && Sound(Sending(), byteTime) && transmittingPreemptableFrame && Uncut(Sending(), byteTime)
        && Enabled(Sending(), Preempt(recheckForQueuedExpressFrameMsg.value), byteTime)
    }

    /** The fields fit together, and while a frame is begun only its parts are sent as preemptable. */
    ghost predicate Valid()
      reads this
    {
      && 0 < byteTime && Sound(Sending(), byteTime) && RecheckIsLegal()
      && (transmitState.Transmitting? <==> endTxMsg.Some?) && (transmitState.WaitIfg? <==> endIFGMsg.Some?)
      && (!transmitState.Transmitting? ==> curTxFrame.None?)
    }

    /** A preemptable frame under the name of the one begun is taken for the rest of that. */
    predicate Continues(packet: Upper)
      reads this
    {
      !packet.express && currentPreemptableFrame.Some? && packet.frame.name == currentPreemptableFrame.value.name
    }

    /** Although it is another one. */
    predicate Clashes(packet: Upper)
      reads this
    {
      Continues(packet) && packet.frame != currentPreemptableFrame.value
    }

    /** The assertions of the code hold of a frame handed over at `now`: it is long enough, a frame that finds the MAC
        busy is an express frame and finds no other one being sent, and cutting is possible if it has to be cut for. */
    ghost predicate Takes(packet: Upper, now: int)
      requires Valid() && (transmittingPreemptableFrame ==> preemptableTransmissionStart <= now)
      reads this
    {
      && MIN_FRAME <= packet.frame.length
      && (transmitState.TxIdle? || (packet.express && !transmittingExpressFrame))
      && (packet.express && transmittingPreemptableFrame ==> NowPossible(Sending(), now, byteTime))
    }

    /** This frame is on its way. */
    ghost predicate Sends(packet: Upper)
      reads this
    {
      && transmitState.Transmitting?
      && if packet.express then transmittingExpressFrame && curTxFrame == Some(packet)
         else transmittingPreemptableFrame && currentPreemptableFrame == Some(packet.frame)
    }

    /** When a frame handed over at `now` starts: at once, after the gap, or, cutting the part being sent, after
        the checksum of that part and the gap. */
    function StartOf(now: int): int
      requires transmitState.WaitIfg? ==> endIFGMsg.Some?
      reads this
    {
      match transmitState
      case TxIdle => now
      case WaitIfg => endIFGMsg.value
      case Transmitting => now + Duration(CRC + GAP, byteTime)
    }

    constructor (timeOfByte: nat)
      requires 0 < timeOfByte
      ensures Valid() && byteTime == timeOfByte && Sending() == IDLE && Receiving() == Receiver(None, 0)
      ensures transmitState == TxIdle && currentExpressFrame == None && recheckForQueuedExpressFrameMsg == None
    {
      byteTime, transmitState, curTxFrame, currentExpressFrame := timeOfByte, TxIdle, None, None;
      transmittingExpressFrame, transmittingPreemptableFrame := false, false;
      currentPreemptableFrame, preemptedBytesSent, preemptableTransmissionStart := None, 0, 0;
      endTxMsg, endIFGMsg, recheckForQueuedExpressFrameMsg := None, None, None;
      receivedPreemptedFrame, preemptedBytesReceived := None, 0;
    }

    /** Starts what is in curTxFrame: an express frame, the rest of the preemptable frame that was begun, or a
        new preemptable frame, for which the begun one is given up unless they have the same name. */
    method StartFrameTransmission(now: int, express: nat)
      requires 0 < byteTime && Sound(Sending(), byteTime) && curTxFrame.Some?
      requires !transmittingExpressFrame && !transmittingPreemptableFrame && recheckForQueuedExpressFrameMsg.None?
      requires endIFGMsg.None?
      requires curTxFrame.value.express || MIN_FRAME <= curTxFrame.value.frame.length
      modifies this`transmittingExpressFrame, this`transmittingPreemptableFrame, this`currentPreemptableFrame,
               this`preemptedBytesSent, this`preemptableTransmissionStart, this`endTxMsg, this`transmitState
      ensures transmitState == Transmitting && (!old(Clashes(curTxFrame.value)) ==> Valid())
      ensures old(Clashes(curTxFrame.value)) ==>
        Sending() == Begin(old(Sending()), now, curTxFrame.value.frame, byteTime)
      ensures !old(Clashes(curTxFrame.value)) ==>
        var f := curTxFrame.value.frame;
        var e := if curTxFrame.value.express then SendExpress(now, f, express) else SendPreemptable(now, f);
        Enabled(old(Sending()), e, byteTime) && Sending() == Step(old(Sending()), e, byteTime)
    {
      ghost var e := if curTxFrame.value.express then SendExpress(now, curTxFrame.value.frame, express)
                     else SendPreemptable(now, curTxFrame.value.frame);
      if !Clashes(curTxFrame.value) {
        StepKeepsSound(Sending(), e, byteTime);
      }
      var frame := curTxFrame.value.frame;
      if curTxFrame.value.express {
        transmittingExpressFrame := true;
        endTxMsg := Some(now + express);
      } else {
        if currentPreemptableFrame.None? || currentPreemptableFrame.value.name != frame.name {
          preemptedBytesSent := 0;
          currentPreemptableFrame := Some(frame);
        }
        transmittingPreemptableFrame := true;
        preemptableTransmissionStart := now;
        var preemptedPacketLength := PartLength(frame.length, preemptedBytesSent);
        endTxMsg := Some(now + Duration(preemptedPacketLength, byteTime));
      }
      transmitState := Transmitting;
    }

    /** Ends the present part after its checksum of four bytes. */
    method PreemptCurrentFrame(now: int)
      requires Valid() && Enabled(Sending(), Preempt(now), byteTime) && recheckForQueuedExpressFrameMsg.None?
      modifies this`endTxMsg
      ensures Valid() && Sending() == Step(old(Sending()), Preempt(now), byteTime)
    {
      StepKeepsSound(Sending(), Preempt(now), byteTime);
      endTxMsg := Some(now + Duration(4, byteTime));
    }

    /** Returns the message that announces a part; express frames were announced when they started.  A
        recheck would have come before. */
    method HandleEndTxPeriod(now: int) returns (part: Option<Message>)
      requires Valid() && endTxMsg == Some(now)
      requires recheckForQueuedExpressFrameMsg.Some? ==> now <= recheckForQueuedExpressFrameMsg.value
      modifies this
      ensures Valid() && transmitState == WaitIfg && curTxFrame == None &&
        endIFGMsg == Some(now + Duration(GAP, byteTime))
      ensures currentExpressFrame == old(currentExpressFrame) && Receiving() == old(Receiving())
      ensures recheckForQueuedExpressFrameMsg == old(recheckForQueuedExpressFrameMsg) == None
      ensures Enabled(old(Sending()), EndTx(now), byteTime)
      ensures (Sending(), part) == Ended(old(Sending()), now, byteTime)
    {
      assert recheckForQueuedExpressFrameMsg.None? by {
        if recheckForQueuedExpressFrameMsg.Some? {
          NotPossibleAtEnd(Sending(), byteTime);
        }
      }
      part := None;
      if transmittingPreemptableFrame {
        EndedIs(Sending(), now, byteTime);
        var length := currentPreemptableFrame.value.length;
        var bytesSentInThisPart := BytesOf(now - preemptableTransmissionStart, byteTime) - CRC;
        preemptedBytesSent := preemptedBytesSent + bytesSentInThisPart;
        if preemptedBytesSent + 4 == length + PREAMBLE {
          bytesSentInThisPart := bytesSentInThisPart - 4;
          preemptedBytesSent := length;
        }
        part := Some(Part(currentPreemptableFrame.value, preemptedBytesSent, bytesSentInThisPart,
          now - preemptableTransmissionStart));
        if preemptedBytesSent == length {
          currentPreemptableFrame := None;
        }
      }
      transmittingExpressFrame, transmittingPreemptableFrame := false, false;
      endTxMsg, transmitState, curTxFrame := None, WaitIfg, None;
      endIFGMsg := Some(now + Duration(GAP, byteTime));
    }

    /** Chooses what to send next: the express frame that waited for the preemption, an express packet
        of the queues, the rest of the preemptable frame begun, and only then any packet of the queues.
        Returns whether the queues are asked. */
    method GetNextFrameFromQueue(expressPacketEnqueued: bool) returns (requested: bool)
      requires curTxFrame.None? && !transmittingExpressFrame
      modifies this`curTxFrame, this`currentExpressFrame
      ensures currentExpressFrame == None
      ensures curTxFrame == if old(currentExpressFrame).Some? then Some(Upper(old(currentExpressFrame).value, true))
                            else if expressPacketEnqueued || currentPreemptableFrame.None? then None
                            else Some(Upper(currentPreemptableFrame.value, false))
      ensures requested <==> curTxFrame.None?
    {
      requested := false;
      if currentExpressFrame.Some? {
        curTxFrame := Some(Upper(currentExpressFrame.value, true));
        currentExpressFrame := None;
      } else if expressPacketEnqueued {
        requested := true;
      } else if currentPreemptableFrame.Some? {
        curTxFrame := Some(Upper(currentPreemptableFrame.value, false));
      } else {
        requested := true;
      }
    }

    /** The end of the inter-frame gap: sends the next frame or waits for one. */
    method HandleEndIFGPeriod(now: int, expressPacketEnqueued: bool, express: nat) returns (requested: bool)
      requires Valid() && endIFGMsg == Some(now)
      modifies this
      ensures Valid() && (transmitState == if requested then TxIdle else Transmitting)
      ensures requested <==>
        old(currentExpressFrame).None? && (expressPacketEnqueued || old(currentPreemptableFrame).None?)
      ensures if requested then Sending() == old(Sending())
              else
                var e := if old(currentExpressFrame).None? then Resume(now)
                         else SendExpress(now, old(currentExpressFrame).value, express);
                Enabled(old(Sending()), e, byteTime) && Sending() == Step(old(Sending()), e, byteTime)
      ensures Receiving() == old(Receiving()) && recheckForQueuedExpressFrameMsg == old(recheckForQueuedExpressFrameMsg)
      ensures currentExpressFrame == None
      ensures old(currentExpressFrame).Some? ==> curTxFrame == Some(Upper(old(currentExpressFrame).value, true))
      ensures old(currentExpressFrame).None? && !requested ==>
        curTxFrame == Some(Upper(old(currentPreemptableFrame).value, false))
    {
      endIFGMsg := None;
      requested := GetNextFrameFromQueue(expressPacketEnqueued);
      if requested {
        transmitState := TxIdle;
      } else {
        StartFrameTransmission(now, express);
      }
    }

    /** A frame from the upper layer: an express frame cuts a preemptable transmission short or waits
        for the end of the gap; anything else finds the MAC idle and starts at once.  If the assertions of the
        code fail, the simulation ends. */
    method HandleUpperPacket(packet: Upper, now: int, express: nat) returns (ok: bool)
      requires Valid()
      requires transmittingPreemptableFrame ==> preemptableTransmissionStart <= now <= endTxMsg.value
      modifies this
      ensures !ok || !old(Clashes(packet)) ==> Valid()
      ensures Receiving() == old(Receiving()) && endIFGMsg == old(endIFGMsg)
      ensures ok <==> old(Takes(packet, now))
      ensures !ok ==> unchanged(this)
      ensures recheckForQueuedExpressFrameMsg ==
        if ok && packet.express then None else old(recheckForQueuedExpressFrameMsg)
      ensures ok ==>
        if old(transmittingPreemptableFrame) then
          && Enabled(old(Sending()), Preempt(now), byteTime) &&
            Sending() == Step(old(Sending()), Preempt(now), byteTime)
          && currentExpressFrame == Some(packet.frame) && curTxFrame == old(curTxFrame)
        else if old(transmitState) == WaitIfg then
          Sending() == old(Sending()) && currentExpressFrame == Some(packet.frame)
        else if old(Clashes(packet)) then
          Sending() == Begin(old(Sending()), now, packet.frame, byteTime)
        else
          var e := if packet.express then SendExpress(now, packet.frame, express)
            else SendPreemptable(now, packet.frame);
          && Enabled(old(Sending()), e, byteTime) && Sending() == Step(old(Sending()), e, byteTime)
          && currentExpressFrame == old(currentExpressFrame) && curTxFrame == Some(packet)
    {
      if packet.frame.length < MIN_FRAME {
        return false;
      }
      if transmitState != TxIdle && (!packet.express || transmittingExpressFrame) {
        return false;
      }
      if packet.express && transmittingPreemptableFrame {
        var s := Sender(currentPreemptableFrame, preemptedBytesSent, transmittingPreemptableFrame,
                        preemptableTransmissionStart, transmittingExpressFrame, endTxMsg);
        if !NowPossible(s, now, byteTime) {
          return false;
        }
      }
      if packet.express {
        recheckForQueuedExpressFrameMsg := None;
      }
      var nowPreempting := false;
      if transmittingPreemptableFrame && packet.express {
        currentExpressFrame := Some(packet.frame);
        PreemptCurrentFrame(now);
        nowPreempting := true;
      } else if packet.express && transmitState == WaitIfg {
        currentExpressFrame := Some(packet.frame);
      } else {
        curTxFrame := Some(packet);
      }
      if transmitState == TxIdle && !nowPreempting {
        StartFrameTransmission(now, express);
      }
      return true;
    }

    /** An express packet is reported while a preemptable part is being sent: it is requested now, at the
        predicted instant, or not before the part has ended.  A part that is cut already has been cut in the
        last four byte times. */
    method PacketEnqueued(now: int, expressPacketEnqueued: bool) returns (requestNow: bool)
      requires Valid()
      requires transmittingPreemptableFrame ==>
        && preemptableTransmissionStart <= now <= endTxMsg.value
        && (Uncut(Sending(), byteTime) || endTxMsg.value - Duration(4, byteTime) <= now)
      modifies this`recheckForQueuedExpressFrameMsg
      ensures Valid()
      ensures requestNow <==>
        transmittingPreemptableFrame && expressPacketEnqueued && NowPossible(Sending(), now, byteTime)
      ensures recheckForQueuedExpressFrameMsg ==
        if transmittingPreemptableFrame && expressPacketEnqueued && !requestNow &&
           LaterPossible(Sending(), now, byteTime).Some?
        then LaterPossible(Sending(), now, byteTime) else old(recheckForQueuedExpressFrameMsg)
    {
      requestNow := false;
      if transmittingPreemptableFrame && !transmittingExpressFrame && expressPacketEnqueued {
        var s := Sender(currentPreemptableFrame, preemptedBytesSent, transmittingPreemptableFrame,
                        preemptableTransmissionStart, transmittingExpressFrame, endTxMsg);
        if NowPossible(s, now, byteTime) {
          requestNow := true;
        } else {
          var next := LaterPossible(s, now, byteTime);
          if next.Some? {
            if !Uncut(s, byteTime) {
              NeverLaterOnceCut(s, now, byteTime);
            }
            LaterIsLegal(s, now, byteTime);
            recheckForQueuedExpressFrameMsg := next;
          }
        }
      }
    }

    /** The recheck for express packets, when it is due: preemption is possible, as the code asserts, and a
        packet that is requested arrives in time to cut the part. */
    method CheckForAndRequestExpressFrame(now: int, expressPacketEnqueued: bool) returns (requested: bool)
      requires Valid() && recheckForQueuedExpressFrameMsg == Some(now)
      modifies this`recheckForQueuedExpressFrameMsg
      ensures Valid() && recheckForQueuedExpressFrameMsg == None
      ensures NowPossible(Sending(), now, byteTime) && Enabled(Sending(), Preempt(now), byteTime)
      ensures requested <==> expressPacketEnqueued
    {
      recheckForQueuedExpressFrameMsg := None;
      requested := !transmittingExpressFrame && expressPacketEnqueued;
    }

    /** The receiving branch: express frames go up at once, parts are collected until the frame is
        complete. */
    method HandleMessageFromNetwork(m: Message) returns (up: Option<Delivery>)
      modifies this`receivedPreemptedFrame, this`preemptedBytesReceived
      ensures (Receiving(), up) == Received(old(Receiving()), m)
    {
      if m.Whole? {
        return Some(Delivery(m.frame, true));
      }
      if receivedPreemptedFrame.None? || receivedPreemptedFrame.value.name != m.frame.name {
        receivedPreemptedFrame := Some(m.frame);
      }
      preemptedBytesReceived := m.bytesSent;
      up := None;
      if receivedPreemptedFrame.value.length + PREAMBLE == preemptedBytesReceived + 8 {
        up := Some(Delivery(receivedPreemptedFrame.value, false));
        receivedPreemptedFrame := None;
      }
    }
  }
}
