# A model of NeSTiNg's switch port

NeSTiNg simulates a port of an IEEE 802.1Q bridge with the mechanisms of time-sensitive networking.  This
project models the parts of it that decide when something happens, and proves what they promise each other:

* **Clock** (`EagerClock`, `LazyClock`, `ClockRuns`).  `ClockBase` keeps a list of relative countdowns and looks
  at the time only when asked.  It is proved indistinguishable from a clock that ticks every period and keeps a
  map from absolute tick to listeners; of that clock it is proved what subscribers rely on, delivery once and in the
  order of subscription included.
* **Gate controller** (`GateSchedules`, `Lookahead`, `LookaheadEnds`, `GateController`).  The gates follow the
  schedule in force.  The lookahead is measured against the future that the controller's own tick produces.
* **Queue and guard band** (`LengthAwareQueue`, `GuardBand`, `GuardedTransmission`).  The bounded queue with its bit
  accounts, and the promise that what leaves it passes the gate in time.  In local time that is always so; on the
  link it is so exactly for frames that start at once and are not cut (`MacKeepsBoundIff`,
  `PreemptableKeepsBoundIff`), and `RequestThroughGate` says how late others are.
* **Request and notify pipeline** (`Pipeline`, `PacketFlow`, `QueuingModules`, `GateEvents`).  The deferred events of
  queues, algorithms, gates and transmission selection at one instant: no wake-up is lost in any order, under any
  schedule in force or pending and any loaded meanwhile that raises the limit of no open gate, and in the kernel's
  order, which serves the selection last, no assertion fails.  No packet that has found room is lost or doubled, and
  none overtakes another one of its lane.
* **Frame preemption** (`FramePreemption`, `Reassembly`, `PreemptionTiming`, `FinishTimes`, `PreemptableMac`).  The
  byte accounts of a frame cut any number of times, its reassembly, when a cut is possible (IEEE 802.3, section
  99.4) and what it costs.  `AskedExpress` joins MAC and pipeline: what answers a request to cut is an express packet.
* **Credit-based shaper** (`CreditShaping`, `CreditRuns`, `CreditBasedShaper`).  The ledger of the credit, the
  rate bound and the zero-credit timer (IEEE 802.1Q, section 8.6.8.2).
* **Host traffic** (`HostTraffic`, `VlanEtherTrafGenSched`).  Relative distances that add up to absolute send
  times.

Modules that update their fields are classes here.  Each of their methods is tied to a function on values, and
the runs of these functions carry the theorems.  A run is a `Trace` (`Traces`): any finite sequence of events
that the simulation kernel can produce.  The kernel is reduced to its pending events and a time; time is an
integer in the clock and the MAC, a number of clock ticks in the gate controller, and exact real in the shaper.

## Where the code does not do what it says

* The prediction of a later preemption (`EtherMACFullDuplexPreemptable.cc:542-552`) asks for 4 bytes more than the
  rule it predicts, and counts whole bytes from the moment of asking.  Hence it refuses some frames that could be
  cut (`RefusesTooOftenIff`) and is late off byte boundaries (`LaterIsEarliestIff`).
* `CreditBasedShaper.h:149` calls credit positive from zero on; the test passes for everything above -1
  (`CreditPositiveIff`).  In that window the zero-credit timer may be missing (`TimerPendingIff`), and after a
  transmission it may be pending while the shaper already offers its next packet, which then fails an assertion
  (`SendAssertsHoldIff`, `SendAssertCanFail`), though not if the gap between frames earns a bit
  (`GapClosesWindow`).
* The guard band accounts for a frame that starts when its packet is let out.  An express frame that has to cut a
  part starts 16 byte times later and can miss the closing of its gate by more than a clock period
  (`CuttingFrameCanBeLate`), and a preemptable frame that is cut by any time (`CutFrameCanBeLate`).  Nor does it
  account for the padding of packets under 336 bits (`ShortPacketsExceed`), or for a schedule that is loaded while
  the frame is on its way (`LoadedScheduleCanCloseEarlier`).
* A schedule loaded at run time (`ScheduleSwap.cc:72`) can give an open gate more room without any announcement, and
  a packet that fits now is not reported (`LoadCanLoseWakeUp`, `RaiseMattersIff`).
* The queue announces packets it drops, too, and packets that never fit; the shaper asserts that a packet is ready
  (`CreditBasedShaper.cc:183`), which then need not be so (`ArrivalIsReadyIff`).
* Preemptable frames are told apart by their names (`EtherMACFullDuplexPreemptable.cc:308`): another frame under the
  name of the begun one is sent as its rest (`SameNameFinishesIff`).
* A preemptable frame that was cut is given up when another one comes before it is finished
  (`EtherMACFullDuplexPreemptable.cc:308-314`): exactly then is not every frame delivered
  (`ReassemblyInvertsFragmentation`, `BegunFrameCanBeDropped`).  It comes to that without length-aware scheduling,
  when the MAC asks for an express packet whose gate closes in the same instant (`ExpressAskedPreemptableComes`);
  under the lookahead a tick empties no gate (`TickEmptiesNoGate`).
* The lookahead loops forever on an open circle of zero length (`LookaheadEndsIff`, `ZeroLengthSticks`).
* `VlanEtherTrafGenSched.cc:129` says that schedules are replaced at index 0; the code does so after the last
  entry.  `HostSchedule.h:94` calls the start time of an entry its length.

## Model

| member | source | states |
|---|---|---|
| EagerClock.SubscriptionLedger | src/nesting/ieee8021q/clock/ClockBase.cc:64-117 | Conservation of subscriptions over every run: what waited or was booked for a listener and a tick was delivered, withdrawn, or still waits; booking the same tick twice merges. |
| EagerClock.DeliveredExactlyOnce | src/nesting/ieee8021q/clock/ClockBase.cc:180-218 | A subscription made at tick c for n ticks ahead is delivered exactly once, at tick c + n, once the clock has passed it, unless withdrawn or booked anew. |
| EagerClock.NeverDeliveredUnbooked | src/nesting/ieee8021q/clock/ClockBase.cc:180-198 | Nobody is notified of a tick he did not subscribe to. |
| EagerClock.LogIsOrdered | src/nesting/ieee8021q/clock/ClockBase.cc:45-62 | Deliveries never go back in time. |
| EagerClock.FirstComeFirstServed | src/nesting/ieee8021q/clock/ClockBase.cc:105-117 | First come, first served within a tick: when m newly books a tick for which l waits, m is never notified at that tick before l, over every run in which l is not withdrawn; once the tick is over l has been notified, and before m unless that was withdrawn. |
| EagerClock.WithdrawalKeepsOrder | src/nesting/ieee8021q/clock/ClockBase.cc:220-227 | Withdrawing a listener leaves any two others of every tick in their order. |
| EagerClock.RunKeepsValid | src/nesting/ieee8021q/clock/ClockBase.cc:45-62 | Over every run the reference clock keeps its bookings free of duplicates and never behind its tick. |
| LazyClock.NewEntryConsistent | src/nesting/ieee8021q/clock/ClockBase.cc:64-103 | A new entry put in its place keeps countdowns strictly rising, every time stamp equal to base + rate * ticks, and the list equal to the map of absolute ticks with this subscription. |
| LazyClock.OldEntryConsistent | src/nesting/ieee8021q/clock/ClockBase.cc:81-117 | Subscribing to a tick that has an entry adds the listener once and keeps the same three facts. |
| LazyClock.DecrementedConsistent | src/nesting/ieee8021q/clock/ClockBase.cc:149-173 | Counting n ticks down while the time base moves n ticks on keeps the representation: same absolute ticks, same time stamps, rising countdowns. |
| LazyClock.StrippedConsistent | src/nesting/ieee8021q/clock/ClockBase.cc:220-227 | Withdrawing a listener from every entry withdraws him from every absolute tick and leaves order and time stamps. |
| LazyClock.CountdownsSuffice | src/nesting/ieee8021q/clock/ClockBase.cc:169-173 | While nothing is overdue no countdown is smaller than the ticks to be subtracted, so the unsigned subtraction does not wrap. |
| LazyClock.CallbacksInOrder | src/nesting/ieee8021q/clock/ClockBase.cc:189-192 | What notified listeners ask for is done in the order of their notification, the calls of each in his own order. |
| LazyClock.FrontIsDue | src/nesting/ieee8021q/clock/ClockBase.cc:119-132 | A front entry counted down to zero holds exactly the listeners the reference clock notifies now, and the rest of the list is the rest of the map. |
| LazyClock.TickAtBounds | src/nesting/ieee8021q/clock/IdealClock.cc:22-28 | The number of elapsed periods is the one whose period contains the present time. |
| LazyClock.ClockBase.TickAfter | src/nesting/ieee8021q/clock/IdealClock.cc:22-28 | The ticks and the time stamp that lastTick reports lead from the last update to the last tick at or before now. |
| LazyClock.ClockBase.NotInThePast | src/nesting/ieee8021q/clock/IdealClock.cc:30-34 | The time a tick is scheduled for is not past, if 0 idle ticks are asked only on a tick boundary. |
| LazyClock.ClockBase.FrontFires | src/nesting/ieee8021q/clock/ClockBase.cc:119-132 | The message the kernel fires always belongs to the front entry, at exactly its time stamp, whatever was subscribed during earlier ticks. |
| LazyClock.ClockBase.constructor | src/nesting/ieee8021q/clock/ClockBase.cc:20-36 | A new clock stands at tick 0 with nothing scheduled. |
| LazyClock.ClockBase.DecrementScheduledTickCountdowns | src/nesting/ieee8021q/clock/ClockBase.cc:169-173 | All countdowns are smaller by the given ticks and nothing else changes. |
| LazyClock.ClockBase.UpdateTime | src/nesting/ieee8021q/clock/ClockBase.cc:134-147 | The clock catches up with all ticks that passed unobserved: its tick is the number of whole periods since the start, and the non-tick time stamp is now or, if ticks passed, the last of them. |
| LazyClock.ClockBase.LowerBound | src/nesting/ieee8021q/clock/ClockBase.cc:67-77 | The search finds the first entry with as many idle ticks or more. |
| LazyClock.ClockBase.IncrementTime | src/nesting/ieee8021q/clock/ClockBase.cc:149-167 | The time stamps move to the last elapsed tick, or only the non-tick one to now if there was none. |
| LazyClock.ClockBase.GetTime | src/nesting/ieee8021q/clock/ClockBase.cc:200-205 | The local time is start + floor(elapsed / rate) * rate, at most now and less than one period behind it, between ticks and during one; during a tick nothing changes. |
| LazyClock.ClockBase.AddScheduledTickListener | src/nesting/ieee8021q/clock/ClockBase.cc:64-117 | Insertion into the sorted list is subscription to the absolute tick on the reference clock, behind those who wait already, and each entry keeps a message of its own. |
| LazyClock.ClockBase.SubscribeTick | src/nesting/ieee8021q/clock/ClockBase.cc:211-218 | During a tick the time stands still; otherwise the clock first catches up, and the subscription is made relative to the present tick. |
| LazyClock.ClockBase.UnsubscribeTicks | src/nesting/ieee8021q/clock/ClockBase.cc:220-227 | The listener is withdrawn from all ticks as on the reference clock, which keeps the others in order, even if their entries stay scheduled. |
| LazyClock.ClockBase.NotifyNextTick | src/nesting/ieee8021q/clock/ClockBase.cc:180-198 | All listeners of the front entry are notified, in order, and what they ask for meanwhile, this very tick included, is booked as on the reference clock. |
| LazyClock.ClockBase.UpdateTimeOnScheduledTick | src/nesting/ieee8021q/clock/ClockBase.cc:119-132 | On a scheduled tick the clock stands exactly at that tick and the front countdown is zero. |
| LazyClock.ClockBase.HandleMessage | src/nesting/ieee8021q/clock/ClockBase.cc:45-62 | A fired message notifies exactly what the reference clock has due at this time and leaves both clocks in agreement. |
| ClockRuns.DueFires | src/nesting/ieee8021q/clock/ClockBase.cc:45-62 | What is due on the reference clock is the front entry of the list, and no other entry has an earlier time stamp. |
| ClockRuns.TickedRuns | src/nesting/ieee8021q/clock/ClockBase.cc:134-147 | Ticks with nothing booked change neither the bookings nor the log of the reference clock, so the lazy clock may skip them. |
| ClockRuns.ServeRequest | src/nesting/ieee8021q/clock/ClockBase.cc:200-227 | A call between ticks notifies nobody and keeps the lazy clock in step with the reference clock. |
| ClockRuns.ServeFiring | src/nesting/ieee8021q/clock/ClockBase.cc:45-62 | Serving a fired message appends to the log exactly what the reference clock notifies, with its times. |
| ClockRuns.Simulate | src/nesting/ieee8021q/clock/ClockBase.cc:45-227 | Refinement: any script of calls and fired messages that the kernel can produce drives the lazy clock and the clock that ticks every period to the same notifications at the same times in the same order. |
| ClockRuns.HistoryIsScript | src/nesting/ieee8021q/clock/ClockBase.cc:45-227 | The run of the reference clock makes the calls of the script and no others, in order and each at the tick of its time, delivers as often as messages fire, and ends at the tick of the last event. |
| GateSchedules.StepKeepsSchedule | src/nesting/ieee8021q/queue/gating/GateController.cc:106-193 | The state between ticks is always the one the schedule prescribes: the last change is where the shown entry starts in the cycle. |
| GateSchedules.GatesFollowSchedule | src/nesting/ieee8021q/queue/gating/GateController.cc:106-193 | Over every run, from each tick until the next, the gates show the entry of the schedule in force that covers the time since the cycle started. |
| GateSchedules.SwapOnlyAtCycleEnd | src/nesting/ieee8021q/queue/gating/GateController.cc:113-135 | A loaded schedule waits and takes effect only after a complete cycle, from its entry 0; loading changes nothing that is shown. |
| GateSchedules.LoadsTakeEffect | src/nesting/ieee8021q/queue/gating/GateController.cc:266-304 | Over every run the cycle that begins where another one ends is of the schedule loaded last, found from the events of the run alone, or of the same one without a load. |
| GateSchedules.CoveringIs | src/nesting/ieee8021q/queue/gating/GateController.cc:158-161 | The covering entry, found from the lengths alone, is the one whose start and end enclose the moment. |
| Lookahead.DecidedIsMaxBit | src/nesting/ieee8021q/queue/gating/GateController.cc:195-264 | Stopping at a closed gate or at a full frame gives min(12000, bits that fit until the gate first closes). |
| Lookahead.MaxBitIsUnique | src/nesting/ieee8021q/queue/gating/GateController.cc:195-264 | Only one number is the limit of a gate at a moment, and it is at most 12000. |
| Lookahead.MaxBitExists | src/nesting/ieee8021q/queue/gating/GateController.cc:195-264 | Every running schedule has a limit for every gate and moment. |
| Lookahead.MaxBitShrinks | src/nesting/ieee8021q/queue/gating/GateController.cc:195-213 | Between two ticks the limit never grows. |
| Lookahead.MaxBitAcrossTick | src/nesting/ieee8021q/queue/gating/GateController.cc:215-258 | A tick that leaves the gate open continues the prediction made just before it, also over cycle end and swap. |
| Lookahead.MaxBitNeverGrows | src/nesting/ieee8021q/queue/gating/GateController.cc:195-264 | While a gate stays open, over any number of ticks, its limit never grows. |
| LookaheadEnds.Repeats | src/nesting/ieee8021q/queue/gating/GateController.cc:215-258 | Once the pending schedule has been entered, the future of the gates repeats with the length of the schedule. |
| LookaheadEnds.PassesTakeTime | src/nesting/ieee8021q/queue/gating/GateController.cc:215-258 | Every pass through a schedule with a positive entry costs at least one clock tick. |
| LookaheadEnds.StuckNeverDecides | src/nesting/ieee8021q/queue/gating/GateController.cc:215-258 | With the gate open during a circle of zero total length and less than a full frame gathered, no entry ends the loop. |
| LookaheadEnds.LookaheadEndsIff | src/nesting/ieee8021q/queue/gating/GateController.cc:215-260 | The lookahead loop comes to an end if and only if it is not stuck in that way, zero-length entries and the pending swap included. |
| LookaheadEnds.ZeroLengthSticks | src/nesting/ieee8021q/queue/gating/GateController.cc:236-258 | It is stuck in the last entry of a cycle, less than a full frame before its end, with a pending schedule of one zero-length entry that leaves the gate open. |
| GateControllers.ScheduleBuilder.AddEntry | src/nesting/common/schedule/Schedule.h:88-91 | The entry is appended and the total length stays the sum of the entries. |
| GateControllers.GateController.constructor | src/nesting/ieee8021q/queue/gating/GateController.cc:68-95 | The initial schedule waits to be taken by the first tick. |
| GateControllers.GateController.SetGateStates | src/nesting/ieee8021q/queue/gating/GateController.cc:306-311 | Each gate is open exactly if its bit is set. |
| GateControllers.GateController.OpenAllGates | src/nesting/ieee8021q/queue/gating/GateController.cc:313-316 | All gates are open. |
| GateControllers.GateController.Tick | src/nesting/ieee8021q/queue/gating/GateController.cc:106-193 | A tick shows the next entry of the walk on every gate and asks for the next tick after the length of that entry; an empty schedule opens all gates and ends the ticks. |
| GateControllers.GateController.NextEntry | src/nesting/ieee8021q/queue/gating/GateController.cc:230-258 | The lookahead step through current and pending schedule moves to what the next tick will show. |
| GateControllers.GateController.SumUp | src/nesting/ieee8021q/queue/gating/GateController.cc:215-263 | The loop adds up the time until the gate first closes in the run of future ticks, and ends. |
| GateControllers.GateController.CalculateMaxBit | src/nesting/ieee8021q/queue/gating/GateController.cc:195-264 | The answer is min(12000, floor(T / bit time)), T being the time from the local now until the gate is first closed in the future obtained by iterating the tick itself; 0 for a rate of 0. |
| GateControllers.NextLook | src/nesting/ieee8021q/queue/gating/GateController.cc:230-258 | Which entry, of which schedule, the tick after a state shows. |
| LengthAwareQueues.StepConserves | src/nesting/ieee8021q/queue/framePreemption/LengthAwareQueue.cc:67-111 | Each event keeps capacity and counters balanced and changes the queue only at its ends. |
| LengthAwareQueues.QueueConserves | src/nesting/ieee8021q/queue/framePreemption/LengthAwareQueue.cc:54-111 | Over every run free capacity + queued bits = capacity, free capacity is not negative, received = enqueued + dropped. |
| LengthAwareQueues.QueueIsFifo | src/nesting/ieee8021q/queue/framePreemption/LengthAwareQueue.cc:67-111 | Over every run what has left followed by what is queued is what was accepted, in arrival order. |
| LengthAwareQueues.SentPacketsFit | src/nesting/ieee8021q/queue/framePreemption/LengthAwareQueue.cc:96-125 | What leaves on a request is the head of the queue and fits, with 240 header bits, into the limit. |
| LengthAwareQueues.LengthAwareQueue.constructor | src/nesting/ieee8021q/queue/framePreemption/LengthAwareQueue.cc:30-52 | The queue starts empty with its whole capacity free. |
| LengthAwareQueues.LengthAwareQueue.HandleMessage | src/nesting/ieee8021q/queue/framePreemption/LengthAwareQueue.cc:54-65 | An arrival is counted, queued or dropped, and announced in either case. |
| LengthAwareQueues.ArrivalIsReadyIff | src/nesting/ieee8021q/queue/framePreemption/LengthAwareQueue.cc:67-81 | An arrival, dropped or not, is announced; a packet can then leave exactly if the head waiting already fits, or the arrival is queued first and fits. The assertion of the shaper on such an announcement holds exactly then. |
| LengthAwareQueues.LengthAwareQueue.Enqueue | src/nesting/ieee8021q/queue/framePreemption/LengthAwareQueue.cc:67-81 | A packet is queued exactly if the free capacity holds it, and dropped otherwise. |
| LengthAwareQueues.LengthAwareQueue.Dequeue | src/nesting/ieee8021q/queue/framePreemption/LengthAwareQueue.cc:83-94 | The head leaves and its bits are free again; an empty queue gives nothing and stays. |
| LengthAwareQueues.LengthAwareQueue.HandleRequestPacketEvent | src/nesting/ieee8021q/queue/framePreemption/LengthAwareQueue.cc:96-111 | The head is sent and fits into the request. |
| GuardBand.FitsBeforeClosing | src/nesting/ieee8021q/queue/gating/TransmissionGate.cc:118-128 | A packet that may leave under the predicted limit is on the wire, headers included, before the clock shows the first closing of the gate. |
| GuardBand.HeadPassesInTime | src/nesting/ieee8021q/queue/framePreemption/LengthAwareQueue.cc:118-125 | Whatever moment the gate closes first, the head that is not held back passes before it. |
| GuardBand.PassingEnds | src/nesting/ieee8021q/queue/gating/TransmissionGate.cc:118-128 | A packet that passes in local time and whose frame is held up by some time on the way ends less than that and one clock period after the tick that first closes the gate, and at most that after it if asked for on a tick. |
| GuardBand.AskQueue | src/nesting/ieee8021q/queue/gating/TransmissionGate.cc:85-90 | In local time the request path from the lookahead to the queue lets the head out only if it passes the gate in time, and keeps it only if the limit forbids it. |
| GuardedTransmission.WireTime | src/nesting/ieee8021q/queue/gating/TransmissionGate.cc:126-127 | The frame takes the bits of its packet and the 240 of its headers, and those it exceeds them by. |
| GuardedTransmission.ShortPacketsExceed | src/nesting/ieee8021q/queue/framePreemption/LengthAwareQueue.cc:118-125 | The frame of a packet under 336 bits, padded to the shortest, takes at least 336 less its bits more than the headers accounted for. |
| GuardedTransmission.FrameEnds | src/nesting/ieee8021q/queue/gating/TransmissionGate.cc:118-128 | A frame that starts some delay after its packet was let out, and runs through, is late for the closing of its gate by that delay, the bits it exceeds its headers by, and less than one clock period; without the period if let out on a tick. |
| GuardedTransmission.KeepsBoundIff | src/nesting/ieee8021q/queue/gating/TransmissionGate.cc:118-128 | All that the lookahead admits ends less than one clock period after the gate closes, and not after it if let out on a tick, if and only if frames start when they are let out; for every other delay a frame is admitted that breaks each bound. |
| GuardedTransmission.StartIsAhead | src/nesting/linklayer/framePreemption/EtherMACFullDuplexPreemptable.cc:334-344 | A frame handed to the MAC waits exactly if the MAC is neither idle nor at the end of its gap: for the rest of the gap, or, cutting a part, for exactly 16 byte times. |
| GuardedTransmission.MacKeepsBoundIff | src/nesting/linklayer/framePreemption/EtherMACFullDuplexPreemptable.cc:204-254 | In the MAC's state before the call: both bounds hold of all that is admitted now if and only if the MAC is idle or its gap ends now. |
| GuardedTransmission.Transmit | src/nesting/linklayer/framePreemption/EtherMACFullDuplexPreemptable.cc:204-344 | Handing a frame over and serving the MAC's own events up to its start: it is taken exactly if the assertions hold, the state of the sender is that after the cut, the gap and the start, and the last bit is due the time of the frame after the start. |
| GuardedTransmission.RequestThroughGate | src/nesting/ieee8021q/queue/gating/TransmissionGate.cc:85-90 | With a clock, a controller, a queue and a MAC at any global time: either the limit forbids the head of the queue and only the clock has caught up, or the head leaves and its frame is handed to the MAC, which takes it exactly if its assertions hold, and then sends it and keeps all else. Its last bit then leaves less than one clock period after the tick that closes the gate, and as much later as the MAC makes it wait and it exceeds its headers, if nobody cuts it, it is not taken for the rest of another frame and no further schedule is loaded. |
| GuardedTransmission.PreemptableKeepsBoundIff | src/nesting/linklayer/framePreemption/EtherMACFullDuplexPreemptable.cc:346-352 | Over every run a preemptable frame is late by nothing, and so keeps both bounds, if and only if it was never cut; each cut makes it at least 16 byte times late. |
| GuardedTransmission.CuttingFrameCanBeLate | src/nesting/linklayer/framePreemption/EtherMACFullDuplexPreemptable.cc:213-217 | At 100 Mbit/s and a period of 1000 ns a packet let out on the tick that opens its gate for ten periods has to cut a frame of 200 bytes and ends 1280 ns after the gate has closed. |
| GuardedTransmission.CutFrameCanBeLate | src/nesting/linklayer/framePreemption/EtherMACFullDuplexPreemptable.cc:350-352 | However late: a run in which a preemptable frame admitted on a tick is cut and its last part ends later than that after its gate has closed. |
| GuardedTransmission.LoadedScheduleCanCloseEarlier | src/nesting/ieee8021q/queue/gating/ScheduleSwap.cc:70-73 | A schedule loaded while a full frame is on the link closes its gate 110000 ns before the frame ends. |
| Pipeline.HighestIs | src/nesting/ieee8021q/queue/TransmissionSelection.cc:94-113 | The reverse search finds the highest gate that is ready. |
| Pipeline.ChoiceIsBest | src/nesting/ieee8021q/queue/TransmissionSelection.cc:94-113 | Express gates go first, then the highest gate; nothing is chosen only if every gate is empty. |
| Pipeline.BestIsAsked | src/nesting/ieee8021q/queue/TransmissionSelection.cc:94-113 | The request goes to that gate and to no other, and to none only if every gate is empty. |
| Pipeline.ReleaseIsReported | src/nesting/ieee8021q/queue/gating/TransmissionGate.cc:134-148 | A change of gates with a release is reported exactly if a gate that stays open has a packet then. |
| Pipeline.StepKeepsSound | src/nesting/ieee8021q/queue/TransmissionSelection.cc:115-165 | Every event keeps: at most one answer per request under way, a waiting request or notification whenever a packet can go, and every grant within the head of its queue. |
| PacketFlow.PacketsAreConserved | src/nesting/ieee8021q/queue/gating/TransmissionGate.cc:60-70 | Conservation of packets: over every run, what a lane has handed to the MAC, followed by what it holds between selection, gate, algorithm and queue, is what it held followed by the arrivals that found room, each once and in order. |
| PacketFlow.LaneIsBoundedQueue | src/nesting/ieee8021q/queue/framePreemption/LengthAwareQueue.cc:54-111 | Over every run from an empty queue, the queue of a lane is the bounded queue that is asked the same: same packets, same arrivals accepted, same packets let out. |
| PacketFlow.StepIsQueueStep | src/nesting/ieee8021q/queue/framePreemption/LengthAwareQueue.cc:54-111 | One event does to the queue of a lane what the bounded queue does, and every arrival, dropped or not, is announced. |
| PacketFlow.LimitComesDown | src/nesting/ieee8021q/queue/transmissionSelectionAlgorithms/TSAlgorithm.cc:70-91 | The limit that comes down to the queue is the one the gate had when it asked. |
| Pipeline.EveryRunIsSound | src/nesting/ieee8021q/queue/TransmissionSelection.cc:56-165 | Over every run from a port at rest these invariants hold. |
| Pipeline.NoLostWakeUp | src/nesting/ieee8021q/queue/TransmissionSelection.cc:94-165 | In whatever order the events of an instant are served, once all are a request is outstanding only if every gate is empty, provided that gates which stay open gain no room. |
| Pipeline.AssertionsNeverFail | src/nesting/ieee8021q/queue/framePreemption/LengthAwareQueue.cc:96-99 | In every run, in whatever order, an algorithm and a queue that are asked have a packet that fits, and a packet reaches the selection only if one was asked for. |
| Pipeline.ServedKeepsSound | src/nesting/ieee8021q/queue/TransmissionSelection.cc:22-25 | In the kernel's order, selection events last, every event keeps: a gate request is under way only late in the instant and only with a gate that has a packet. |
| Pipeline.GateAssertionNeverFails | src/nesting/ieee8021q/queue/gating/TransmissionGate.cc:85-90 | Over every run in the kernel's order from a port at rest, a gate that was sent a request is not empty when it serves it. |
| Pipeline.PortServesInOrder | src/nesting/ieee8021q/queue/TransmissionSelection.cc:22-25 | Over every run in the kernel's order from a port at rest: no assertion of queue, algorithm, gate or selection fails, and no wake-up is lost. |
| Pipeline.NextInOrder | src/nesting/ieee8021q/queue/TransmissionSelection.cc:56-85 | In that order some pending event can always be served, all assertions holding, unless the MAC has asked twice. |
| Pipeline.ExpressAskedPreemptableComes | src/nesting/ieee8021q/queue/TransmissionSelection.cc:94-138 | From any preemptable and express gate that both have a packet and constant limits: the MAC asks, the express gate closes in the same instant, and the selection asks the preemptable gate. |
| Pipeline.ServingEnds | src/nesting/ieee8021q/queue/TransmissionSelection.cc:56-85 | Serving the events of an instant comes to an end: each leaves strictly less to do. |
| QueuingModules.TransmissionSelection.SchedulePacket | src/nesting/ieee8021q/queue/TransmissionSelection.cc:94-113 | The reverse loops ask exactly the best gate, express first, and report whether there was one. |
| QueuingModules.TransmissionSelection.HandleRequestPacketEvent | src/nesting/ieee8021q/queue/TransmissionSelection.cc:115-138 | The request is passed to a gate or kept waiting; the error is reported exactly if an earlier request is outstanding, and the assertion after it holds. |
| QueuingModules.TransmissionSelection.HandlePacketEnqueuedEvent | src/nesting/ieee8021q/queue/TransmissionSelection.cc:140-151 | A notification meets a waiting request, or is passed on to the MAC if there is none. |
| QueuingModules.TransmissionSelection.HandleMessage | src/nesting/ieee8021q/queue/TransmissionSelection.cc:56-85 | The packet that answers a request ends it and leaves by the output of its kind. |
| QueuingModules.TransmissionSelection.IsEmpty | src/nesting/ieee8021q/queue/TransmissionSelection.cc:171-178 | Empty exactly if every gate is. |
| QueuingModules.TransmissionSelection.HasExpressPacketEnqueued | src/nesting/ieee8021q/queue/TransmissionSelection.cc:208-216 | True exactly if some express gate is not empty. |
| QueuingModules.TransmissionGate.SetGateState | src/nesting/ieee8021q/queue/gating/TransmissionGate.cc:134-148 | A change of state is announced; without one an open gate that is released tells the selection exactly if it has a packet. |
| QueuingModules.TransmissionGate.HandlePacketEnqueuedEvent | src/nesting/ieee8021q/queue/gating/TransmissionGate.cc:92-98 | The notification passes an open gate and ends at a closed one. |
| QueuingModules.TransmissionGate.HandleGateStateChangedEvent | src/nesting/ieee8021q/queue/gating/TransmissionGate.cc:100-116 | An opened gate tells the selection exactly if it has a packet that fits, and always tells the algorithm. |
| QueuingModules.TransmissionGate.HandleRequestPacketEvent | src/nesting/ieee8021q/queue/gating/TransmissionGate.cc:85-90 | The algorithm is asked within the limit that holds now. |
| QueuingModules.TSAlgorithm.RequestPacket | src/nesting/ieee8021q/queue/transmissionSelectionAlgorithms/TSAlgorithm.cc:85-91 | The latest limit is kept, and the queue can meet it as asserted. |
| GateEvents.TimePasses | src/nesting/ieee8021q/queue/gating/TransmissionGate.cc:116-128 | Between ticks the limits a gate announces only shrink, as the pipeline's run assumes. |
| GateEvents.TickArrives | src/nesting/ieee8021q/queue/gating/GateController.cc:106-193 | A tick of the controller is an event the pipeline allows: gates that stay open gain no room. |
| GateEvents.HappenedInStep | src/nesting/ieee8021q/queue/gating/GateController.cc:195-264 | Whatever happens to port and controller, gates and limits of the port stay those the controller means. |
| GateEvents.NoLostWakeUpUnderSchedule | src/nesting/ieee8021q/queue/TransmissionSelection.cc:94-165 | Over every run of a port under a controller, through ticks, cycle ends, swaps and loads, with nothing assumed of limits but that no schedule loaded raises the limit of an open gate: in a quiet port a request is outstanding only if every gate is empty. |
| GateEvents.LoadCanLoseWakeUp | src/nesting/ieee8021q/queue/gating/ScheduleSwap.cc:70-73 | A load that raises the limit of an open gate loses a wake-up: the gate stays open over the tick, nothing is announced, and a packet the MAC has asked for stays in a quiet port. |
| GateEvents.RaiseMattersIff | src/nesting/ieee8021q/queue/framePreemption/LengthAwareQueue.cc:118-125 | A change of the limit of an open gate can make a blocked head ready exactly if it raises the limit, to 240 bits at least. |
| GateEvents.TickEmptiesNoGate | src/nesting/ieee8021q/queue/gating/TransmissionGate.cc:118-128 | Under the lookahead a gate that has a packet just before a tick has it just after, so no packet asked for is shut out by a tick of the same instant. |
| AskedExpress.AskedExpressComes | src/nesting/ieee8021q/queue/TransmissionSelection.cc:94-138 | Under the lookahead, whatever happens in the rest of the instant in which a port with an express packet is asked, ticks included: a packet that leaves the selection is an express packet. |
| AskedExpress.AskedExpressCanCome | src/nesting/ieee8021q/queue/TransmissionSelection.cc:94-138 | And from every such port some run of the instant brings one to the selection. |
| AskedExpress.AskAndCut | src/nesting/linklayer/framePreemption/EtherMACFullDuplexPreemptable.cc:592-605 | So a MAC that asks because cutting is possible now finds its assertions true when the packet comes, and cuts. |
| FramePreemption.DurationIs | src/nesting/linklayer/framePreemption/EtherMACFullDuplexPreemptable.cc:582-590 | Bytes one after the other take their number times the time of a byte. |
| FramePreemption.BytesOfIsQuotient | src/nesting/linklayer/framePreemption/EtherMACFullDuplexPreemptable.cc:512-514 | The bytes counted in a time are the quotient, rounded down. |
| Reassembly.LastPartAddsUp | src/nesting/linklayer/framePreemption/EtherMACFullDuplexPreemptable.cc:386-403 | The last part makes the bytes of all parts the length of the frame, and adds its own time on the link. |
| FramePreemption.PartEnds | src/nesting/linklayer/framePreemption/EtherMACFullDuplexPreemptable.cc:365-403 | A part carries either all that was left of the frame or exactly the bytes sent when it was cut, and has occupied the link for those bytes, its checksum and less than one byte more. |
| FramePreemption.StepKeepsSound | src/nesting/linklayer/framePreemption/EtherMACFullDuplexPreemptable.cc:256-403 | Every event keeps: 60 bytes are left of a begun frame, a cut part ends four byte times after a legal cut, an uncut part takes the rest of the frame. |
| Reassembly.LinkIsWellFormed | src/nesting/linklayer/framePreemption/EtherMACFullDuplexPreemptable.cc:365-451 | Over every run each announced part continues the parts before it, carries at least 60 bytes, and is the last exactly if it completes the frame. |
| Reassembly.CutPartsAddUp | src/nesting/linklayer/framePreemption/EtherMACFullDuplexPreemptable.cc:365-403 | Over any number of cut parts of a frame: 60 bytes each at least, and 4 to 5 byte times of link beyond the bytes of each. |
| Reassembly.FrameIsConserved | src/nesting/linklayer/framePreemption/EtherMACFullDuplexPreemptable.cc:365-451 | Over any number of preemptions the parts add up to exactly the length L; with k preemptions L >= 60(k + 1), and the link is busy for at least L+8+4k and, for k > 0, less than L+8+5k byte times, exactly L+8 without. |
| Reassembly.BytesSentRise | src/nesting/linklayer/framePreemption/EtherMACFullDuplexPreemptable.cc:386-403 | The announced bytes rise with every part, reach L with the last only, and a cut part leaves at least 60: it is never mistaken for the last. |
| Reassembly.NeverTooManyBytes | src/nesting/linklayer/framePreemption/EtherMACFullDuplexPreemptable.cc:506-532 | The error of more bytes sent than the frame has is unreachable in every run. |
| FramePreemption.EndedIs | src/nesting/linklayer/framePreemption/EtherMACFullDuplexPreemptable.cc:365-403 | The end of a part in the code's own unsigned arithmetic is that of the run: nothing wraps, and only the branch of the last part forgets the frame. |
| FramePreemption.SameNameFinishesIff | src/nesting/linklayer/framePreemption/EtherMACFullDuplexPreemptable.cc:305-332 | A frame taken for the rest of a begun one of its name finishes that exactly if it has its length or 4 bytes less, and ends in the error of too many bytes exactly if it is longer by more than was sent and 4, or so short that its rest wraps around. |
| FinishTimes.RunIsBehind | src/nesting/linklayer/framePreemption/EtherMACFullDuplexPreemptable.cc:256-454 | Over every run in time the present part of the begun frame started at least the time of all bytes sent and 16 byte times for each cut after the frame was begun. |
| FinishTimes.FinishedOnTimeIff | src/nesting/linklayer/framePreemption/EtherMACFullDuplexPreemptable.cc:346-454 | Over every run a preemptable frame is finished just the time of its bytes and preamble after it was begun if and only if it was never cut, and k cuts make it at least 16 k byte times later. |
| FinishTimes.CutFrameEndsArbitrarilyLate | src/nesting/linklayer/framePreemption/EtherMACFullDuplexPreemptable.cc:346-352 | However late, a run cuts a frame of 200 bytes once and ends its last part later. |
| Reassembly.ReceiverFollows | src/nesting/linklayer/framePreemption/EtherMACFullDuplexPreemptable.cc:85-116 | The receiver holds the frame and the byte count of the parts since the last finished frame. |
| Reassembly.DeliveredWithLastPart | src/nesting/linklayer/framePreemption/EtherMACFullDuplexPreemptable.cc:97-111 | A preemptable frame goes up exactly with its last part, and is the frame announced. |
| Reassembly.DeliveredAreKept | src/nesting/linklayer/framePreemption/EtherMACFullDuplexPreemptable.cc:85-116 | Over every run, express frames interleaved anywhere, the preemptable frames delivered followed by the one under way are the frames handed to the sender without those given up, in order and once each. |
| Reassembly.KeptOrDropped | src/nesting/linklayer/framePreemption/EtherMACFullDuplexPreemptable.cc:305-314 | Frames kept and frames given up are together all frames handed to the sender. |
| Reassembly.ReassemblyInvertsFragmentation | src/nesting/linklayer/framePreemption/EtherMACFullDuplexPreemptable.cc:85-116 | The frames delivered and the one under way are all frames handed to the sender, in order and once each, if and only if no frame came while another one was begun. |
| Reassembly.BegunFrameCanBeDropped | src/nesting/linklayer/framePreemption/EtherMACFullDuplexPreemptable.cc:308-314 | A run in which a cut frame is given up for the next preemptable frame and never delivered. |
| Reassembly.ExpressPassesThrough | src/nesting/linklayer/framePreemption/EtherMACFullDuplexPreemptable.cc:87-92 | An express frame is delivered whole and leaves the reassembly untouched. |
| PreemptionTiming.NowPossibleIs | src/nesting/linklayer/framePreemption/EtherMACFullDuplexPreemptable.cc:559-580 | Cutting now is allowed exactly if 60 bytes have gone and 60 remain. |
| PreemptionTiming.NotPossibleAtEnd | src/nesting/linklayer/framePreemption/EtherMACFullDuplexPreemptable.cc:559-580 | When a part nobody cut ends, cutting is no longer possible. |
| PreemptionTiming.NeverLaterOnceCut | src/nesting/linklayer/framePreemption/EtherMACFullDuplexPreemptable.cc:534-557 | In the checksum of a part that was cut the prediction is now or never. |
| PreemptionTiming.LaterPossibleIs | src/nesting/linklayer/framePreemption/EtherMACFullDuplexPreemptable.cc:534-557 | What the prediction answers, in bytes gone and bytes left. |
| PreemptionTiming.SomeInstantIff | src/nesting/linklayer/framePreemption/EtherMACFullDuplexPreemptable.cc:559-580 | Some instant of the part allows to cut it if and only if now does, or 60 bytes are still to come and would leave 60. |
| PreemptionTiming.LaterIsLegal | src/nesting/linklayer/framePreemption/EtherMACFullDuplexPreemptable.cc:534-557 | The predicted instant lies in the same part and allows to cut it. |
| PreemptionTiming.LaterIsEarliestIff | src/nesting/linklayer/framePreemption/EtherMACFullDuplexPreemptable.cc:534-557 | No earlier instant allows it if and only if the question is asked on a byte boundary of the part. |
| PreemptionTiming.LaterIsNotAlwaysEarliest | src/nesting/linklayer/framePreemption/EtherMACFullDuplexPreemptable.cc:534-557 | A frame of 200 bytes, asked one time unit after its start, could be cut one time unit before the predicted instant. |
| PreemptionTiming.RefusesTooOftenIff | src/nesting/linklayer/framePreemption/EtherMACFullDuplexPreemptable.cc:542-556 | The prediction refuses a part that could be cut if and only if less than 60 bytes have gone and 120 to 123 were left at its start. |
| PreemptionTiming.RefusesCuttableFrame | src/nesting/linklayer/framePreemption/EtherMACFullDuplexPreemptable.cc:542-556 | A frame of 120 bytes is refused and can be cut in its middle. |
| PreemptionTiming.RefusalLeavesLittle | src/nesting/linklayer/framePreemption/EtherMACFullDuplexPreemptable.cc:534-557 | When refused, fewer than 64 bytes remain once 60 have gone. |
| PreemptionTiming.ExpressWaits | src/nesting/linklayer/framePreemption/EtherMACFullDuplexPreemptable.cc:487-580 | From any instant of a part nobody has cut the link is freed for an express frame in 4 byte times if the part is cut now, in at most 64 if later, in at most 131 if not; the gap follows. |
| PreemptableMacs.PreemptableMac.StartFrameTransmission | src/nesting/linklayer/framePreemption/EtherMACFullDuplexPreemptable.cc:256-332 | What starts is an express frame, a new frame or the rest of the begun one, as the run of the sender says; a different frame under the name of the begun one is taken for its rest. |
| PreemptableMacs.PreemptableMac.PreemptCurrentFrame | src/nesting/linklayer/framePreemption/EtherMACFullDuplexPreemptable.cc:487-504 | The part ends four byte times from now. |
| PreemptableMacs.PreemptableMac.HandleEndTxPeriod | src/nesting/linklayer/framePreemption/EtherMACFullDuplexPreemptable.cc:365-454 | The part is announced with the bytes it carries; the frame is forgotten exactly if finished; the gap ends 12 byte times later, and no recheck is pending any more. |
| PreemptableMacs.PreemptableMac.GetNextFrameFromQueue | src/nesting/linklayer/framePreemption/EtherMACFullDuplexPreemptable.cc:334-363 | The waiting express frame first, then express packets of the queues, then the rest of the begun frame, then anything. |
| PreemptableMacs.PreemptableMac.HandleEndIFGPeriod | src/nesting/linklayer/framePreemption/EtherMACFullDuplexPreemptable.cc:456-469 | When the gap ends the next frame is sent or asked for, in that order of precedence. |
| PreemptableMacs.PreemptableMac.HandleUpperPacket | src/nesting/linklayer/framePreemption/EtherMACFullDuplexPreemptable.cc:204-254 | An express frame cuts a running part or waits for the gap; anything else starts at once. The assertions fail exactly if a frame comes too short, comes while the MAC is busy and is not an express frame that finds no other one, or would have to cut where cutting is not possible. |
| PreemptableMacs.PreemptableMac.PacketEnqueued | src/nesting/linklayer/framePreemption/EtherMACFullDuplexPreemptable.cc:592-619 | An announced express packet is requested now, or at an instant at which cutting is legal, or not before the part ends. |
| PreemptableMacs.PreemptableMac.CheckForAndRequestExpressFrame | src/nesting/linklayer/framePreemption/EtherMACFullDuplexPreemptable.cc:471-485 | When the recheck is due its assertion holds: preemption is possible, and a packet requested then cuts the part legally. |
| PreemptableMacs.PreemptableMac.HandleMessageFromNetwork | src/nesting/linklayer/framePreemption/EtherMACFullDuplexPreemptable.cc:85-116 | The receiving branch does to its fields and hands up what the receiver of the run does. |
| CreditShaping.CreditPositiveIff | src/nesting/ieee8021q/queue/transmissionSelectionAlgorithms/CreditBasedShaper.cc:154-156 | The test passes exactly for credit above -1, not from 0 on. |
| CreditShaping.CreditsForTimeIs | src/nesting/ieee8021q/queue/transmissionSelectionAlgorithms/CreditBasedShaper.cc:80-87 | The two divisions amount to slope times time. |
| CreditShaping.TimeAndCredits | src/nesting/ieee8021q/queue/transmissionSelectionAlgorithms/CreditBasedShaper.cc:80-96 | Waiting for the computed time earns exactly the credit asked for. |
| CreditShaping.SpentIs | src/nesting/ieee8021q/queue/transmissionSelectionAlgorithms/CreditBasedShaper.cc:128-138 | A packet costs (1 - f) times its bits: with what its transmission time would have earned, exactly its bits. |
| CreditShaping.ZeroTimerIsSound | src/nesting/ieee8021q/queue/transmissionSelectionAlgorithms/CreditBasedShaper.cc:98-101 | The instant the timer is set for lies ahead, and the continuous credit is zero then. |
| CreditShaping.StepKeepsSound | src/nesting/ieee8021q/queue/transmissionSelectionAlgorithms/CreditBasedShaper.cc:163-259 | Every event keeps each timer with its state and at its exact instant; ends and timers find the state they assert, the fired timer leaves credit 0, and no timer is set while pending. |
| CreditShaping.EarningBegins | src/nesting/ieee8021q/queue/transmissionSelectionAlgorithms/CreditBasedShaper.cc:163-244 | Credit begins to be earned only by an event that finds the gate open and a packet ready, and that event gives none. |
| CreditShaping.OpenAndReadyEarns | src/nesting/ieee8021q/queue/transmissionSelectionAlgorithms/CreditBasedShaper.cc:163-244 | After an event that finds the gate open and a packet ready credit is earned, if and only if no packet is on its way or sent now. |
| CreditShaping.EarningEnds | src/nesting/ieee8021q/queue/transmissionSelectionAlgorithms/CreditBasedShaper.cc:163-225 | Earning ends if and only if a packet is sent or the closed gate is announced. |
| CreditShaping.IdleKeepsNoCredit | src/nesting/ieee8021q/queue/transmissionSelectionAlgorithms/CreditBasedShaper.cc:227-244 | A shaper becomes idle only with the gate closed or no packet ready; after a transmission with none ready its credit above -1 is reset to 0, and otherwise the gate is closed and the credit is booked. |
| CreditShaping.NotifiesIff | src/nesting/ieee8021q/queue/transmissionSelectionAlgorithms/CreditBasedShaper.cc:201-259 | The gate is told of a packet if and only if one is announced with credit above -1, or one is ready when the timer fires. |
| CreditRuns.RunIsSound | src/nesting/ieee8021q/queue/transmissionSelectionAlgorithms/CreditBasedShaper.cc:163-259 | This holds over every run. |
| CreditRuns.CreditLedger | src/nesting/ieee8021q/queue/transmissionSelectionAlgorithms/CreditBasedShaper.cc:128-152 | Lazy credit is continuous credit: at every moment it equals what was earned in all the time spent earning, less all packets' cost, plus what resets gave. |
| CreditRuns.PaidIs | src/nesting/ieee8021q/queue/transmissionSelectionAlgorithms/CreditBasedShaper.cc:128-138 | All packets cost their bits, less what their transmission times would have earned. |
| CreditRuns.SpendingLasts | src/nesting/ieee8021q/queue/transmissionSelectionAlgorithms/CreditBasedShaper.cc:208-225 | The time spent in the spending state is exactly the transmission time of all packets sent, but for the rest of the one on its way. |
| CreditRuns.TimesSplit | src/nesting/ieee8021q/queue/transmissionSelectionAlgorithms/CreditBasedShaper.cc:109-126 | Every moment is counted in exactly one of the three states. |
| CreditRuns.CreditFloor | src/nesting/ieee8021q/queue/transmissionSelectionAlgorithms/CreditBasedShaper.cc:208-225 | Credit always stays above -1 - (1 - f) M, M being the longest packet. |
| CreditRuns.ResetsGiveLittle | src/nesting/ieee8021q/queue/transmissionSelectionAlgorithms/CreditBasedShaper.cc:232-234 | Resets give at most one bit each. |
| CreditRuns.RateBound | src/nesting/ieee8021q/queue/transmissionSelectionAlgorithms/CreditBasedShaper.cc:128-259 | Over every run all bits sent are fewer than idleSlope times the time until the last of them has left, plus (1 - f) M + 1 + the number of resets. |
| CreditRuns.RateBoundBetweenPackets | src/nesting/ieee8021q/queue/transmissionSelectionAlgorithms/CreditBasedShaper.cc:128-259 | The same in the slopes' own terms at any time outside the spending state. |
| CreditRuns.TimerPendingIff | src/nesting/ieee8021q/queue/transmissionSelectionAlgorithms/CreditBasedShaper.cc:163-244 | While earning the timer is pending if and only if the credit last booked was at most -1, or below 0 at the end of a transmission with nothing since: it may be missing for credit between -1 and 0. |
| CreditRuns.TimerCanBeMissing | src/nesting/ieee8021q/queue/transmissionSelectionAlgorithms/CreditBasedShaper.cc:188-199 | One more packet announced in that run: credit -3/4 is earned without a timer, and the next frame is sent, legally, at credit -1/8. |
| CreditRuns.TimerIsExact | src/nesting/ieee8021q/queue/transmissionSelectionAlgorithms/CreditBasedShaper.cc:98-101 | A pending timer is set for the one instant at which the continuous credit is 0. |
| CreditRuns.SendAssertsHoldIff | src/nesting/ieee8021q/queue/transmissionSelectionAlgorithms/CreditBasedShaper.cc:208-211 | When the first two assertions of a send hold the third does if and only if credit below 0 is not being earned since the end of a transmission. |
| CreditRuns.SendAssertCanFail | src/nesting/ieee8021q/queue/transmissionSelectionAlgorithms/CreditBasedShaper.cc:208-211 | A run with frames of 576 bits and a share of 1/128: a send asked for 96 bit times after a transmission is offered and fails the third assertion alone. |
| CreditRuns.GapClosesWindow | src/nesting/ieee8021q/queue/transmissionSelectionAlgorithms/CreditBasedShaper.cc:227-244 | If the gap between frames earns a whole bit, a timer left by a transmission with credit above -1 fires before any send after the gap, so the third assertion holds there. |
| CreditRuns.OfferedOrWoken | src/nesting/ieee8021q/queue/transmissionSelectionAlgorithms/CreditBasedShaper.cc:163-259 | An event that finds gate open and packet ready leaves the shaper transmitting, offering, or with a wake-up at which credit is 0 and the gate is told. |
| CreditRuns.EarnsOnlyWhileOpen | src/nesting/ieee8021q/queue/transmissionSelectionAlgorithms/CreditBasedShaper.cc:246-248 | Credit is earned only while the gate is open, if every change of the gate is announced before other events see it. |
| CreditRuns.EarnsForPackets | src/nesting/ieee8021q/queue/transmissionSelectionAlgorithms/CreditBasedShaper.cc:163-206 | Over every run each span of earning has begun at an open gate with a packet ready, with the credit booked before: nothing is earned behind an empty queue. |
| CreditRuns.ExtrasLeaveCredit | src/nesting/ieee8021q/queue/transmissionSelectionAlgorithms/CreditBasedShaper.cc:182-206 | Taking all extra announcements of packets out of a run changes neither state nor credit at any time; the timer may differ, and the rest of the run need not be one the kernel can produce. |
| CreditRuns.ExtraKeepsTimerIff | src/nesting/ieee8021q/queue/transmissionSelectionAlgorithms/CreditBasedShaper.cc:189-199 | An extra announcement leaves the timer, to the instant, unless it is pending and credit has risen above -1; then it stops it. |
| CreditRuns.LegalWithoutExtras | src/nesting/ieee8021q/queue/transmissionSelectionAlgorithms/CreditBasedShaper.cc:182-206 | If no extra announcement stops the timer, the run without them is one the kernel can produce, with the same timers. |
| CreditBasedShapers.CreditBasedShaper.constructor | src/nesting/ieee8021q/queue/transmissionSelectionAlgorithms/CreditBasedShaper.cc:27-44 | The shaper starts idle with credit 0. |
| CreditBasedShapers.CreditBasedShaper.EarnCredits | src/nesting/ieee8021q/queue/transmissionSelectionAlgorithms/CreditBasedShaper.cc:140-146 | Credit grows by the idle slope times the time, never falling. |
| CreditBasedShapers.CreditBasedShaper.SpendForPacket | src/nesting/ieee8021q/queue/transmissionSelectionAlgorithms/CreditBasedShaper.cc:128-138 | Credit falls by the cost of the packet. |
| CreditBasedShapers.CreditBasedShaper.ScheduleZeroCredit | src/nesting/ieee8021q/queue/transmissionSelectionAlgorithms/CreditBasedShaper.cc:98-101 | The timer is set for a later instant, and only below zero credit and when it is not pending. |
| CreditBasedShapers.CreditBasedShaper.HandleGateStateChanged | src/nesting/ieee8021q/queue/transmissionSelectionAlgorithms/CreditBasedShaper.cc:163-180 | The handler is the step of the run for a gate announcement, keeps the timers sound, and starts earning only with the gate open and a packet ready. |
| CreditBasedShapers.CreditBasedShaper.HandlePacketEnqueued | src/nesting/ieee8021q/queue/transmissionSelectionAlgorithms/CreditBasedShaper.cc:182-206 | The assertion holds exactly if a packet is ready; then the handler is the step for an announced packet, and tells the gate exactly with credit above -1. |
| CreditBasedShapers.CreditBasedShaper.HandleSendPacket | src/nesting/ieee8021q/queue/transmissionSelectionAlgorithms/CreditBasedShaper.cc:208-225 | The handler is the step for a packet sent, with the end of spending not in the past. |
| CreditBasedShapers.CreditBasedShaper.HandleEndSpendingCredit | src/nesting/ieee8021q/queue/transmissionSelectionAlgorithms/CreditBasedShaper.cc:227-244 | The handler is the step for the end of spending. |
| CreditBasedShapers.CreditBasedShaper.HandleZeroCreditReached | src/nesting/ieee8021q/queue/transmissionSelectionAlgorithms/CreditBasedShaper.cc:246-259 | The timer fires while earning and at credit exactly 0, and the gate is told if a packet is ready. |
| CreditBasedShapers.CreditBasedShaper.IsEmpty | src/nesting/ieee8021q/queue/transmissionSelectionAlgorithms/CreditBasedShaper.cc:261-263 | A packet is offered exactly with credit above -1 and a queue that is not empty. |
| HostTraffic.DistanceFollowsPlan | src/nesting/application/ethernet/VlanEtherTrafGenSched.cc:151-162 | Each distance is the step of the plan, once around 2^32 if the plan goes back. |
| HostTraffic.OrderedIff | src/nesting/common/schedule/HostSchedule.h:72-77 | The plan never goes back exactly if starts are in order and none lies after the cycle. |
| HostTraffic.DistancesAddUp | src/nesting/application/ethernet/VlanEtherTrafGenSched.cc:127-162 | Over every run of any schedules the next tick is due at the beginning of the cycle plus the planned time, late by 2^32 ticks for each step back. |
| HostTraffic.LogIsPlan | src/nesting/application/ethernet/VlanEtherTrafGenSched.cc:127-162 | Everything sent in any run is the finished cycles in full and in order and the part of the present one that is due. |
| HostTraffic.OrderedPlaysOnTime | src/nesting/application/ethernet/VlanEtherTrafGenSched.cc:142-146 | In an ordered schedule entry i of a cycle goes out at the beginning of the cycle plus start i. |
| HostTraffic.CountSinceCycle | src/nesting/application/ethernet/VlanEtherTrafGenSched.cc:72-114 | Packets are numbered without a gap: those of earlier cycles, then one for each entry sent. |
| HostTraffic.CycleLengthIff | src/nesting/application/ethernet/VlanEtherTrafGenSched.cc:151-156 | The next cycle begins one cycle length later if and only if the schedule played is in order; empty schedules are. |
| HostTraffic.NeverDrifts | src/nesting/application/ethernet/VlanEtherTrafGenSched.cc:127-162 | Over any run of ordered schedules each cycle begins where the earlier lengths add up to. |
| HostTraffic.SwapsOnlyBetweenCycles | src/nesting/application/ethernet/VlanEtherTrafGenSched.cc:132-141 | The schedule changes only where a cycle ends, to the one waiting, and nothing is sent there. |
| HostTraffic.LoadsArePlayed | src/nesting/application/ethernet/VlanEtherTrafGenSched.cc:132-141 | Every load is played: over every run the cycle that begins where another one ends plays the schedule loaded last, found from the actions of the run alone, or the same one without a load; within a cycle the schedule stays and what is loaded waits. |
| VlanEtherTrafGenScheds.VlanEtherTrafGenSched.LoadSchedule | src/nesting/application/ethernet/VlanEtherTrafGenSched.cc:164-193 | The loaded schedule waits in place of any that did; the one in force stays. |
| VlanEtherTrafGenScheds.VlanEtherTrafGenSched.ScheduleNextTickEvent | src/nesting/application/ethernet/VlanEtherTrafGenSched.cc:151-162 | The idle ticks lead from the last start to the next planned time, modulo 2^32. |
| VlanEtherTrafGenScheds.VlanEtherTrafGenSched.Tick | src/nesting/application/ethernet/VlanEtherTrafGenSched.cc:127-147 | A tick sends what the log of the run gains and subscribes to the tick the run says. |

## Left out

- The OMNeT++ kernel and INET: modules, signals, tags, ownership, XML, and the base MAC beyond its three
  transmission states.  EtherMacFullDuplex is not part of this model.
- Rounding of doubles, the resolution of simulation time, and integer widths, except the unsigned arithmetic of
  countdowns and host schedules.  Credit beyond the range of a C++ int is not converted as the hardware would.
- Hold and release, and with them getHoldAdvance, which adds bytes to bits, and the parking of a frame on hold.
- That no express frame is lost: a second express arrival within the 4-byte checksum overwrites the first
  (EtherMACFullDuplexPreemptable.cc:215).  The bytes of the preempted frame are conserved there too.
- One run of MAC and pipeline together: AskedExpress joins them for the instant of a request, under the lookahead
  (without it ExpressAskedPreemptableComes happens); over longer times each is proved with any behaviour of the other.
- Progress of packets above 11760 payload bits: with 240 header bits they never fit under the cap of 12000.
- The filtering database, relay units, VLAN encapsulation, the queuing table and the other traffic generators:
  finite tables and plumbing.
- The credit of the shaper inside the pipeline: the pipeline is proved for strict priority, the shaper by itself.
- GateControllers.GateController.Tick: asks for a schedule in force or one waiting; after an empty schedule the
  controller has no further ticks.
- GateControllers.GateController.CalculateMaxBit: asks for a non-empty schedule that has had its first tick, since
  the code divides by the number of entries, and for a lookahead that is not stuck, since the loop would not end.
- GateControllers.GateController.constructor: does not model how the clock, gates and MAC are found.
- LazyClock.ClockBase.SubscribeTick: asks for 0 idle ticks only on a tick boundary, because the kernel refuses events in the past.
- EagerClock.DeliveredExactlyOnce: asks that the tick was not booked anew after its delivery, which would deliver it a second time.
- Pipeline.StepKeepsSound: the state of the four modules is one value; the classes are tied to it one handler at a time.
- Pipeline.NoLostWakeUp: assumes that gates which stay open gain no room; GateEvents.NoLostWakeUpUnderSchedule proves
  it of a controller, but for the loads of LoadCanLoseWakeUp.
- Pipeline.GateAssertionNeverFails: the order within an instant is that of priorities; equal priorities are served in any order.
- GateControllers.GateController.OpenAllGates: the release of the gates it opens is QueuingModules.TransmissionGate.SetGateState.
- QueuingModules.TSAlgorithm.GateStateChanged: its pending event has no effect for strict priority and is not an event of the pipeline.
- QueuingModules.TransmissionSelection.SchedulePacket: the gates are values in a sequence, so aliasing between gates is not modelled.
- PreemptableMacs.PreemptableMac.HandleUpperPacket: preemption is enabled; a failed assertion ends the simulation.
- PreemptableMacs.PreemptableMac.StartFrameTransmission: after another frame under the name of the begun one the fields
  are given, and no longer satisfy Valid; padding to the shortest frame has been done.
- Reassembly.ReassemblyInvertsFragmentation: the link delivers in order and loses nothing; a frame that comes while
  another is begun has another name or is the same frame.
- GuardedTransmission.RequestThroughGate: what frame a packet becomes is a parameter; the encapsulation (EtherEncap) is not
  part of this model, and the packet crosses the modules of the port in one instant.
- GuardedTransmission.Transmit: nothing else is handed to the MAC before the frame starts; the inter-frame gap is the 96
  bits of IEEE 802.3, set by the base class.
- FramePreemption.SameNameFinishesIff: the frame begun is shorter than 2^30 bytes, far above what Ethernet allows.
- CreditRuns.EarnsOnlyWhileOpen: the order of a gate's closing and the zero-credit event at one instant is left to GateAnnounced.
- CreditBasedShapers.CreditBasedShaper.HandleSendPacket: asks for the three assertions of the code; SendAssertsHoldIff says when they hold.
- HostTraffic.LogIsPlan: the clock delivers each tick when it is due, as ClockRuns proves of the clock; the header of a packet is a number.
