/** The traffic generator and the schedule it is built from, as objects. */
module VlanEtherTrafGenScheds {
  import opened Traces
  import opened HostTraffic

  /** HostSchedule while it is being read in. */
  class HostSchedule {
    var entries: seq<Entry>
    var cycle: int

    ghost function View(): Schedule
      reads this
    {
      Schedule(entries, cycle)
    }

    constructor ()
      ensures View() == Schedule([], 0)
    {
      entries, cycle := [], 0;
    }

    method SetCycle(cycleLength: int)
      modifies this`cycle
      ensures View() == Schedule(old(entries), cycleLength)
    {
      cycle := cycleLength;
    }

    method AddEntry(time: int, size: nat, scheduledObject: nat)
      modifies this`entries
      ensures View() == Schedule(old(entries) + [Entry(time, size, scheduledObject)], old(cycle))
    {
      entries := entries + [Entry(time, size, scheduledObject)];
    }
  }

  class VlanEtherTrafGenSched {
    var currentSchedule: Schedule
    var nextSchedule: Option<Schedule>
    var index: nat
    var seqNum: nat

    ghost function View(): Traffic
      reads this
    {
      Traffic(currentSchedule, nextSchedule, index, seqNum)
    }

    /** The first subscription is then made by ScheduleNextTickEvent. */
    constructor (initial: Schedule)
      ensures View() == After(initial, Start) && Valid(View())
    {
      currentSchedule, nextSchedule, index, seqNum := initial, None, 0, 0;
    }

    /** Entries are sent in order; after the last one, or at once if there is none, the cycle ends. */
    method ScheduleNextTickEvent() returns (idleTicks: nat)
      requires Valid(View())
      ensures idleTicks == Distance(View())
      ensures index > 0 ==>
        (StartOf(currentSchedule, index - 1) + idleTicks) % WORD == Planned(currentSchedule, index)
    {
      if index > 0 {
        DistanceLeadsOn(View());
      }
      var size := |currentSchedule.entries|;
      if size == 0 {
        idleTicks := Unsigned(currentSchedule.cycle);
      } else if index == size {
        idleTicks := Unsigned(Unsigned(currentSchedule.cycle) - StartOf(currentSchedule, index - 1));
      } else {
        assert index % size == index;
        if index % size == 0 {
          idleTicks := StartOf(currentSchedule, index);
        } else {
          idleTicks := Unsigned(
            StartOf(currentSchedule, index % size) - StartOf(currentSchedule, index % size - 1));
        }
      }
    }

    method SendPacket(now: int) returns (packet: Packet)
      requires index < |currentSchedule.entries|
      modifies this`seqNum
      ensures packet == Packet(now, old(seqNum), currentSchedule.entries[index]) && seqNum == old(seqNum) + 1
    {
      packet := Packet(now, seqNum, currentSchedule.entries[index]);
      seqNum := seqNum + 1;
    }

    /** One tick of a run: it sends what the run's log gains, and subscribes so that the next tick is due
        when the run says. */
    method Tick(ghost first: Schedule, ghost zero: int, ghost before: Trace<Action>, now: int)
      returns (sent: Option<Packet>, idleTicks: nat)
      requires View() == After(first, before) && now == Due(first, zero, before)
      modifies this
      ensures View() == After(first, Then(before, Action.Tick))
      ensures now + idleTicks == Due(first, zero, Then(before, Action.Tick))
      ensures Log(first, zero, Then(before, Action.Tick)) ==
        Log(first, zero, before) + if sent.Some? then [sent.value] else []
    {
      if index == |currentSchedule.entries| {
        if nextSchedule.Some? {
          currentSchedule := nextSchedule.value;
          nextSchedule := None;
        }
        index := 0;
        idleTicks := ScheduleNextTickEvent();
        sent := None;
      } else {
        var packet := SendPacket(now);
        index := index + 1;
        idleTicks := ScheduleNextTickEvent();
        sent := Some(packet);
      }
    }

    /** Replaces whatever was waiting; the schedule in force stays. */
    method LoadSchedule(ghost first: Schedule, ghost before: Trace<Action>, schedule: Schedule)
      requires View() == After(first, before)
      modifies this`nextSchedule
      ensures View() == After(first, Then(before, Load(schedule)))
      ensures nextSchedule == Some(schedule)
    {
      nextSchedule := Some(schedule);
    }
  }
}
