/**
 * `LedPinsComponent`, the first LED driver of the firmware: four output pins, a timer with
 * one alarm, and a `FixedSizeQueue` of five pin commands waiting for their deadline. `set`
 * drives a pin at once; `set_later` queues a command and arms the alarm if it is idle; the
 * `TIMER_IRQ_1` handler applies the head of the queue and re-arms the alarm for the next
 * head, or disarms it.
 *
 * The queue's items order by deadline in reverse (their `partial_cmp` compares `other`'s
 * deadline with `self`'s), so the max-heap keeps the earliest deadline at the root. The
 * model gives the heap the key `Urgency`, the negated deadline.
 */
module LedComponent {
  import opened Optional
  import opened EvictingQueue
  import opened Scheduling

  const LED_COUNT: nat := 4
  const QUEUE_CAPACITY: nat := 5

  /**
   * A pin the component can drive. The source panics for `led_num > 4` and indexes its
   * four pins with the rest, so 4 would panic there too; the model admits 0..3.
   */
  type LedIndex = n: nat | n < LED_COUNT

  /** `Command`: drive the pin high or low. The model keeps each pin's level as the last one driven. */
  datatype Command = High | Low

  datatype PinsCommand = PinsCommand(ledNum: LedIndex, command: Command)

  datatype ScheduledPinsCommand = ScheduledPinsCommand(schedule: nat, pinsCommand: PinsCommand)

  /** The heap key: an earlier deadline is a larger key. */
  function Urgency(c: ScheduledPinsCommand): int {
    -(c.schedule as int)
  }

  /** Under `Urgency`, `a >= b` on occupied slots means `a` is due no later than `b`. */
  lemma UrgencyIsEarliness(a: ScheduledPinsCommand, b: ScheduledPinsCommand)
    ensures AtLeast(Some(a), Some(b), Urgency) <==> a.schedule <= b.schedule
    ensures Less(None, Some(b), Urgency)
  {
  }

  class LedPinsComponent {
    /** The level each pin was last driven to. */
    const leds: array<Command>
    /** The timer and `Alarm1`. */
    const scheduler: MockScheduler
    const queue: FixedSizeQueue<ScheduledPinsCommand>

    ghost predicate Valid()
      reads this, queue, queue.heap
    {
      leds.Length == LED_COUNT && queue.Valid() && queue.heap.Length == QUEUE_CAPACITY &&
      queue.key == Urgency
    }

    /** `init`: the pins at their given levels, an empty queue of capacity 5. */
    constructor (initial: seq<Command>, scheduler: MockScheduler)
      requires |initial| == LED_COUNT
      ensures Valid() && fresh(leds) && fresh(queue) && fresh(queue.heap)
      ensures leds[..] == initial && queue.size == 0 && this.scheduler == scheduler
    {
      leds := new Command[LED_COUNT](i requires 0 <= i < LED_COUNT => initial[i]);
      queue := new FixedSizeQueue<ScheduledPinsCommand>(QUEUE_CAPACITY, Urgency);
      this.scheduler := scheduler;
    }

    /** `do_pins_command`: drive the addressed pin and no other. */
    method DoPinsCommand(pinsCommand: PinsCommand)
      requires leds.Length == LED_COUNT
      modifies leds
      ensures leds[..] == old(leds[..])[pinsCommand.ledNum := pinsCommand.command]
    {
      match pinsCommand.command
      case High => leds[pinsCommand.ledNum] := High;
      case Low => leds[pinsCommand.ledNum] := Low;
    }

    /** `set(led_num, command)`: drive the pin now; the queue and the alarm are untouched. */
    method Set(ledNum: LedIndex, command: Command)
      requires Valid()
      modifies leds
      ensures Valid() && leds[..] == old(leds[..])[ledNum := command]
    {
      DoPinsCommand(PinsCommand(ledNum, command));
    }

    /**
     * `set_later(led_num, command, countdown)`: queue the command `countdown` ticks from
     * now and arm the alarm for that instant only if it was idle. On a full queue the
     * command replaces the root when it is due earlier than the root, and is dropped
     * otherwise. The pins are untouched.
     */
    method SetLater(ledNum: LedIndex, command: Command, countdown: nat)
      requires Valid() && scheduler.counter + countdown <= INSTANT_MAX
      modifies queue, queue.heap, scheduler
      ensures Valid() && scheduler.counter == old(scheduler.counter)
      ensures var item := ScheduledPinsCommand(old(scheduler.counter) + countdown, PinsCommand(ledNum, command));
              queue.size == PushedSize(old(queue.size), QUEUE_CAPACITY) &&
              queue.heap[..] == PushedSlots(old(queue.heap[..]), old(queue.size), item, Urgency) &&
              (old(queue.size) < QUEUE_CAPACITY ==>
                 multiset(queue.heap[..queue.size]) == multiset(old(queue.heap[..queue.size])) + multiset{Some(item)})
      ensures scheduler.nextSchedule ==
                (if old(scheduler.Finished()) then Some(old(scheduler.counter) + countdown) else old(scheduler.nextSchedule))
    {
      var item := ScheduledPinsCommand(scheduler.counter + countdown, PinsCommand(ledNum, command));
      Enqueue(item);
      if scheduler.Finished() {
        scheduler.Schedule(countdown);
      }
    }

    /** The first half of `set_later`: push the command onto the queue. */
    method Enqueue(item: ScheduledPinsCommand)
      requires Valid()
      modifies queue, queue.heap
      ensures Valid()
      ensures queue.size == PushedSize(old(queue.size), QUEUE_CAPACITY)
      ensures queue.heap[..] == PushedSlots(old(queue.heap[..]), old(queue.size), item, Urgency)
      ensures old(queue.size) < QUEUE_CAPACITY ==>
                multiset(queue.heap[..queue.size]) == multiset(old(queue.heap[..queue.size])) + multiset{Some(item)}
    {
      queue.Push(item);
    }

    /**
     * The `TIMER_IRQ_1` handler: pop the root and, if it held a command, apply it; then arm
     * the alarm for the deadline now at the root, or disarm it when the root is empty. The
     * command applied is due no later than any command in the first `size` slots, and so is
     * the new alarm among what is left there.
     */
    method OnTimerIrq() returns (fired: Option<ScheduledPinsCommand>)
      requires Valid()
      modifies leds, queue, queue.heap, scheduler
      ensures Valid() && scheduler.counter == old(scheduler.counter)
      ensures fired == (if old(queue.size) > 0 then old(queue.Peek()) else None)
      ensures fired.Some? ==>
                forall k :: 0 <= k < old(queue.size) && old(queue.heap[k]).Some? ==>
                  fired.value.schedule <= old(queue.heap[k]).value.schedule
      ensures leds[..] ==
                if fired.Some? then old(leds[..])[fired.value.pinsCommand.ledNum := fired.value.pinsCommand.command]
                else old(leds[..])
      ensures queue.heap[..] == PoppedSlots(old(queue.heap[..]), old(queue.size), Urgency)
      ensures queue.size == if old(queue.size) > 0 then old(queue.size) - 1 else 0
      ensures scheduler.nextSchedule == if queue.Peek().Some? then Some(queue.Peek().value.schedule) else None
      ensures queue.Peek().Some? ==>
                forall k :: 0 <= k < queue.size && queue.heap[k].Some? ==>
                  queue.Peek().value.schedule <= queue.heap[k].value.schedule
    {
      fired := ApplyHead();
      Rearm();
    }

    /** The first half of the handler: pop the root and apply the command it held, if any. */
    method ApplyHead() returns (fired: Option<ScheduledPinsCommand>)
      requires Valid()
      modifies leds, queue, queue.heap
      ensures Valid()
      ensures fired == (if old(queue.size) > 0 then old(queue.Peek()) else None)
      ensures fired.Some? ==>
                forall k :: 0 <= k < old(queue.size) && old(queue.heap[k]).Some? ==>
                  fired.value.schedule <= old(queue.heap[k]).value.schedule
      ensures leds[..] ==
                if fired.Some? then old(leds[..])[fired.value.pinsCommand.ledNum := fired.value.pinsCommand.command]
                else old(leds[..])
      ensures queue.heap[..] == PoppedSlots(old(queue.heap[..]), old(queue.size), Urgency)
      ensures queue.size == if old(queue.size) > 0 then old(queue.size) - 1 else 0
    {
      fired := queue.Pop();
      if fired.Some? {
        DoPinsCommand(fired.value.pinsCommand);
      }
    }

    /** The second half of the handler: arm the alarm for the root's deadline, or disarm it. */
    method Rearm()
      requires Valid()
      modifies scheduler
      ensures scheduler.counter == old(scheduler.counter)
      ensures scheduler.nextSchedule == if queue.Peek().Some? then Some(queue.Peek().value.schedule) else None
      ensures queue.Peek().Some? ==>
                forall k :: 0 <= k < queue.size && queue.heap[k].Some? ==>
                  queue.Peek().value.schedule <= queue.heap[k].value.schedule
    {
      var next := queue.Peek();
      if next.Some? {
        scheduler.ScheduleAt(next.value.schedule);
      } else {
        scheduler.ClearInterrupt();
      }
    }
  }
}
