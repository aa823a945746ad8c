/**
 * The alarm both LED engines drive, modelled on the deterministic `MockScheduler` of the LED
 * engine's tests: a counter that stands for the timer, and an optional instant at which the
 * single alarm is armed. On the hardware the same calls go to the rp2040 `Timer` and
 * `Alarm1`; the model keeps only what the engines observe of them.
 */
module Scheduling {
  import opened Optional

  /** Instants are `u32` tick counts; the model excludes overflow by preconditions. */
  const INSTANT_MAX: nat := 0xFFFF_FFFF

  class MockScheduler {
    /** `get_counter()`: the current instant. */
    var counter: nat
    /** `maybe_next_schedule`: the instant the alarm is armed for, if any. */
    var nextSchedule: Option<nat>

    /** `new()`: counter 0, alarm idle. */
    constructor ()
      ensures counter == 0 && nextSchedule == None
    {
      counter := 0;
      nextSchedule := None;
    }

    /** `finished()`: the alarm is not armed. */
    predicate Finished()
      reads this
    {
      nextSchedule.None?
    }

    /** `schedule(countdown)`: arm the alarm `countdown` ticks from now. */
    method Schedule(countdown: nat)
      requires counter + countdown <= INSTANT_MAX
      modifies this
      ensures counter == old(counter) && nextSchedule == Some(counter + countdown)
    {
      nextSchedule := Some(counter + countdown);
    }

    /** `schedule_at(at)`: arm the alarm for the instant `at`. */
    method ScheduleAt(at: nat)
      modifies this
      ensures counter == old(counter) && nextSchedule == Some(at)
    {
      nextSchedule := Some(at);
    }

    /** `clear_interrupt()`: disarm the alarm. */
    method ClearInterrupt()
      modifies this
      ensures counter == old(counter) && nextSchedule == None
    {
      nextSchedule := None;
    }
  }
}
