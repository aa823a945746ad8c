# rp-pico LED timer multiplexer, in Dafny

This project models the core of a small Raspberry Pi Pico firmware and of its x86_64 front
end. At the centre is a single-alarm timer multiplexer. Future LED actions wait in a
fixed-capacity priority queue ordered by deadline, and one hardware alarm is always armed for
the head of that queue. The model covers:

- **`FixedSizePriorityQueue<T, N>`** (module `PriorityQueue`). It is an array-backed binary
  min-heap over `[Option<T>; N]` with a `size` field. `push` refuses an item when the heap is
  full. `pop` moves the last occupied slot to the root and sifts it down.
- **The `LedPins` engine** (module `LedEngine`), with the test `MockScheduler` as its alarm
  (module `Scheduling`). Each LED is in mode HIGH, LOW or BLINK. A BLINK LED re-schedules its
  own toggle every `BLINK_MILLIS` (100). A toggle that arrives after the LED has left BLINK is
  ignored. `handle_schedule` drains every due command and re-arms the alarm for the queue
  head. One class serves two sources:
  - led_pins/src/lib.rs, whose commands are ordered by deadline only;
  - src/global_led_pins.rs, whose derived order is lexicographic on (deadline, LED number,
    command).

  The constructor's `CommandOrder` argument chooses between the two.
- **`FixedSizeQueue<T, N>`** (module `EvictingQueue`). This is the earlier max-heap, which
  appears in fixed_size_queue/src/lib.rs and again, copied, in src/led_pins.rs. A push on a
  full heap evicts the root instead of failing. Its `pop` is modelled as written, and it
  loses items (see Findings).
- **`LedPinsComponent`** and the body of its `TIMER_IRQ_1` handler (module `LedComponent`).
  Its queue items compare by deadline in reverse, so the max-heap keeps the earliest deadline
  at the root.
- **`ButtonInputQueue`** (module `ButtonQueue`), the append buffer that the button interrupts
  fill and `pop_all` drains.
- **The stopwatch application** (module `Stopwatch`). It covers:
  - the `Counter` start, stop and total;
  - the `App` cursor;
  - the day/hour/minute/second/millisecond split;
  - the line prefix of the selected counter.
- **The saturating four-number counter** (module `CounterApp`) and its `to_string`.
- **The 2×8 text console with a deferred newline** (module `TextConsole`).
- **The 16-byte to two 8-byte-line split of the character display** (module `Display`).
- **The bitmask to four pins mapping** (module `Leds`).
- **The key-repeat latch of `poll_char`** on the PC keyboard (module `Keyboard`).

The model takes the same form as the source:
- Objects whose fields change in place are classes with `modifies` clauses: the heaps, the
  LED engines, the alarm, the button buffer, the apps, the console, the pins and the
  keyboard.
- Each method is proved against a pure specification function on sequences, such as
  `PushSlots`, `PoppedSlots`, `CommandEffect` or `WriteSpec`.
- The heap-order, permutation, drain and round-trip properties are lemmas about those
  functions.

Instants, durations and counters are unbounded naturals. Where the source's `u32` or `u128`
arithmetic could overflow or underflow, a precondition excludes it.

Shared modules:
- `Optional`: Rust's `Option`.
- `Bytes`: `u8`.
- `Slots`: the helpers both heaps use for slot sequences. These are the swap, the parent
  index, the occupied prefix and the multiset of held items.

## Model

| member | source | states |
|---|---|---|
| Slots.ParentIndex | fixed_size_priority_queue/src/lib.rs:56-62 | `(i + 1) / 2 - 1` is the slot whose left or right child is `i`, and lies before it |
| Slots.RootIsMinimum | fixed_size_priority_queue/src/lib.rs:22-24 | in a min-heap no occupied slot has a smaller key than the root |
| Slots.HeapMinimum | fixed_size_priority_queue/src/lib.rs:22-24 | the root of a non-empty min-heap is one of the held items, and no held item is smaller |
| PriorityQueue.Left | fixed_size_priority_queue/src/lib.rs:63-66 | the left child `2i + 1` when it is inside the array, `None` exactly when it is not |
| PriorityQueue.Right | fixed_size_priority_queue/src/lib.rs:67-70 | the right child `2i + 2` when it is inside the array, `None` exactly when it is not |
| PriorityQueue.Smallest | fixed_size_priority_queue/src/lib.rs:73-88 | the slot `min_heapy` picks is self, left or right, is no larger than any occupied child, differs from self only when strictly smaller, and prefers left on a tie |
| PriorityQueue.SiftUp | fixed_size_priority_queue/src/lib.rs:91-100 | `heapify_up` only permutes the slots, keeps the occupied prefix, and leaves every slot after the start alone |
| PriorityQueue.MinHeapify | fixed_size_priority_queue/src/lib.rs:73-88 | `min_heapy` only permutes the slots and keeps which slots are occupied |
| PriorityQueue.SiftUpRestoresOrder | fixed_size_priority_queue/src/lib.rs:91-100 | sifting up a slot that may be smaller than its parent restores the heap order |
| PriorityQueue.MinHeapifyRestoresOrder | fixed_size_priority_queue/src/lib.rs:73-88 | sifting down a slot that may be larger than its children restores the heap order |
| PriorityQueue.PushKeepsHeap | fixed_size_priority_queue/src/lib.rs:42-51 | a push below capacity keeps slot `k` occupied exactly when `k < size`, keeps the heap order, and adds exactly the item |
| PriorityQueue.PopKeepsOrder | fixed_size_priority_queue/src/lib.rs:27-40 | a pop on a non-empty heap leaves `size - 1` packed slots in heap order |
| PriorityQueue.PopRemovesRoot | fixed_size_priority_queue/src/lib.rs:27-40 | a pop on a non-empty heap removes exactly the root item |
| PriorityQueue.FixedSizePriorityQueue.constructor | fixed_size_priority_queue/src/lib.rs:15-20 | `new`: every slot empty, size 0, nothing held |
| PriorityQueue.FixedSizePriorityQueue.Peek | fixed_size_priority_queue/src/lib.rs:22-24 | `peek` is `None` exactly when the heap is empty, and otherwise a held item no larger than any held item |
| PriorityQueue.FixedSizePriorityQueue.HeapifyUp | fixed_size_priority_queue/src/lib.rs:91-100 | the recursive `heapify_up` leaves the slots `SiftUp` describes |
| PriorityQueue.FixedSizePriorityQueue.MinHeapy | fixed_size_priority_queue/src/lib.rs:73-88 | the recursive `min_heapy` leaves the slots `MinHeapify` describes |
| PriorityQueue.FixedSizePriorityQueue.Push | fixed_size_priority_queue/src/lib.rs:42-51 | `push` returns true exactly when the heap was not full; then the slots are `PushSlots` of the old ones (the item written at `size` and sifted up), the size grows by one and the item joins the held items; otherwise nothing changes |
| PriorityQueue.FixedSizePriorityQueue.Pop | fixed_size_priority_queue/src/lib.rs:27-40 | `pop` returns the old `peek`; on an empty heap nothing changes; otherwise the slots are `PopSlots` of the old ones (the root emptied, the last occupied slot swapped in and sifted down), the size drops by one and exactly that item leaves |
| PriorityQueueTrace.FillThree | fixed_size_priority_queue/src/lib.rs:179-189 | with capacity 3, pushing 1, 3 and 2 holds exactly those items, a fourth push is refused, and the slots are `[Some(1), Some(3), Some(2)]` with size 3 |
| PriorityQueueTrace.PushOneLayout | fixed_size_priority_queue/src/lib.rs:179 | pushing 1 onto the empty heap puts it in the root |
| PriorityQueueTrace.PushThreeLayout | fixed_size_priority_queue/src/lib.rs:180 | pushing 3 onto `[1]` leaves it in the left child, since it is not smaller than the root |
| PriorityQueueTrace.PushTwoLayout | fixed_size_priority_queue/src/lib.rs:181 | pushing 2 onto `[1, 3]` leaves it in the right child, so the children need not be ordered left to right |
| PriorityQueueTrace.PopThree | fixed_size_priority_queue/src/lib.rs:190-192 | three pops on the heap holding 1, 3 and 2 return 1, 2 and 3 and empty it |
| PriorityQueueTrace.CapacityThreeTrace | fixed_size_priority_queue/src/lib.rs:179-192 | the unit test's trace: the fourth push is refused, the pops give 1, 2, 3, and a further pop gives `None` |
| EvictingQueue.Less | fixed_size_queue/src/lib.rs:54 | Rust's derived `<` on `Option`: `None` is below every `Some`, nothing is below `None`, nothing is below itself, and two `Some`s compare by key |
| EvictingQueue.AtLeast | fixed_size_queue/src/lib.rs:73-78 | the negation of `<` that stops `heapify_down`: everything is at least `None`, `None` is at least only `None`, it is reflexive, and two `Some`s compare by key |
| EvictingQueue.SiftUpMax | fixed_size_queue/src/lib.rs:51-61 | `heapify_up` only permutes the slots, `None`s included, and leaves the slots after the start alone |
| EvictingQueue.LargestChild | fixed_size_queue/src/lib.rs:63-71 | the child `heapify_down` compares with is inside the size and no smaller than either child |
| EvictingQueue.SiftDownMax | fixed_size_queue/src/lib.rs:63-80 | `heapify_down` only permutes the slots and leaves the slots from `size` on alone |
| EvictingQueue.PushedSlots | fixed_size_queue/src/lib.rs:36-49 | `push` keeps the number of slots; its order and contents are stated by `PushKeepsOrder` and `PushContents` |
| EvictingQueue.PoppedSlots | fixed_size_queue/src/lib.rs:25-34 | `pop` as written keeps the number of slots and leaves the old slot `size - 1` where it was, now outside the heap |
| EvictingQueue.RepairedPopSlots | fixed_size_queue/src/lib.rs:25-34 | the repaired pop keeps the number of slots and empties the slot `size - 1` that leaves the heap |
| EvictingQueue.SiftUpMaxRestoresOrder | fixed_size_queue/src/lib.rs:51-61 | sifting up a slot that may be greater than its parent `(i - 1) / 2` restores the max-heap order |
| EvictingQueue.SiftDownMaxRestoresOrder | fixed_size_queue/src/lib.rs:63-80 | sifting down a slot that may be smaller than its children restores the max-heap order |
| EvictingQueue.RootIsLargest | fixed_size_queue/src/lib.rs:21-23 | in a max-heap no slot of the first `size` is above the root |
| EvictingQueue.PushKeepsOrder | fixed_size_queue/src/lib.rs:36-49 | `push` keeps the max-heap order, in both the below-capacity and the evicting branch |
| EvictingQueue.PushContents | fixed_size_queue/src/lib.rs:36-49 | below capacity the slots hold the old ones plus the item; at capacity the root is traded for the item exactly when it is occupied and smaller, and otherwise nothing changes |
| EvictingQueue.PushKeepsOccupancy | fixed_size_queue/src/lib.rs:36-49 | a packed heap stays packed after `push` |
| EvictingQueue.PushAddsItem | fixed_size_queue/src/lib.rs:36-40 | a push below capacity adds exactly the item to the held items |
| EvictingQueue.PopKeepsOrder | fixed_size_queue/src/lib.rs:25-34 | `pop` as written keeps the first `size - 1` slots in max-heap order |
| EvictingQueue.PopContents | fixed_size_queue/src/lib.rs:25-34 | after `pop` as written, the first `size - 1` slots are the old ones with the root emptied, so the old slot `size - 1` drops out |
| EvictingQueue.RepairedPopKeepsHeap | fixed_size_queue/src/lib.rs:25-34 | the repaired pop keeps the heap packed and in max-heap order |
| EvictingQueue.RepairedPopRemovesRoot | fixed_size_queue/src/lib.rs:25-34 | the repaired pop removes exactly the root item |
| EvictingQueue.FixedSizeQueue.constructor | fixed_size_queue/src/lib.rs:14-19 | `new`: every slot `None`, size 0 |
| EvictingQueue.FixedSizeQueue.Peek | fixed_size_queue/src/lib.rs:21-23 | `peek` is `None` exactly when none of the first `size` slots is occupied, and otherwise one of them and no smaller than any |
| EvictingQueue.FixedSizeQueue.HeapifyUp | fixed_size_queue/src/lib.rs:51-61 | the `while` loop of `heapify_up` leaves the slots `SiftUpMax` describes |
| EvictingQueue.FixedSizeQueue.HeapifyDown | fixed_size_queue/src/lib.rs:63-80 | the `while` loop of `heapify_down` leaves the slots `SiftDownMax` describes |
| EvictingQueue.FixedSizeQueue.Push | fixed_size_queue/src/lib.rs:36-49 | below capacity the size grows and the item joins; at capacity the size stays, the root is overwritten only by a larger item, and otherwise nothing changes |
| EvictingQueue.FixedSizeQueue.Pop | fixed_size_queue/src/lib.rs:25-34 | `pop` as written: `None` and no change when empty; otherwise the old root, which is no smaller than any slot, and a size one smaller |
| EvictingQueue.FixedSizeQueue.RepairedPop | fixed_size_queue/src/lib.rs:25-34 | the intended `pop`: a largest held item, removed from the held items, with the heap kept packed |
| EvictingQueueTrace.PushOneThreeTwo | fixed_size_queue/src/lib.rs:99-105 | pushing 1, 3 and 2 into capacity 3 goes through the slots `[1]`, `[3, 1]` and `[3, 1, 2]` |
| EvictingQueueTrace.PopTwice | fixed_size_queue/src/lib.rs:25-34 | `pop` as written on `[3, 1, 2]` leaves `[1, None, 2]` with size 2, then `[None, None, 2]` with size 1 |
| EvictingQueueTrace.FillThree | fixed_size_queue/src/lib.rs:99-105 | the three pushes leave the slots `[3, 1, 2]` with size 3 |
| EvictingQueueTrace.LostItemTrace | fixed_size_queue/src/lib.rs:109-111 | `pop` as written on that queue returns 3, then 1, then `None`, so the item 2 is lost |
| EvictingQueueTrace.FillThreeHeld | fixed_size_queue/src/lib.rs:99-105 | the same queue holds exactly 3, 1 and 2 |
| EvictingQueueTrace.RepairedTrace | fixed_size_queue/src/lib.rs:109-112 | the repaired pop returns 3, 2, 1 and then `None`, as the unit test expects |
| Scheduling.MockScheduler.constructor | led_pins/src/lib.rs:293-299 | `new`: counter 0 and the alarm idle |
| Scheduling.MockScheduler.Schedule | led_pins/src/lib.rs:308-310 | `schedule(countdown)` arms the alarm at `counter + countdown` |
| Scheduling.MockScheduler.ScheduleAt | led_pins/src/lib.rs:311-313 | `schedule_at(at)` arms the alarm at `at` |
| Scheduling.MockScheduler.ClearInterrupt | led_pins/src/lib.rs:314-316 | `clear_interrupt` disarms the alarm |
| LedEngine.Key | src/global_led_pins.rs:82-87 | under the deadline order the key is the deadline; under the derived order each deadline owns a block of 20 keys, one per (LED, command), so a later deadline always has a larger key |
| LedEngine.LexicographicKeyIsDerivedOrder | src/global_led_pins.rs:82-106 | the packed key orders scheduled commands exactly as the derived lexicographic order on (deadline, LED number, command), with `HIGH < LOW < BLINK` and `ChangeLedMode < ChangeLedStatus`, and distinct commands get distinct keys |
| LedEngine.KeyFollowsSchedule | led_pins/src/lib.rs:48-58 | under either ordering an earlier deadline means a smaller key, and a smaller key never means a later deadline |
| LedEngine.ModeChange | led_pins/src/lib.rs:151-175 | `_change_mode` stores the mode and drives HIGH for HIGH and BLINK and LOW for LOW, touches no other LED, and yields a toggle to LOW `BLINK_MILLIS` from now exactly for BLINK |
| LedEngine.CommandEffect | led_pins/src/lib.rs:178-209 | any follow-up of `_handle_command` addresses the same LED and is due `BLINK_MILLIS` from now |
| LedEngine.FollowUps | led_pins/src/lib.rs:216-225 | every follow-up made while draining is due `BLINK_MILLIS` after the drain's instant |
| LedEngine.StaleToggleIsIgnored | led_pins/src/lib.rs:207 | a toggle for an LED outside BLINK changes nothing and yields no follow-up |
| LedEngine.ToggleInBlink | led_pins/src/lib.rs:190-206 | in BLINK a toggle drives the level it carries and schedules the opposite level `BLINK_MILLIS` later |
| LedEngine.BlinkChainAlternates | led_pins/src/lib.rs:190-206 | handling a toggle and then its follow-up drives the opposite level and schedules the original toggle again |
| LedEngine.QueuedModeChangeHasNoFollowUp | led_pins/src/lib.rs:185-188 | a queued mode change applies the mode and its entry level but yields no follow-up, so a delayed BLINK never starts toggling |
| LedEngine.CommandIsLocal | led_pins/src/lib.rs:183-208 | a handled command changes neither the pin nor the mode of any other LED |
| LedEngine.DrainStarts | led_pins/src/lib.rs:213-216 | the drain loop starts in its invariant |
| LedEngine.DrainRoundKeeps | led_pins/src/lib.rs:216-221 | handling a due head no larger than anything queued, and queueing its follow-up, keeps the drain invariant and consumes one of the starting commands |
| LedEngine.HeadIsEarliest | led_pins/src/lib.rs:216-224 | the head under either key has the earliest deadline in the queue, so when the drain stops nothing queued is due |
| LedEngine.DrainedCounts | led_pins/src/lib.rs:216-225 | when nothing due is left, the handled commands are exactly the due commands that were queued at the start |
| LedEngine.LedPins.constructor | led_pins/src/lib.rs:110-118 | `init`: the given pins, every mode LOW, an empty queue of capacity 20 |
| LedEngine.LedPins.ChangeMode | led_pins/src/lib.rs:151-175 | `_change_mode` leaves the pins, modes and result that `ModeChange` gives |
| LedEngine.LedPins.HandleCommand | led_pins/src/lib.rs:178-209 | `_handle_command` leaves the pins, modes and follow-up that `CommandEffect` gives |
| LedEngine.LedPins.SetLedMode | led_pins/src/lib.rs:120-130 | HIGH and LOW set the pin and mode and touch neither queue nor alarm; BLINK also enqueues a toggle to LOW at `counter + BLINK_MILLIS`, dropped on a full queue, and arms the alarm for it only if the alarm was idle |
| LedEngine.LedPins.SetModeLater | led_pins/src/lib.rs:132-148 | the pins and modes stay; the mode change at `counter + countdown` is enqueued, dropped on a full queue; the alarm is armed at `counter + countdown` only if `Finished()` held, that is, no alarm was armed |
| LedEngine.LedPins.Enqueue | led_pins/src/lib.rs:125 | the ignored `queue.push`: the command joins the queue below capacity and is dropped at capacity |
| LedEngine.LedPins.PopHead | led_pins/src/lib.rs:216-218 | the drain's `peek` and `pop`: the head leaves the queue and is no larger than anything that was queued |
| LedEngine.LedPins.EnqueueFollowUp | led_pins/src/lib.rs:219-221 | the drain's `push` always has room after the pop, so the follow-up always joins the queue |
| LedEngine.LedPins.ExecuteHead | led_pins/src/lib.rs:216-221 | one round: the minimal head is popped and handled as `CommandEffect` says, and its follow-up replaces it in the queue |
| LedEngine.LedPins.DrainRound | led_pins/src/lib.rs:216-221 | one round with a due head keeps the drain invariant and handles one more of the starting commands |
| LedEngine.LedPins.Drain | led_pins/src/lib.rs:216-225 | the `while let` loop ends with the drain invariant and with nothing queued due at or before `now` |
| LedEngine.LedPins.HandleSchedule | led_pins/src/lib.rs:211-233 | clears and re-arms the alarm; the handled commands are exactly the due ones queued before, in key order; the pins are their replay; afterwards nothing queued is due and the alarm is at the head's deadline, the earliest queued, or idle on an empty queue |
| LedComponent.UrgencyIsEarliness | src/led_pins.rs:109-113 | under the heap key `Urgency`, the deadline negated as the reversed `partial_cmp` compares, `a >= b` holds exactly when `a` is due no later than `b`, and an empty slot is below every command |
| LedComponent.LedPinsComponent.constructor | src/led_pins.rs:149-178 | `init`: the pins as given and an empty queue of capacity 5 |
| LedComponent.LedPinsComponent.DoPinsCommand | src/led_pins.rs:225-230 | `do_pins_command` drives the addressed pin and no other |
| LedComponent.LedPinsComponent.Set | src/led_pins.rs:180-197 | `set` drives the pin now and leaves queue and alarm untouched |
| LedComponent.LedPinsComponent.SetLater | src/led_pins.rs:199-223 | `set_later` pushes the command at `counter + countdown`, evicting the root on a full queue only for an earlier command, and arms the alarm only if `Finished()` held, that is, no alarm was armed |
| LedComponent.LedPinsComponent.Enqueue | src/led_pins.rs:214-217 | the `push` of `set_later`, as `FixedSizeQueue.Push` describes |
| LedComponent.LedPinsComponent.ApplyHead | src/led_pins.rs:240-246 | the handler pops one command, whatever its deadline, and applies it; it is due no later than anything in the heap |
| LedComponent.LedPinsComponent.Rearm | src/led_pins.rs:247-253 | the alarm is armed at the new root's deadline, the earliest left, or disarmed when the root is empty |
| LedComponent.LedPinsComponent.OnTimerIrq | src/led_pins.rs:233-255 | the whole `TIMER_IRQ_1` body: one command popped and applied, then the alarm re-armed or cleared |
| ButtonQueue.ButtonInputQueue.constructor | src/button_input_queue.rs:106-111 | `new`: every slot `Button0`, cursor 0, nothing pending |
| ButtonQueue.ButtonInputQueue.PushAsWritten | src/button_input_queue.rs:172-181 | `push` as written, below capacity: writes at the cursor, appends to the pending inputs and returns `Some(())` |
| ButtonQueue.GuardAdmitsFullBuffer | src/button_input_queue.rs:174-175 | at a full buffer the guard of `push` as written, `PushGuard` (`cursor <= 20`), still holds while the index lies past the buffer |
| ButtonQueue.ButtonInputQueue.Push | src/button_input_queue.rs:172-181 | the intended `push`: `Some(())` exactly when there is room, then one more pending input; `None` and no change on a full buffer |
| ButtonQueue.ButtonInputQueue.PopAll | src/button_input_queue.rs:156-170 | `pop_all` returns the pending inputs in push order and resets the cursor, leaving the slots as they were |
| ButtonQueue.PushAllThenPopAll | src/button_input_queue.rs:156-181 | pushing inputs into a fresh queue and draining returns them in order up to the capacity, refuses the rest, and a second drain returns nothing |
| Stopwatch.TotalDuration | app/src/lib.rs:51-56 | `get_total_duration` is at least the accumulated time, and exactly that on a stopped counter |
| Stopwatch.Activate | app/src/lib.rs:34-39 | `activate` starts a run only on a stopped counter and keeps a running one as it is, and does not change the total |
| Stopwatch.Deactivate | app/src/lib.rs:41-49 | `deactivate` stops the counter without changing the total read at the same instant, and is a no-op on a stopped counter |
| Stopwatch.TotalFollowsClock | app/src/lib.rs:51-56 | a stopped counter's total stays still; a running one's grows tick for tick with the clock |
| Stopwatch.RunAddsItsLength | app/src/lib.rs:34-49 | a run from `start` to `stop` adds exactly `stop - start` |
| Stopwatch.ActivateDeactivateIdempotent | app/src/lib.rs:34-49 | starting twice keeps the first start; stopping twice is stopping once |
| Stopwatch.MovedCursor | app/src/lib.rs:69-78 | up and down move the cursor within 0..3; left and right leave it |
| Stopwatch.LinePrefix | app/src/lib.rs:117 | the prefix is two characters, a space last, and starts with `>` exactly for the selected counter |
| Stopwatch.App.constructor | app/src/lib.rs:60-65 | `init`: four idle counters and the cursor on the first |
| Stopwatch.App.OnKeyDown | app/src/lib.rs:67-86 | the cursor moves as `MovedCursor` says; left stops and right starts the selected counter, and no other counter changes |
| Stopwatch.App.ElapsedTimesMs | app/src/lib.rs:89-96 | each counter's total, in counter order |
| Stopwatch.App.LinePrefixes | app/src/lib.rs:137-144 | line `i` is prefixed `"> "` exactly when the cursor is on it, and two spaces otherwise |
| Stopwatch.StopKeepsTotals | app/src/lib.rs:79-81 | stopping the selected counter leaves every total read at that instant unchanged |
| Stopwatch.Decompose | app/src/lib.rs:101-112 | days, hours, minutes, seconds and milliseconds recompose to the total, with each field but days below its next unit |
| Stopwatch.DecomposeSound | app/src/lib.rs:108-112 | the five fields computed by the source's own `/` and `%` expressions are in range and recompose to the total |
| Stopwatch.DecomposeRecompose | app/src/lib.rs:101-112 | splitting inverts recomposing: an in-range split is recovered from its total |
| CounterApp.Pad3 | src/app.rs:48 | `{:03}` gives three decimal digits |
| CounterApp.Pad3RoundTrip | src/app.rs:48 | the three digits read back to the value |
| CounterApp.NumbersLine | src/app.rs:48 | the first line has 20 characters, between `[` and `]` |
| CounterApp.NumbersLineLayout | src/app.rs:48 | value `i` is printed in columns `1 + 5i` to `3 + 5i` |
| CounterApp.Render | src/app.rs:46-55 | `to_string` is the numbers line, a newline, `3 + 5 * cursor` spaces and a caret |
| CounterApp.CaretUnderSelection | src/app.rs:46-55 | the caret sits under the last digit of the selected value |
| CounterApp.RenderReadsBack | src/app.rs:46-55 | every value reads back from its digits in the rendered text |
| CounterApp.App.constructor | src/app.rs:14-19 | `init`: four zeros, cursor 0 |
| CounterApp.App.OnKeyDown | src/app.rs:21-44 | up and down change only the selected value, saturating at 255 and 0; left and right move only the cursor, clamped to 0..3 |
| TextConsole.AddCharSpec | src/console.rs:33-44 | a pending newline first moves line 0 up and starts a blank line; the byte lands at the cursor while it is below 8 and is dropped otherwise |
| TextConsole.WriteAppend | src/console.rs:56-66 | writing two strings in turn is writing their concatenation |
| TextConsole.WriteByte | src/console.rs:57-64 | a newline changes neither line nor cursor and only sets the pending flag; any other byte goes through `add_char`, which clears it; the console stays two lines of eight with the cursor in 0..8 |
| TextConsole.WriteSpec | src/console.rs:56-66 | after a non-empty string a newline is pending exactly when its last byte is a newline, and the console stays two lines of eight with the cursor in 0..8 |
| TextConsole.NewlinesCollapse | src/console.rs:58-62 | two newlines in a row act as one |
| TextConsole.WriteWithinLine | src/console.rs:40-43 | bytes without a newline land in line 0 from the cursor on, the overflow is dropped, and line 1 is untouched |
| TextConsole.NewLineThenByte | src/console.rs:34-43 | after a newline, the next byte scrolls line 0 up and starts the new line |
| TextConsole.NewLineShowsText | src/console.rs:56-66 | a newline and a line of text show the text's first eight bytes, padded with spaces, under the previous line |
| TextConsole.Console.constructor | src/console.rs:22-31 | `init_blocking`: two blank lines, cursor 0, no newline pending |
| TextConsole.Console.AddChar | src/console.rs:33-44 | `add_char` leaves the state `AddCharSpec` gives, within 8 columns |
| TextConsole.Console.WriteStr | src/console.rs:56-66 | the loop of `write_str` leaves the state `WriteSpec` gives |
| Display.Line | src/display_aqm0802.rs:88-93 | a line is eight bytes: the message's bytes from its start, then spaces |
| Display.SplitLines | src/display_aqm0802.rs:91-101 | the loop leaves bytes 0..7 in the first line and 8..15 in the second, spaces elsewhere |
| Display.LinesShowMessage | src/display_aqm0802.rs:88-101 | the two lines start with the message's first sixteen bytes and are spaces after them |
| Display.TailIgnored | src/display_aqm0802.rs:89-95 | bytes from the seventeenth on do not reach the display |
| Leds.Levels | src/leds.rs:39-43 | pin `i` is high exactly when bit `i` of `n` is set |
| Leds.ShowsLowNibble | src/leds.rs:30-44 | the pins show the low four bits of `n`, and the high four have no effect |
| Leds.ShownRoundTrip | src/leds.rs:30-44 | every combination of levels is shown by exactly the number it reads as |
| Leds.LEDs.constructor | src/leds.rs:14-26 | `new`: the four pins as given |
| Leds.LEDs.Light | src/leds.rs:28-47 | `light(n)` writes all four pins, each to the level of its bit of `n` |
| Keyboard.PollStep | x86_64/src/pc_keyboard.rs:20-40 | a character comes back exactly for a key-down while not pressed that decodes to one; down sets the latch, up clears it, and nothing else changes it |
| Keyboard.Results | x86_64/src/pc_keyboard.rs:20-40 | one result per poll |
| Keyboard.LatchHeldWithoutUp | x86_64/src/pc_keyboard.rs:24-37 | once set, the latch stays set and no character comes back until an up event |
| Keyboard.CharactersSeparatedByUp | x86_64/src/pc_keyboard.rs:24-39 | between any two returned characters there is an up event |
| Keyboard.PrefixResults | x86_64/src/pc_keyboard.rs:20-40 | each poll's result depends only on the earlier events, through the latch they leave |
| Keyboard.PCKeyboard.constructor | x86_64/src/pc_keyboard.rs:12-18 | `init`: no key held |
| Keyboard.PCKeyboard.PollChar | x86_64/src/pc_keyboard.rs:20-40 | `poll_char` returns and leaves the latch as `PollStep` says |

## Left out

- Concurrency and interrupt plumbing are not modelled. This covers the `static Mutex<RefCell<Option<..>>>` singletons, `critical_section::with`, NVIC unmasking and the `#[interrupt]` entry points. Each handler body is a method on one object, and the global wrappers of src/global_led_pins.rs:22-76 are not modelled.
- The rp2040 `Timer` and `Alarm1` are not modelled. The engines drive `MockScheduler`, the deterministic alarm of the LED engine's tests, which is what they observe of the hardware. `schedule_at(..).unwrap()` on the hardware alarm is taken to succeed.
- Pin I/O, I2C and the display's `print_blocking2`, `init_blocking` and `clear_display` are not modelled. Neither are `Console::print` and the `fmt::Result` of `write_str`. A pin level is kept as the level last driven, and driving a pin cannot fail.
- The keyboard port read and the pc_keyboard decoder are not modelled. Each poll receives the completed key event, if any, and the character it decodes to, if any.
- Logging (`info!`, `debug!`, `error!`) is not modelled.
- The `led_num > 4` guard admits 4. `set_led_mode` and `set` then index past the four-element arrays at once and panic. `set_mode_later` and `set_later` instead enqueue the command for LED 4, and the panic is deferred to when it is handled, in `_handle_command` or `do_pins_command`; in the evicting queue of the LED component that entry may be evicted or lost first and never panic. The model's LED index types admit only 0..3, so none of these paths is modelled.
- LedEngine.LedPins.SetLedMode: for BLINK, requires `counter + BLINK_MILLIS` to fit in `u32`. The mock's `u32` addition would overflow beyond that, and the hardware's 64-bit instant would not; neither is modelled.
- LedEngine.LedPins.SetModeLater: requires `counter + countdown` to fit in `u32`, for the same reason.
- LedComponent.LedPinsComponent.SetLater: requires `counter + countdown` to fit in `u32`, for the same reason.
- Scheduling.MockScheduler.Schedule: requires `counter + countdown` to fit in `u32`, as the mock's `u32` addition does.
- LedEngine.LedPins.HandleSchedule: the follow-ups it enqueues are due at `counter + BLINK_MILLIS`, unbounded in the model. The `u32` overflow of that addition is not modelled.
- Stopwatch.App.OnKeyDown: for AllowLeft, requires the selected counter to have been started no later than `now`. Otherwise `app_elapsed_time - t` underflows `u128` and panics, and that path is not modelled.
- Stopwatch.Deactivate: requires the same; see the line above.
- Stopwatch.TotalDuration: requires the same; see the line above.
- Stopwatch.App.ElapsedTimesMs: requires the same; see the line above.
- Stopwatch.TotalFollowsClock: requires the same; see the line above.
- The `u128` width of the stopwatch's times is not modelled, since values stay unbounded naturals.
- The text that `format_total_duration_long` writes through `WriteTo` is not modelled: the numerals, the unit words and the 64-byte buffer. The `WriteTo` module is not part of this model. Only the prefix choice and the day/hour/minute/second/millisecond split are modelled.
- The `None` branch of `pop_all`, taken when the global queue was never initialised, is not modelled. It belongs to the global singleton.
- `ButtonInterrupts::add` and `get_event_and_set_next` are not modelled. They are unfinished (a syntax error and `todo!()`), so there is no behaviour to model. src/button_interrupt.rs and src/scheduler.rs are not part of this model for the same reason.
- ButtonQueue.ButtonInputQueue.PushAsWritten: requires `cursor < 20`. The call at `cursor == 20`, which the guard admits, panics on the index (see Findings).
- Two unit tests disagree with the code, and the model follows the code:
  - led_pins/src/lib.rs:471 and 497 expect a blink period of 250 ms, but `BLINK_MILLIS` is 100.
  - fixed_size_queue/src/lib.rs:109-111 expects pops in max order; see Findings.
- Keyboard.PCKeyboard.PollChar: models the latch only. The key-event decoding that `add_byte` and `process_keyevent` do is a parameter.

## Findings

| source | as written | input that shows it | evidently intended | confidence | as-written member | corrected member |
|---|---|---|---|---|---|---|
| fixed_size_queue/src/lib.rs:25-34 (and its copy at src/led_pins.rs:41-50) | `pop` takes the root out, leaving `None` there, and sifts that `None` down within the first `size - 1` slots without first moving the last occupied slot into the root; the item in slot `size - 1` falls out of the heap | capacity 3, push 1, 3, 2 (slots `[3, 1, 2]`), then pop three times: 3, 1, `None`; the 2 is lost | move the last occupied slot to the root before sifting down, so that pops return 3, 2, 1 as the test at lines 109-111 expects | not executed | EvictingQueue.FixedSizeQueue.Pop, EvictingQueueTrace.LostItemTrace | EvictingQueue.FixedSizeQueue.RepairedPop, EvictingQueueTrace.RepairedTrace |
| src/button_input_queue.rs:174 | `push` writes when `cursor <= BUTTON_INPUT_QUEUE_LENGTH`, which admits `cursor == 20` on a 20-slot buffer | 20 pushes, then a 21st: the guard holds and `buffer[20]` is out of bounds, a panic; the `None` branch is unreachable | write only while `cursor < 20` and return `None` on a full buffer | not executed | ButtonQueue.ButtonInputQueue.PushAsWritten, ButtonQueue.GuardAdmitsFullBuffer | ButtonQueue.ButtonInputQueue.Push, ButtonQueue.PushAllThenPopAll |
