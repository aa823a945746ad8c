/**
 * `ButtonInputQueue`: the append buffer the button interrupts fill and the main loop drains.
 * `buffer` holds twenty button inputs and `cursor` is the next slot to write; `pop_all`
 * hands out the first `cursor` entries in the order they were pushed and resets the cursor.
 *
 * `push` guards its write with `cursor <= BUTTON_INPUT_QUEUE_LENGTH`, which admits a write
 * at index 20 of the 20-slot buffer: a Rust index panic. `PushAsWritten` keeps the guard
 * and excludes that call by precondition; `Push` is the evidently intended version, which
 * reports a full buffer with `None`.
 */
module ButtonQueue {
  import opened Optional

  const BUTTON_INPUT_QUEUE_LENGTH: nat := 20

  datatype ButtonInput = Button0 | Button1 | Button2 | Button3

  /** The guard of `push` as written. */
  predicate PushGuard(cursor: nat) {
    cursor <= BUTTON_INPUT_QUEUE_LENGTH
  }

  class ButtonInputQueue {
    const buffer: array<ButtonInput>
    var cursor: nat

    ghost predicate Valid()
      reads this
    {
      buffer.Length == BUTTON_INPUT_QUEUE_LENGTH && cursor <= BUTTON_INPUT_QUEUE_LENGTH
    }

    /** The inputs pushed since the last drain, oldest first. */
    ghost function Pending(): seq<ButtonInput>
      reads this, buffer
      requires Valid()
    {
      buffer[..cursor]
    }

    /** `new()`: every slot `Button0`, nothing pending. */
    constructor ()
      ensures Valid() && fresh(buffer) && cursor == 0 && Pending() == []
      ensures forall k :: 0 <= k < BUTTON_INPUT_QUEUE_LENGTH ==> buffer[k] == Button0
    {
      buffer := new ButtonInput[BUTTON_INPUT_QUEUE_LENGTH](_ => Button0);
      cursor := 0;
    }

    /**
     * `push(v)` as written. The guard admits `cursor == 20`, where the write would index
     * past the buffer and panic, so that call is excluded here; every admitted call appends
     * `v` and returns `Some(())`, and the `None` branch is dead.
     */
    method PushAsWritten(v: ButtonInput) returns (r: Option<()>)
      requires Valid() && cursor < BUTTON_INPUT_QUEUE_LENGTH
      modifies this, buffer
      ensures Valid() && r == Some(())
      ensures cursor == old(cursor) + 1 && buffer[..] == old(buffer[..])[old(cursor) := v]
      ensures Pending() == old(Pending()) + [v]
    {
      if PushGuard(cursor) {
        buffer[cursor] := v;
        cursor := cursor + 1;
        r := Some(());
      } else {
        assert false;
        r := None;
      }
    }

    /**
     * The evidently intended `push(v)`: append `v` and return `Some(())` while there is
     * room; on a full buffer return `None` and change nothing.
     */
    method Push(v: ButtonInput) returns (r: Option<()>)
      requires Valid()
      modifies this, buffer
      ensures Valid()
      ensures r.Some? <==> old(cursor) < BUTTON_INPUT_QUEUE_LENGTH
      ensures r.Some? ==> cursor == old(cursor) + 1 && buffer[..] == old(buffer[..])[old(cursor) := v]
      ensures r.Some? ==> Pending() == old(Pending()) + [v]
      ensures r.None? ==> cursor == old(cursor) && buffer[..] == old(buffer[..])
    {
      if cursor < BUTTON_INPUT_QUEUE_LENGTH {
        buffer[cursor] := v;
        cursor := cursor + 1;
        r := Some(());
      } else {
        r := None;
      }
    }

    /** `pop_all()`: hand out the pending inputs, oldest first, and reset the cursor; the slots keep their contents. */
    method PopAll() returns (events: seq<ButtonInput>)
      requires Valid()
      modifies this
      ensures Valid() && events == old(Pending()) && cursor == 0 && Pending() == []
    {
      events := buffer[..cursor];
      cursor := 0;
    }
  }

  /** At a full buffer the guard of `push` still holds, while index 20 lies past the buffer. */
  lemma GuardAdmitsFullBuffer(q: ButtonInputQueue)
    requires q.Valid() && q.cursor == BUTTON_INPUT_QUEUE_LENGTH
    ensures PushGuard(q.cursor) && q.cursor >= q.buffer.Length
  {
  }

  /**
   * Pushing `inputs` one by one into a fresh queue and draining it gives back the inputs in
   * order, up to the capacity; the rest are refused, and a second drain gives nothing.
   */
  method PushAllThenPopAll(inputs: seq<ButtonInput>) returns (events: seq<ButtonInput>, refused: nat, again: seq<ButtonInput>)
    ensures |inputs| <= BUTTON_INPUT_QUEUE_LENGTH ==> events == inputs && refused == 0
    ensures |inputs| > BUTTON_INPUT_QUEUE_LENGTH ==>
              events == inputs[..BUTTON_INPUT_QUEUE_LENGTH] && refused == |inputs| - BUTTON_INPUT_QUEUE_LENGTH
    ensures again == []
  {
    var q := new ButtonInputQueue();
    refused := 0;
    var i := 0;
    while i < |inputs|
      invariant 0 <= i <= |inputs|
      invariant q.Valid() && fresh(q.buffer)
      invariant i <= BUTTON_INPUT_QUEUE_LENGTH ==> q.Pending() == inputs[..i] && refused == 0
      invariant i > BUTTON_INPUT_QUEUE_LENGTH ==>
                  q.Pending() == inputs[..BUTTON_INPUT_QUEUE_LENGTH] && refused == i - BUTTON_INPUT_QUEUE_LENGTH
    {
      var r := q.Push(inputs[i]);
      if r.None? {
        refused := refused + 1;
      }
      i := i + 1;
    }
    events := q.PopAll();
    again := q.PopAll();
  }
}
