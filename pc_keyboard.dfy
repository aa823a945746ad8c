/**
 * `PCKeyboard::poll_char` of the x86_64 front end: one read of the keyboard port, and at
 * most one character per key press. A `pressed` latch is set when a key goes down and
 * cleared when a key comes up; while it is set, further key-down events, such as the
 * repeats of a held key, produce nothing.
 *
 * The port read and the scancode decoder are outside the model: each poll receives the
 * event the decoder completed, if any, and the character that event decodes to, if it
 * decodes to a Unicode character.
 */
module Keyboard {
  import opened Optional

  datatype KeyState = Down | Up | SingleShot

  /** A completed key event, with what `process_keyevent` makes of it. */
  datatype KeyEvent = KeyEvent(state: KeyState, unicode: Option<char>)

  /** The latch and the result after one poll that delivered `event`, or no event. */
  datatype Poll = Poll(pressed: bool, result: Option<char>)

  /** `poll_char`, on the latch value `pressed`. */
  function PollStep(pressed: bool, event: Option<KeyEvent>): (r: Poll)
    ensures r.result.Some? <==> !pressed && event.Some? && event.value.state == Down && event.value.unicode.Some?
    ensures r.result.Some? ==> r.result == event.value.unicode
    ensures r.pressed <==> (if event.Some? && event.value.state == Down then true
                           else if event.Some? && event.value.state == Up then false
                           else pressed)
  {
    match event
    case None => Poll(pressed, None)
    case Some(e) =>
      match (e.state, pressed)
      case (Down, true) => Poll(pressed, None)
      case (Down, false) => Poll(true, e.unicode)
      case (Up, true) => Poll(false, None)
      case (Up, false) => Poll(pressed, None)
      case (SingleShot, _) => Poll(pressed, None)
  }

  /** The results of polling once per entry of `events`, starting from the latch `pressed`. */
  function Results(pressed: bool, events: seq<Option<KeyEvent>>): (r: seq<Option<char>>)
    ensures |r| == |events|
    decreases |events|
  {
    if events == [] then []
    else
      var p := PollStep(pressed, events[0]);
      [p.result] + Results(p.pressed, events[1..])
  }

  function LatchAfter(pressed: bool, events: seq<Option<KeyEvent>>): bool
    decreases |events|
  {
    if events == [] then pressed else LatchAfter(PollStep(pressed, events[0]).pressed, events[1..])
  }

  predicate IsUp(event: Option<KeyEvent>) {
    event.Some? && event.value.state == Up
  }

  /** After a poll that returned a character, the latch stays set until an up event. */
  lemma {:induction false} LatchHeldWithoutUp(pressed: bool, events: seq<Option<KeyEvent>>)
    requires pressed && forall k :: 0 <= k < |events| ==> !IsUp(events[k])
    ensures LatchAfter(pressed, events)
    ensures forall k :: 0 <= k < |events| ==> Results(pressed, events)[k].None?
    decreases |events|
  {
    if events != [] {
      LatchHeldWithoutUp(PollStep(pressed, events[0]).pressed, events[1..]);
    }
  }

  /**
   * One character per key press: between any two polls that return a character there is a
   * poll that delivered an up event.
   */
  lemma {:induction false} CharactersSeparatedByUp(pressed: bool, events: seq<Option<KeyEvent>>, i: nat, j: nat)
    requires i < j < |events|
    requires Results(pressed, events)[i].Some? && Results(pressed, events)[j].Some?
    ensures exists k :: i < k < j && IsUp(events[k])
    decreases |events|
  {
    var p := PollStep(pressed, events[0]);
    if i > 0 {
      CharactersSeparatedByUp(p.pressed, events[1..], i - 1, j - 1);
      var k :| i - 1 < k < j - 1 && IsUp(events[1..][k]);
      assert IsUp(events[k + 1]);
    } else {
      assert p.pressed;
      var rest := events[1..][..j - 1];
      if forall k :: 0 <= k < |rest| ==> !IsUp(rest[k]) {
        PrefixResults(p.pressed, events[1..], j - 1);
        LatchHeldWithoutUp(p.pressed, rest);
        assert false;
      } else {
        var k :| 0 <= k < |rest| && IsUp(rest[k]);
        assert IsUp(events[k + 1]);
      }
    }
  }

  /** Polls are made in order: the first `n` results depend on the first `n` events only, and the next on the latch they leave. */
  lemma {:induction false} PrefixResults(pressed: bool, events: seq<Option<KeyEvent>>, n: nat)
    requires n < |events|
    ensures Results(pressed, events)[..n] == Results(pressed, events[..n])
    ensures Results(pressed, events)[n] == PollStep(LatchAfter(pressed, events[..n]), events[n]).result
    decreases n
  {
    if n > 0 {
      var p := PollStep(pressed, events[0]);
      PrefixResults(p.pressed, events[1..], n - 1);
      assert events[..n][1..] == events[1..][..n - 1];
    }
  }

  class PCKeyboard {
    var pressed: bool

    /** `init()`: no key held. */
    constructor ()
      ensures !pressed
    {
      pressed := false;
    }

    /** `poll_char()`, given what the port read and the decoder produced. */
    method PollChar(event: Option<KeyEvent>) returns (r: Option<char>)
      modifies this
      ensures Poll(pressed, r) == PollStep(old(pressed), event)
    {
      if event.None? {
        return None;
      }
      var e := event.value;
      match (e.state, pressed)
      case (Down, true) =>
        r := None;
      case (Down, false) =>
        pressed := true;
        r := e.unicode;
      case (Up, true) =>
        pressed := false;
        r := None;
      case (Up, false) =>
        r := None;
      case (SingleShot, _) =>
        r := None;
    }
  }
}
