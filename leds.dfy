/**
 * `LEDs`: four output pins showing the low four bits of a number. The `u8` argument of
 * `light` is a `bv8`, since it is used only through bit operations. `light(n)` walks the pins
 * in order and drives pin `i` high when bit `i` of `n` is set and low otherwise.
 */
module Leds {
  const PIN_COUNT: nat := 4

  datatype Level = Low | High

  /** The level `light(n)` gives pin `i`: high exactly when `n & (1 << i)` is not zero. */
  function PinLevel(n: bv8, i: nat): Level
    requires i < PIN_COUNT
  {
    if n & (1 << i) != 0 then High else Low
  }

  /** The four levels `light(n)` leaves on the pins. */
  function Levels(n: bv8): (r: seq<Level>)
    ensures |r| == PIN_COUNT && forall i :: 0 <= i < PIN_COUNT ==> r[i] == PinLevel(n, i)
  {
    [PinLevel(n, 0), PinLevel(n, 1), PinLevel(n, 2), PinLevel(n, 3)]
  }

  /** The bit a pin at `level` stands for, as pin `i`. */
  function BitOf(level: Level, i: nat): bv8
    requires i < PIN_COUNT
  {
    if level == High then 1 << i else 0
  }

  /** The number the four pins show, reading a high pin `i` as bit `i`. */
  function Shown(levels: seq<Level>): bv8
    requires |levels| == PIN_COUNT
  {
    BitOf(levels[0], 0) | BitOf(levels[1], 1) | BitOf(levels[2], 2) | BitOf(levels[3], 3)
  }

  /** The pins show the low four bits of `n`; the high four are dropped. */
  lemma ShowsLowNibble(n: bv8)
    ensures Shown(Levels(n)) == n & 0x0F
    ensures Levels(n) == Levels(n & 0x0F)
  {
  }

  /** Every combination of the four levels is shown by exactly the number it reads as. */
  lemma ShownRoundTrip(levels: seq<Level>)
    requires |levels| == PIN_COUNT
    ensures Levels(Shown(levels)) == levels
  {
  }

  class LEDs {
    /** The levels of pins `_0` to `_3`. */
    const pins: array<Level>

    ghost predicate Valid()
      reads this
    {
      pins.Length == PIN_COUNT
    }

    /** `new(_0, _1, _2, _3)`: four output pins, at the levels they already have. */
    constructor (initial: seq<Level>)
      requires |initial| == PIN_COUNT
      ensures Valid() && fresh(pins) && pins[..] == initial
    {
      pins := new Level[PIN_COUNT](i requires 0 <= i < PIN_COUNT => initial[i]);
    }

    /** `light(n)`: drive each pin to the level of its bit of `n`. Setting a pin cannot fail. */
    method Light(n: bv8)
      requires Valid()
      modifies pins
      ensures Valid() && pins[..] == Levels(n)
    {
      for i := 0 to PIN_COUNT
        invariant forall k :: 0 <= k < i ==> pins[k] == PinLevel(n, k)
      {
        if n & (1 << i) != 0 {
          pins[i] := High;
        } else {
          pins[i] := Low;
        }
      }
    }
  }
}
