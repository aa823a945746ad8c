/**
 * The four-number counter application of the firmware: four `u8` values and a cursor. Up
 * and down raise and lower the selected value, saturating at 255 and 0; left and right move
 * the cursor within 0..3. `to_string` renders the values as `[ddd, ddd, ddd, ddd]` and, on a
 * second line, a caret under the selected value.
 */
module CounterApp {
  const NUM_COUNT: nat := 4

  import opened Bytes

  datatype Key = AllowUp | AllowDown | AllowLeft | AllowRight

  /** The decimal digit character for `d`. */
  function DigitChar(d: nat): (c: char)
    requires d < 10
    ensures '0' <= c <= '9' && (c as int) - ('0' as int) == d
  {
    (('0' as int) + d) as char
  }

  /** The value of a decimal digit character. */
  function DigitValue(c: char): int {
    (c as int) - ('0' as int)
  }

  /** `{:03}`: three decimal digits, zero-padded on the left. */
  function Pad3(n: nat): (r: string)
    requires n < 1000
    ensures |r| == 3 && forall k :: 0 <= k < 3 ==> '0' <= r[k] <= '9'
  {
    [DigitChar(n / 100), DigitChar(n / 10 % 10), DigitChar(n % 10)]
  }

  /** Reading three digits back. */
  function Unpad3(s: string): int
    requires |s| == 3
  {
    DigitValue(s[0]) * 100 + DigitValue(s[1]) * 10 + DigitValue(s[2])
  }

  /** Three-digit padding loses nothing: every value below 1000 is read back from its digits. */
  lemma Pad3RoundTrip(n: nat)
    requires n < 1000
    ensures Unpad3(Pad3(n)) == n
  {
    assert n == (n / 100) * 100 + (n / 10 % 10) * 10 + n % 10;
  }

  /** `" ".repeat(n)`. */
  function Spaces(n: nat): (r: string)
    ensures |r| == n && forall k :: 0 <= k < n ==> r[k] == ' '
  {
    seq(n, _ => ' ')
  }

  /** One value on the first line: its three digits, then `", "`, or `"]"` after the last. */
  function Cell(v: U8, last: bool): (r: string)
    ensures |r| == (if last then 4 else 5) && r[..3] == Pad3(v)
  {
    Pad3(v) + (if last then "]" else ", ")
  }

  /** The first line, `[{:03}, {:03}, {:03}, {:03}]`. */
  function NumbersLine(nums: seq<U8>): (r: string)
    requires |nums| == NUM_COUNT
    ensures |r| == 20 && r[0] == '[' && r[19] == ']'
  {
    "[" + Cell(nums[0], false) + Cell(nums[1], false) + Cell(nums[2], false) + Cell(nums[3], true)
  }

  /** Blocks of five characters after a one-character head sit at offsets 1, 6, 11 and 16. */
  lemma BlocksAt(c0: string, c1: string, c2: string, c3: string)
    requires |c0| == 5 && |c1| == 5 && |c2| == 5 && |c3| == 4
    ensures var r := "[" + c0 + c1 + c2 + c3;
            r[1..6] == c0 && r[6..11] == c1 && r[11..16] == c2 && r[16..20] == c3
  {
  }

  /** Value `i` is printed in columns `1 + 5 * i` to `3 + 5 * i` of the first line. */
  lemma NumbersLineLayout(nums: seq<U8>, i: nat)
    requires |nums| == NUM_COUNT && i < NUM_COUNT
    ensures NumbersLine(nums)[1 + 5 * i .. 4 + 5 * i] == Pad3(nums[i])
  {
    var r := NumbersLine(nums);
    var c0, c1, c2, c3 := Cell(nums[0], false), Cell(nums[1], false), Cell(nums[2], false), Cell(nums[3], true);
    BlocksAt(c0, c1, c2, c3);
    var c := [c0, c1, c2, c3][i];
    assert r[1 + 5 * i .. 1 + 5 * i + |c|] == c;
    assert r[1 + 5 * i .. 4 + 5 * i] == c[..3];
  }

  /** `to_string()`: the text for the values `nums` and the cursor `cursor`. */
  function Render(nums: seq<U8>, cursor: nat): (r: string)
    requires |nums| == NUM_COUNT
    ensures |r| == 20 + 1 + 3 + 5 * cursor + 1
    ensures r[..20] == NumbersLine(nums) && r[20] == '\n'
    ensures r[|r| - 1] == '^' && forall k :: 21 <= k < |r| - 1 ==> r[k] == ' '
  {
    NumbersLine(nums) + "\n" + Spaces(3 + cursor * 5) + "^"
  }

  /** The caret on the second line sits in the column of the last digit of the selected value. */
  lemma CaretUnderSelection(nums: seq<U8>, cursor: nat)
    requires |nums| == NUM_COUNT && cursor < NUM_COUNT
    ensures var r := Render(nums, cursor);
            var column := |r| - 1 - 21;
            r[|r| - 1] == '^' && column == 3 + 5 * cursor && r[column] == Pad3(nums[cursor])[2]
  {
    var r := Render(nums, cursor);
    NumbersLineLayout(nums, cursor);
    assert r[3 + 5 * cursor] == r[..20][1 + 5 * cursor .. 4 + 5 * cursor][2];
  }

  /** The digits of every value on the first line read back to that value. */
  lemma RenderReadsBack(nums: seq<U8>, cursor: nat, i: nat)
    requires |nums| == NUM_COUNT && i < NUM_COUNT
    ensures Unpad3(Render(nums, cursor)[1 + 5 * i .. 4 + 5 * i]) == nums[i]
  {
    var r := Render(nums, cursor);
    NumbersLineLayout(nums, i);
    assert r[1 + 5 * i .. 4 + 5 * i] == r[..20][1 + 5 * i .. 4 + 5 * i];
    Pad3RoundTrip(nums[i]);
  }

  class App {
    const nums: array<U8>
    var cursor: nat

    ghost predicate Valid()
      reads this
    {
      nums.Length == NUM_COUNT && cursor < NUM_COUNT
    }

    /** `App::init()`: all four values 0, cursor on the first. */
    constructor ()
      ensures Valid() && fresh(nums) && nums[..] == [0, 0, 0, 0] && cursor == 0
    {
      nums := new U8[NUM_COUNT](_ => 0);
      cursor := 0;
      new;
      assert nums[..] == [0, 0, 0, 0];
    }

    /**
     * `on_key_down(key)`: up adds one to the selected value unless it is 255, down takes one
     * away unless it is 0; left and right move the cursor, stopping at 0 and 3.
     */
    method OnKeyDown(key: Key)
      requires Valid()
      modifies this, nums
      ensures Valid()
      ensures key == AllowUp ==>
                cursor == old(cursor) &&
                nums[..] == old(nums[..])[cursor := if old(nums[cursor]) < 255 then old(nums[cursor]) + 1 else 255]
      ensures key == AllowDown ==>
                cursor == old(cursor) &&
                nums[..] == old(nums[..])[cursor := if old(nums[cursor]) > 0 then old(nums[cursor]) - 1 else 0]
      ensures key == AllowLeft ==> nums[..] == old(nums[..]) && cursor == if old(cursor) > 0 then old(cursor) - 1 else 0
      ensures key == AllowRight ==> nums[..] == old(nums[..]) && cursor == if old(cursor) < 3 then old(cursor) + 1 else 3
    {
      match key
      case AllowUp =>
        if nums[cursor] < 255 {
          nums[cursor] := nums[cursor] + 1;
        }
      case AllowDown =>
        if nums[cursor] > 0 {
          nums[cursor] := nums[cursor] - 1;
        }
      case AllowLeft =>
        if cursor > 0 {
          cursor := cursor - 1;
        }
      case AllowRight =>
        if cursor < 3 {
          cursor := cursor + 1;
        }
    }
  }

}
