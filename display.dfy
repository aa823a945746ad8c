/**
 * `print_blocking` of the two-line character display: a message of up to sixteen bytes is
 * split into two lines of eight. Bytes 0..7 go to the first line and bytes 8..15 to the
 * second; a shorter message leaves the rest of the lines as spaces, and bytes from the
 * seventeenth on are ignored. Sending the lines over I2C is not modelled.
 */
module Display {
  import opened Bytes

  const LINE_WIDTH: nat := 8
  const MESSAGE_LIMIT: nat := 2 * LINE_WIDTH
  const SPACE: U8 := 0x20

  /** Column `k` of the line starting at byte `from` of `message`. */
  function ShownAt(message: seq<U8>, from: nat, k: nat): U8 {
    if from + k < |message| then message[from + k] else SPACE
  }

  /** The line starting at byte `from` of `message`: its next eight bytes, padded with spaces. */
  function Line(message: seq<U8>, from: nat): (r: seq<U8>)
    ensures |r| == LINE_WIDTH
    ensures forall k :: 0 <= k < LINE_WIDTH ==> r[k] == ShownAt(message, from, k)
  {
    seq(LINE_WIDTH, k requires 0 <= k < LINE_WIDTH => ShownAt(message, from, k))
  }

  /**
   * The loop of `print_blocking`: start both lines as spaces, then walk the first sixteen
   * bytes, writing byte `index` to the first line below 8 and to the second from 8 on.
   */
  method SplitLines(message: seq<U8>) returns (line0: array<U8>, line1: array<U8>)
    ensures fresh(line0) && fresh(line1)
    ensures line0[..] == Line(message, 0) && line1[..] == Line(message, LINE_WIDTH)
  {
    line0 := new U8[LINE_WIDTH](_ => SPACE);
    line1 := new U8[LINE_WIDTH](_ => SPACE);
    var count := if |message| < MESSAGE_LIMIT then |message| else MESSAGE_LIMIT;
    for index := 0 to count
      invariant forall k :: 0 <= k < LINE_WIDTH ==> line0[k] == (if k < index then message[k] else SPACE)
      invariant forall k :: 0 <= k < LINE_WIDTH ==>
                  line1[k] == (if LINE_WIDTH + k < index then message[LINE_WIDTH + k] else SPACE)
    {
      if index < LINE_WIDTH {
        line0[index] := message[index];
      } else {
        line1[index - LINE_WIDTH] := message[index];
      }
    }
  }

  /**
   * The two lines show the message exactly: their concatenation starts with the message's
   * first sixteen bytes and is spaces after them.
   */
  lemma LinesShowMessage(message: seq<U8>)
    ensures var shown := Line(message, 0) + Line(message, LINE_WIDTH);
            var n := if |message| < MESSAGE_LIMIT then |message| else MESSAGE_LIMIT;
            |shown| == MESSAGE_LIMIT && shown[..n] == message[..n] &&
            forall k :: n <= k < MESSAGE_LIMIT ==> shown[k] == SPACE
  {
    var shown := Line(message, 0) + Line(message, LINE_WIDTH);
    forall k | 0 <= k < MESSAGE_LIMIT
      ensures shown[k] == if k < |message| then message[k] else SPACE
    {
      if k >= LINE_WIDTH {
        assert shown[k] == Line(message, LINE_WIDTH)[k - LINE_WIDTH];
      }
    }
  }

  /** Bytes past the sixteenth do not reach the display. */
  lemma TailIgnored(message: seq<U8>)
    requires |message| > MESSAGE_LIMIT
    ensures Line(message, 0) == Line(message[..MESSAGE_LIMIT], 0)
    ensures Line(message, LINE_WIDTH) == Line(message[..MESSAGE_LIMIT], LINE_WIDTH)
  {
  }
}
