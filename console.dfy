/**
 * `Console`: a two-line, eight-column text console over the character display. `buffer[0]`
 * is the line being written and `buffer[1]` the line above it. A newline does not scroll
 * at once, since the display has only two lines: it sets `next_new_line`, and the next
 * character scrolls `buffer[0]` up into `buffer[1]` and starts a blank line. Characters past
 * the eighth of a line are dropped.
 *
 * The two lines are `[u8; 8]` values in the source, copied by value, and are modelled as
 * sequences of eight bytes.
 */
module TextConsole {
  import opened Bytes
  import opened Display

  const NEWLINE: U8 := 0x0A

  /** `[0x20; 8]`. */
  const BLANK_LINE: seq<U8> := [SPACE, SPACE, SPACE, SPACE, SPACE, SPACE, SPACE, SPACE]

  datatype ConsoleState = ConsoleState(buffer: seq<seq<U8>>, cursor: nat, nextNewLine: bool)

  /** Two lines of eight bytes, and a cursor within the line or just past its end. */
  predicate WellFormed(st: ConsoleState) {
    |st.buffer| == 2 && |st.buffer[0]| == LINE_WIDTH && |st.buffer[1]| == LINE_WIDTH && st.cursor <= LINE_WIDTH
  }

  /** `init_blocking`'s console: two blank lines, cursor at the start, no newline pending. */
  const INITIAL := ConsoleState([BLANK_LINE, BLANK_LINE], 0, false)

  /** The scroll of `add_char` after a newline: the current line moves up and a blank line starts. */
  function Scrolled(st: ConsoleState): (r: ConsoleState)
    requires WellFormed(st)
    ensures WellFormed(r)
  {
    ConsoleState([BLANK_LINE, st.buffer[0]], 0, false)
  }

  /** `c` written at the cursor, if the line has room. */
  function Put(st: ConsoleState, c: U8): (r: ConsoleState)
    requires WellFormed(st)
    ensures WellFormed(r)
  {
    if st.cursor < LINE_WIDTH then ConsoleState([st.buffer[0][st.cursor := c], st.buffer[1]], st.cursor + 1, st.nextNewLine)
    else st
  }

  /** `add_char(c)`: scroll first if a newline is pending, then write `c` at the cursor if the line has room. */
  function AddCharSpec(st: ConsoleState, c: U8): (r: ConsoleState)
    requires WellFormed(st)
    ensures WellFormed(r) && !r.nextNewLine
    ensures st.nextNewLine ==> r.buffer[1] == st.buffer[0] && r.cursor == 1 && r.buffer[0] == BLANK_LINE[0 := c]
    ensures !st.nextNewLine && st.cursor < LINE_WIDTH ==>
              r.buffer == [st.buffer[0][st.cursor := c], st.buffer[1]] && r.cursor == st.cursor + 1
    ensures !st.nextNewLine && st.cursor == LINE_WIDTH ==> r == st
  {
    if st.nextNewLine then Put(Scrolled(st), c) else Put(st, c)
  }

  /** One byte of `write_str`: a newline only marks the line finished; any other byte is added. */
  function WriteByte(st: ConsoleState, c: U8): (r: ConsoleState)
    requires WellFormed(st)
    ensures WellFormed(r)
    ensures c == NEWLINE ==> r.buffer == st.buffer && r.cursor == st.cursor && r.nextNewLine
    ensures c != NEWLINE ==> !r.nextNewLine
  {
    if c == NEWLINE then st.(nextNewLine := true) else AddCharSpec(st, c)
  }

  /** The bytes of `write_str`, in order. */
  function WriteSpec(st: ConsoleState, s: seq<U8>): (r: ConsoleState)
    requires WellFormed(st)
    ensures WellFormed(r)
    ensures s != [] ==> (r.nextNewLine <==> s[|s| - 1] == NEWLINE)
    decreases |s|
  {
    if s == [] then st else WriteByte(WriteSpec(st, s[..|s| - 1]), s[|s| - 1])
  }

  /** Writing two strings one after the other is writing their concatenation. */
  lemma {:induction false} WriteAppend(st: ConsoleState, a: seq<U8>, b: seq<U8>)
    requires WellFormed(st)
    ensures WriteSpec(st, a + b) == WriteSpec(WriteSpec(st, a), b)
    decreases |b|
  {
    if b == [] {
      assert a + b == a;
    } else {
      var b' := b[..|b| - 1];
      assert (a + b)[..|a + b| - 1] == a + b';
      WriteAppend(st, a, b');
    }
  }

  /** Two newlines in a row act as one: the display never shows an empty line. */
  lemma NewlinesCollapse(st: ConsoleState, a: seq<U8>, b: seq<U8>)
    requires WellFormed(st)
    ensures WriteSpec(st, a + [NEWLINE, NEWLINE] + b) == WriteSpec(st, a + [NEWLINE] + b)
  {
    WriteAppend(st, a + [NEWLINE, NEWLINE], b);
    WriteAppend(st, a + [NEWLINE], b);
    WriteAppend(st, a, [NEWLINE, NEWLINE]);
    WriteAppend(st, a, [NEWLINE]);
    assert [NEWLINE, NEWLINE][..1] == [NEWLINE];
  }

  predicate NoNewline(w: seq<U8>) {
    forall k :: 0 <= k < |w| ==> w[k] != NEWLINE
  }

  /** `line` with the bytes of `w` written from column `at`, as many as fit in eight columns. */
  function Overlay(line: seq<U8>, at: nat, w: seq<U8>): (r: seq<U8>)
    requires |line| == LINE_WIDTH && at <= LINE_WIDTH
    ensures |r| == LINE_WIDTH
  {
    var n := if |w| < LINE_WIDTH - at then |w| else LINE_WIDTH - at;
    line[..at] + w[..n] + line[at + n..]
  }

  function Min(a: nat, b: nat): nat {
    if a < b then a else b
  }

  /**
   * Bytes without a newline, written with no newline pending, land in the current line from
   * the cursor on; those that do not fit are dropped, and the line above is untouched.
   */
  lemma {:induction false} WriteWithinLine(st: ConsoleState, w: seq<U8>)
    requires WellFormed(st) && !st.nextNewLine && NoNewline(w)
    ensures WriteSpec(st, w) ==
              ConsoleState([Overlay(st.buffer[0], st.cursor, w), st.buffer[1]], Min(st.cursor + |w|, LINE_WIDTH), false)
    decreases |w|
  {
    if w == [] {
      assert Overlay(st.buffer[0], st.cursor, w) == st.buffer[0];
    } else {
      var w' := w[..|w| - 1];
      var c := w[|w| - 1];
      WriteWithinLine(st, w');
      var line := Overlay(st.buffer[0], st.cursor, w');
      var at := Min(st.cursor + |w'|, LINE_WIDTH);
      if at < LINE_WIDTH {
        assert Overlay(st.buffer[0], st.cursor, w) == line[at := c] by {
          assert w[..|w'| + 1] == w' + [c];
        }
      } else {
        assert Overlay(st.buffer[0], st.cursor, w) == line by {
          assert w[..LINE_WIDTH - st.cursor] == w'[..LINE_WIDTH - st.cursor];
        }
      }
    }
  }

  /** A newline and then a byte: the line scrolls up, and the byte starts the new line. */
  lemma NewLineThenByte(st: ConsoleState, w: seq<U8>)
    requires WellFormed(st) && |w| > 0 && w[0] != NEWLINE
    ensures WriteSpec(st, [NEWLINE] + w) == WriteSpec(ConsoleState([BLANK_LINE[0 := w[0]], st.buffer[0]], 1, false), w[1..])
  {
    var st1 := st.(nextNewLine := true);
    assert WriteSpec(st, [NEWLINE]) == st1 by {
      assert [NEWLINE][..0] == [];
    }
    var st2 := ConsoleState([BLANK_LINE[0 := w[0]], st.buffer[0]], 1, false);
    assert WriteSpec(st1, [w[0]]) == st2 by {
      assert [w[0]][..0] == [];
    }
    WriteAppend(st, [NEWLINE], w);
    WriteAppend(st1, [w[0]], w[1..]);
    assert [w[0]] + w[1..] == w;
  }

  /**
   * A line of text after a newline: the line written so far scrolls up, and the new line
   * shows the first eight bytes of the text, padded with spaces.
   */
  lemma NewLineShowsText(st: ConsoleState, w: seq<U8>)
    requires WellFormed(st) && NoNewline(w) && |w| > 0
    ensures WriteSpec(st, [NEWLINE] + w).buffer == [Overlay(BLANK_LINE, 0, w), st.buffer[0]]
  {
    var line := BLANK_LINE[0 := w[0]];
    NewLineThenByte(st, w);
    assert NoNewline(w[1..]);
    WriteWithinLine(ConsoleState([line, st.buffer[0]], 1, false), w[1..]);
    OverlayFirst(BLANK_LINE, 0, w);
  }

  /** Overlaying from `at` is writing the first byte at `at` and overlaying the rest from `at + 1`. */
  lemma OverlayFirst(line: seq<U8>, at: nat, w: seq<U8>)
    requires |line| == LINE_WIDTH && at < LINE_WIDTH && |w| > 0
    ensures Overlay(line, at, w) == Overlay(line[at := w[0]], at + 1, w[1..])
  {
    var a, b := Overlay(line, at, w), Overlay(line[at := w[0]], at + 1, w[1..]);
    var n := if |w| < LINE_WIDTH - at then |w| else LINE_WIDTH - at;
    forall k | 0 <= k < LINE_WIDTH
      ensures a[k] == b[k]
    {
      if k < at {
        assert a[k] == line[k] && b[k] == line[k];
      } else if k < at + n {
        assert a[k] == w[k - at];
        if k > at {
          assert b[k] == w[1..][k - at - 1];
        }
      } else {
        assert a[k] == line[k] && b[k] == line[k];
      }
    }
  }

  class Console {
    var buffer: seq<seq<U8>>
    var cursor: nat
    var nextNewLine: bool

    function State(): ConsoleState
      reads this
    {
      ConsoleState(buffer, cursor, nextNewLine)
    }

    ghost predicate Valid()
      reads this
    {
      WellFormed(State())
    }

    /** `init_blocking`, past the display's own set-up: two blank lines. */
    constructor ()
      ensures Valid() && State() == INITIAL
    {
      buffer := [BLANK_LINE, BLANK_LINE];
      cursor := 0;
      nextNewLine := false;
    }

    /** `add_char(c)`. */
    method AddChar(c: U8)
      requires Valid()
      modifies this
      ensures Valid() && State() == AddCharSpec(old(State()), c)
    {
      if nextNewLine {
        buffer := buffer[1 := buffer[0]];
        buffer := buffer[0 := BLANK_LINE];
        cursor := 0;
        nextNewLine := false;
      }
      if cursor < LINE_WIDTH {
        var line: seq<U8> := buffer[0][cursor := c];
        buffer := buffer[0 := line];
        cursor := cursor + 1;
      }
    }

    /** `write_str(s)`, up to the final `print`: each byte of `s` in turn. */
    method WriteStr(s: seq<U8>)
      requires Valid()
      modifies this
      ensures Valid() && State() == WriteSpec(old(State()), s)
    {
      for i := 0 to |s|
        invariant Valid() && State() == WriteSpec(old(State()), s[..i])
      {
        assert s[..i + 1][..i] == s[..i];
        if s[i] == NEWLINE {
          nextNewLine := true;
        } else {
          AddChar(s[i]);
        }
      }
      assert s[..|s|] == s;
    }
  }
}
