/**
 * The stopwatch application: four `Counter`s, each accumulating the time it was active, and
 * an `App` whose cursor picks the counter the arrow keys act on. Up and down move the
 * cursor; left stops the selected counter and right starts it. Times are milliseconds of
 * the application clock, passed in by the caller.
 *
 * The display splits each counter's total into days, hours, minutes, seconds and
 * milliseconds and prefixes the selected counter's line with `"> "`.
 */
module Stopwatch {
  import opened Optional

  const COUNTER_COUNT: nat := 4

  /** `Counter`: the time accumulated over finished runs, and the start of the current run, if any. */
  datatype Counter = Counter(pastElapsedDuration: nat, lastActivatedTime: Option<nat>)

  /** `Counter::init()`: nothing accumulated, not running. */
  const IdleCounter := Counter(0, None)

  /** A running counter started no later than `now`, so that `now - start` does not underflow. */
  predicate StartedBy(c: Counter, now: nat) {
    c.lastActivatedTime.Some? ==> c.lastActivatedTime.value <= now
  }

  /** `get_total_duration(now)`: the accumulated time, plus the current run up to `now`. */
  function TotalDuration(c: Counter, now: nat): (r: nat)
    requires StartedBy(c, now)
    ensures r >= c.pastElapsedDuration
    ensures c.lastActivatedTime.None? ==> r == c.pastElapsedDuration
  {
    match c.lastActivatedTime
    case None => c.pastElapsedDuration
    case Some(t) => c.pastElapsedDuration + (now - t)
  }

  /** `activate(now)`: start a run at `now`, unless one is already running. */
  function Activate(c: Counter, now: nat): (r: Counter)
    ensures r.lastActivatedTime.Some? && r.pastElapsedDuration == c.pastElapsedDuration
    ensures c.lastActivatedTime.Some? ==> r == c
    ensures StartedBy(c, now) ==> StartedBy(r, now) && TotalDuration(r, now) == TotalDuration(c, now)
  {
    match c.lastActivatedTime
    case None => c.(lastActivatedTime := Some(now))
    case Some(_) => c
  }

  /** `deactivate(now)`: close the current run, if any, adding its length to the accumulated time. */
  function Deactivate(c: Counter, now: nat): (r: Counter)
    requires StartedBy(c, now)
    ensures r.lastActivatedTime.None?
    ensures c.lastActivatedTime.None? ==> r == c
    ensures TotalDuration(r, now) == TotalDuration(c, now)
  {
    match c.lastActivatedTime
    case None => c
    case Some(t) => Counter(c.pastElapsedDuration + (now - t), None)
  }

  /** A stopped counter's total does not move; a running one's grows with the clock, tick for tick. */
  lemma TotalFollowsClock(c: Counter, now: nat, later: nat)
    requires StartedBy(c, now) && now <= later
    ensures StartedBy(c, later)
    ensures c.lastActivatedTime.None? ==> TotalDuration(c, later) == TotalDuration(c, now)
    ensures c.lastActivatedTime.Some? ==> TotalDuration(c, later) == TotalDuration(c, now) + (later - now)
  {
  }

  /** A run from `start` to `stop` on a stopped counter adds exactly `stop - start`. */
  lemma RunAddsItsLength(c: Counter, start: nat, stop: nat)
    requires c.lastActivatedTime.None? && start <= stop
    ensures Deactivate(Activate(c, start), stop) == Counter(c.pastElapsedDuration + (stop - start), None)
  {
  }

  /** Starting twice keeps the first start; stopping twice is the same as stopping once. */
  lemma ActivateDeactivateIdempotent(c: Counter, t1: nat, t2: nat)
    ensures Activate(Activate(c, t1), t2) == Activate(c, t1)
    ensures StartedBy(c, t1) ==> Deactivate(Deactivate(c, t1), t2) == Deactivate(c, t1)
  {
  }

  datatype Key = AllowUp | AllowDown | AllowLeft | AllowRight

  /** The cursor after a key: up and down move it within 0..3, left and right leave it. */
  function MovedCursor(cursor: nat, key: Key): (r: nat)
    ensures cursor < COUNTER_COUNT ==> r < COUNTER_COUNT
    ensures key == AllowUp ==> r == if cursor > 0 then cursor - 1 else 0
    ensures key == AllowDown ==> r == if cursor < 3 then cursor + 1 else cursor
    ensures key == AllowLeft || key == AllowRight ==> r == cursor
  {
    match key
    case AllowUp => if cursor > 0 then cursor - 1 else cursor
    case AllowDown => if cursor < 3 then cursor + 1 else cursor
    case AllowLeft => cursor
    case AllowRight => cursor
  }

  /** `format_total_duration_long`'s line prefix: `"> "` for the selected counter, two spaces otherwise. */
  function LinePrefix(isActive: bool): (r: string)
    ensures |r| == 2 && r[1] == ' '
    ensures r[0] == '>' <==> isActive
  {
    if isActive then "> " else "  "
  }

  class App {
    const counters: array<Counter>
    var cursor: nat

    ghost predicate Valid()
      reads this
    {
      counters.Length == COUNTER_COUNT && cursor < COUNTER_COUNT
    }

    /** Every running counter was started no later than `now`. */
    ghost predicate AllStartedBy(now: nat)
      reads this, counters
    {
      forall i :: 0 <= i < counters.Length ==> StartedBy(counters[i], now)
    }

    /** `App::init()`: four idle counters, cursor on the first. */
    constructor ()
      ensures Valid() && fresh(counters) && cursor == 0
      ensures counters[..] == seq(COUNTER_COUNT, _ => IdleCounter)
    {
      counters := new Counter[COUNTER_COUNT](_ => IdleCounter);
      cursor := 0;
    }

    /**
     * `on_key_down(key, now)`: up and down move the cursor within 0..3; left stops and
     * right starts the selected counter. No other counter changes.
     */
    method OnKeyDown(key: Key, now: nat)
      requires Valid() && (key == AllowLeft ==> StartedBy(counters[cursor], now))
      modifies this, counters
      ensures Valid() && cursor == MovedCursor(old(cursor), key)
      ensures key == AllowLeft ==> counters[..] == old(counters[..])[cursor := Deactivate(old(counters[cursor]), now)]
      ensures key == AllowRight ==> counters[..] == old(counters[..])[cursor := Activate(old(counters[cursor]), now)]
      ensures key == AllowUp || key == AllowDown ==> counters[..] == old(counters[..])
    {
      match key
      case AllowUp =>
        if cursor > 0 {
          cursor := cursor - 1;
        }
      case AllowDown =>
        if cursor < 3 {
          cursor := cursor + 1;
        }
      case AllowLeft =>
        counters[cursor] := Deactivate(counters[cursor], now);
      case AllowRight =>
        counters[cursor] := Activate(counters[cursor], now);
    }

    /** `elapsed_times_ms(now)`: each counter's total, in counter order. */
    function ElapsedTimesMs(now: nat): (r: seq<nat>)
      reads this, counters
      requires Valid() && AllStartedBy(now)
      ensures |r| == COUNTER_COUNT
      ensures forall i :: 0 <= i < COUNTER_COUNT ==> r[i] == TotalDuration(counters[i], now) && r[i] >= counters[i].pastElapsedDuration
    {
      [TotalDuration(counters[0], now), TotalDuration(counters[1], now),
       TotalDuration(counters[2], now), TotalDuration(counters[3], now)]
    }

    /** The prefixes of the four display lines: line `i` is marked exactly when the cursor is on it. */
    function LinePrefixes(): (r: seq<string>)
      reads this
      requires Valid()
      ensures |r| == COUNTER_COUNT
      ensures forall i :: 0 <= i < COUNTER_COUNT ==> (r[i] == "> " <==> i == cursor) && (r[i] == "  " <==> i != cursor)
    {
      [LinePrefix(cursor == 0), LinePrefix(cursor == 1), LinePrefix(cursor == 2), LinePrefix(cursor == 3)]
    }
  }

  /** Stopping the selected counter at `now` leaves every total read at `now` as it was. */
  lemma StopKeepsTotals(before: seq<Counter>, cursor: nat, now: nat)
    requires |before| == COUNTER_COUNT && cursor < COUNTER_COUNT
    requires forall i :: 0 <= i < COUNTER_COUNT ==> StartedBy(before[i], now)
    ensures var after := before[cursor := Deactivate(before[cursor], now)];
            forall i :: 0 <= i < COUNTER_COUNT ==> StartedBy(after[i], now) && TotalDuration(after[i], now) == TotalDuration(before[i], now)
  {
  }

  const MS_PER_SEC: nat := 1000
  const MS_PER_MIN: nat := MS_PER_SEC * 60
  const MS_PER_HOUR: nat := MS_PER_MIN * 60
  const MS_PER_DAY: nat := MS_PER_HOUR * 24

  /** The five fields `format_total_duration_long` prints. */
  datatype Breakdown = Breakdown(days: nat, hours: nat, minutes: nat, seconds: nat, milliseconds: nat)

  /** Every field but `days` is below the size of the next unit. */
  predicate InRange(b: Breakdown) {
    b.hours < 24 && b.minutes < 60 && b.seconds < 60 && b.milliseconds < 1000
  }

  function Recompose(b: Breakdown): nat {
    b.days * MS_PER_DAY + b.hours * MS_PER_HOUR + b.minutes * MS_PER_MIN + b.seconds * MS_PER_SEC + b.milliseconds
  }

  /** The split of `format_total_duration_long`, each field from its own `/` and `%`. */
  function Decompose(millis: nat): (b: Breakdown)
    ensures InRange(b) && Recompose(b) == millis
  {
    var b := Breakdown(millis / MS_PER_DAY, (millis % MS_PER_DAY) / MS_PER_HOUR, (millis % MS_PER_HOUR) / MS_PER_MIN,
                       (millis % MS_PER_MIN) / MS_PER_SEC, millis % MS_PER_SEC);
    DecomposeSound(millis);
    b
  }

  /** `x % (a * k)` keeps the remainder by `a` and leaves fewer than `k` whole `a`s. */
  lemma NestedMod(x: nat, a: nat, k: nat)
    requires a > 0 && k > 0
    ensures (x % (a * k)) % a == x % a
    ensures (x % (a * k)) / a < k
  {
    var n := a * k;
    var q, r := x / n, x % n;
    assert x == (q * k) * a + r by {
      assert x == q * n + r;
      assert q * n == (q * k) * a;
    }
    ShiftMod(q * k, a, r);
    QuotientBound(r, a, k);
  }

  /** Adding whole multiples of `a` leaves the remainder by `a` as it is. */
  lemma ShiftMod(m: nat, a: nat, r: nat)
    requires a > 0
    ensures (m * a + r) % a == r % a
  {
    var s, t := r / a, r % a;
    assert m * a + r == (m + s) * a + t by {
      assert r == s * a + t;
      assert (m + s) * a == m * a + s * a;
    }
    DivModUnique(m * a + r, a, m + s, t);
  }

  /** Fewer than `a * k` holds fewer than `k` whole `a`s. */
  lemma QuotientBound(r: nat, a: nat, k: nat)
    requires a > 0 && r < a * k
    ensures r / a < k
  {
    var s := r / a;
    assert s * a <= r;
    MulMono(s, k, a);
  }

  /** Multiplying by the same `a` keeps the order. */
  lemma MulMono(b: nat, c: nat, a: nat)
    ensures b >= c ==> b * a >= c * a
  {
    if b >= c {
      assert b * a == (b - c) * a + c * a;
    }
  }

  /** Division with remainder has one answer. */
  lemma DivModUnique(x: nat, a: nat, q: nat, r: nat)
    requires a > 0 && r < a && x == q * a + r
    ensures x / a == q && x % a == r
  {
    var q', r' := x / a, x % a;
    assert x == q' * a + r';
    MulMono(q', q + 1, a);
    MulMono(q, q' + 1, a);
  }

  lemma DecomposeSound(millis: nat)
    ensures var b := Breakdown(millis / MS_PER_DAY, (millis % MS_PER_DAY) / MS_PER_HOUR, (millis % MS_PER_HOUR) / MS_PER_MIN,
                               (millis % MS_PER_MIN) / MS_PER_SEC, millis % MS_PER_SEC);
            InRange(b) && Recompose(b) == millis
  {
    NestedMod(millis, MS_PER_HOUR, 24);
    NestedMod(millis, MS_PER_MIN, 60);
    NestedMod(millis, MS_PER_SEC, 60);
    var rd, rh, rm := millis % MS_PER_DAY, millis % MS_PER_HOUR, millis % MS_PER_MIN;
    assert millis == (millis / MS_PER_DAY) * MS_PER_DAY + rd;
    assert rd == (rd / MS_PER_HOUR) * MS_PER_HOUR + rh;
    assert rh == (rh / MS_PER_MIN) * MS_PER_MIN + rm;
    assert rm == (rm / MS_PER_SEC) * MS_PER_SEC + millis % MS_PER_SEC by {
      NestedMod(millis, MS_PER_SEC, 60);
    }
  }

  /** Splitting is the inverse of recomposing: an in-range breakdown is recovered from its total. */
  lemma DecomposeRecompose(b: Breakdown)
    requires InRange(b)
    ensures Decompose(Recompose(b)) == b
  {
    var x := Recompose(b);
    var rs := b.seconds * MS_PER_SEC + b.milliseconds;
    var rm := b.minutes * MS_PER_MIN + rs;
    var rh := b.hours * MS_PER_HOUR + rm;
    FieldFits(b.seconds, b.milliseconds, MS_PER_SEC, 60);
    FieldFits(b.minutes, rs, MS_PER_MIN, 60);
    FieldFits(b.hours, rm, MS_PER_HOUR, 24);
    assert x == b.days * MS_PER_DAY + rh;
    DivModUnique(x, MS_PER_DAY, b.days, rh);
    DivModUnique(rh, MS_PER_HOUR, b.hours, rm);
    NestedMod(x, MS_PER_HOUR, 24);
    DivModUnique(rm, MS_PER_MIN, b.minutes, rs);
    NestedMod(x, MS_PER_MIN, 60);
    DivModUnique(rs, MS_PER_SEC, b.seconds, b.milliseconds);
    NestedMod(x, MS_PER_SEC, 60);
  }

  /** A field below `k` over a remainder below the unit stays below `k` units. */
  lemma FieldFits(field: nat, rest: nat, unit: nat, k: nat)
    requires field < k && rest < unit
    ensures field * unit + rest < unit * k
  {
    MulMono(k, field + 1, unit);
    assert (field + 1) * unit == field * unit + unit;
  }
}
