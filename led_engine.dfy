/**
 * The LED engine: four LEDs, each in mode HIGH, LOW or BLINK, and one alarm shared by every
 * future action through a min-heap of scheduled commands ordered by deadline. A BLINK LED
 * re-schedules its own toggle every `BLINK_MILLIS`; a toggle that arrives after the LED has
 * left BLINK is ignored. `HandleSchedule` is the alarm's interrupt handler: it drains every
 * command that is due and re-arms the alarm for the head of the queue.
 *
 * The same engine exists twice: generic over a scheduler, with commands ordered by deadline
 * only, and bound to the rp2040 timer, with the derived lexicographic order on
 * (deadline, LED number, command). `CommandOrder` selects between the two.
 */
module LedEngine {
  import opened Optional
  import opened Slots
  import opened PriorityQueue
  import opened Scheduling

  const BLINK_MILLIS: nat := 100
  const LED_COUNT: nat := 4
  const QUEUE_CAPACITY: nat := 20

  /**
   * An LED number the engine can index. The source panics for `led_num > 4` and indexes its
   * four-element arrays with the rest, so 4 would panic there too; the model admits 0..3.
   */
  type LedIndex = n: nat | n < LED_COUNT

  datatype LedMode = High | Low | Blink
  datatype LedStatus = High | Low
  datatype Command = ChangeLedMode(mode: LedMode) | ChangeLedStatus(status: LedStatus)
  datatype ScheduledPinsCommand = ScheduledPinsCommand(schedule: nat, ledNum: LedIndex, command: Command)

  /** Which of the two orderings of scheduled commands the engine uses. */
  datatype CommandOrder =
    | ScheduleOnly   // `Ord` compares the deadline only
    | Lexicographic  // derived `Ord`: deadline, then LED number, then command

  /** The position of a mode in its declaration, which the derived order follows. */
  function ModeIndex(m: LedMode): nat {
    match m
    case High => 0
    case Low => 1
    case Blink => 2
  }

  function StatusIndex(s: LedStatus): nat {
    match s
    case High => 0
    case Low => 1
  }

  /** The derived order on commands: variants in declaration order, then their payloads. */
  predicate CommandLess(a: Command, b: Command) {
    match (a, b)
    case (ChangeLedMode(x), ChangeLedMode(y)) => ModeIndex(x) < ModeIndex(y)
    case (ChangeLedMode(_), ChangeLedStatus(_)) => true
    case (ChangeLedStatus(_), ChangeLedMode(_)) => false
    case (ChangeLedStatus(x), ChangeLedStatus(y)) => StatusIndex(x) < StatusIndex(y)
  }

  /** The derived lexicographic order on scheduled commands. */
  predicate DerivedLess(a: ScheduledPinsCommand, b: ScheduledPinsCommand) {
    a.schedule < b.schedule ||
    (a.schedule == b.schedule && a.ledNum < b.ledNum) ||
    (a.schedule == b.schedule && a.ledNum == b.ledNum && CommandLess(a.command, b.command))
  }

  /** A command's rank among the five commands, in the derived order. */
  function Rank(c: Command): nat {
    match c
    case ChangeLedMode(m) => ModeIndex(m)
    case ChangeLedStatus(s) => 3 + StatusIndex(s)
  }

  /** The integer the heap compares: the deadline alone, or the lexicographic triple packed. */
  function Key(order: CommandOrder, c: ScheduledPinsCommand): (r: int)
    ensures order == ScheduleOnly ==> r == c.schedule
    ensures order == Lexicographic ==> c.schedule * (LED_COUNT * 5) <= r < (c.schedule + 1) * (LED_COUNT * 5)
  {
    match order
    case ScheduleOnly => c.schedule
    case Lexicographic => (c.schedule * LED_COUNT + c.ledNum) * 5 + Rank(c.command)
  }

  function OrderKey(order: CommandOrder): ScheduledPinsCommand -> int {
    c => Key(order, c)
  }

  /** Packing the triple into one integer reproduces the derived order, and loses nothing. */
  lemma LexicographicKeyIsDerivedOrder(a: ScheduledPinsCommand, b: ScheduledPinsCommand)
    ensures Key(Lexicographic, a) < Key(Lexicographic, b) <==> DerivedLess(a, b)
    ensures Key(Lexicographic, a) == Key(Lexicographic, b) <==> a == b
  {
    var ra, rb := Rank(a.command), Rank(b.command);
    assert CommandLess(a.command, b.command) <==> ra < rb;
    assert ra == rb <==> a.command == b.command;
    var ta, tb := a.schedule * LED_COUNT + a.ledNum, b.schedule * LED_COUNT + b.ledNum;
    assert ta < tb <==> a.schedule < b.schedule || (a.schedule == b.schedule && a.ledNum < b.ledNum);
    assert ta == tb <==> a.schedule == b.schedule && a.ledNum == b.ledNum;
  }

  /** Under either order, an earlier deadline means a smaller key, and a smaller key never a later deadline. */
  lemma KeyFollowsSchedule(order: CommandOrder, a: ScheduledPinsCommand, b: ScheduledPinsCommand)
    ensures a.schedule < b.schedule ==> Key(order, a) < Key(order, b)
    ensures Key(order, a) <= Key(order, b) ==> a.schedule <= b.schedule
  {
    if order == Lexicographic {
      LexicographicKeyIsDerivedOrder(a, b);
      LexicographicKeyIsDerivedOrder(b, a);
    }
  }

  /** The pin level a mode drives when it is entered: LOW for LOW, HIGH for HIGH and BLINK. */
  function EntryLevel(mode: LedMode): LedStatus {
    if mode == LedMode.Low then LedStatus.Low else LedStatus.High
  }

  function Opposite(s: LedStatus): LedStatus {
    if s == LedStatus.High then LedStatus.Low else LedStatus.High
  }

  /** The pin levels and modes of the four LEDs. */
  datatype PinState = PinState(leds: seq<LedStatus>, modes: seq<LedMode>)

  predicate WellFormed(st: PinState) {
    |st.leds| == LED_COUNT && |st.modes| == LED_COUNT
  }

  /** The toggle a BLINK LED schedules for itself. */
  function Toggle(now: nat, ledNum: LedIndex, status: LedStatus): ScheduledPinsCommand {
    ScheduledPinsCommand(now + BLINK_MILLIS, ledNum, ChangeLedStatus(status))
  }

  /**
   * `_change_mode(led_num, mode)` at instant `now`: the new pin levels and modes, and the
   * command to schedule next.
   */
  function ModeChange(st: PinState, ledNum: LedIndex, mode: LedMode, now: nat): (r: (PinState, Option<ScheduledPinsCommand>))
    requires WellFormed(st)
    ensures WellFormed(r.0)
    ensures r.0.modes[ledNum] == mode && r.0.leds[ledNum] == EntryLevel(mode)
    ensures forall j :: 0 <= j < LED_COUNT && j != ledNum ==> r.0.leds[j] == st.leds[j] && r.0.modes[j] == st.modes[j]
    ensures r.1.Some? <==> mode == Blink
    ensures r.1.Some? ==> r.1.value == Toggle(now, ledNum, LedStatus.Low)
  {
    (PinState(st.leds[ledNum := EntryLevel(mode)], st.modes[ledNum := mode]),
     if mode == Blink then Some(Toggle(now, ledNum, LedStatus.Low)) else None)
  }

  /**
   * `_handle_command(led_num, command)` at instant `now`: the new pin levels and modes, and
   * the follow-up command, if any.
   */
  function CommandEffect(st: PinState, ledNum: LedIndex, command: Command, now: nat): (r: (PinState, Option<ScheduledPinsCommand>))
    requires WellFormed(st)
    ensures WellFormed(r.0)
    ensures r.1.Some? ==> r.1.value.ledNum == ledNum && r.1.value.schedule == now + BLINK_MILLIS
  {
    match command
    case ChangeLedMode(mode) => (ModeChange(st, ledNum, mode, now).0, None)
    case ChangeLedStatus(pin) =>
      if st.modes[ledNum] == Blink then
        (PinState(st.leds[ledNum := pin], st.modes), Some(Toggle(now, ledNum, Opposite(pin))))
      else (st, None)
  }

  /** The pin state after handling the commands in order, all at instant `now`. */
  function Replay(st: PinState, cmds: seq<ScheduledPinsCommand>, now: nat): (r: PinState)
    requires WellFormed(st)
    ensures WellFormed(r)
  {
    if cmds == [] then st
    else
      var last := cmds[|cmds| - 1];
      CommandEffect(Replay(st, cmds[..|cmds| - 1], now), last.ledNum, last.command, now).0
  }

  function OptionToSeq<T>(o: Option<T>): seq<T> {
    if o.Some? then [o.value] else []
  }

  /** The follow-ups produced while handling the commands in order, all at instant `now`. */
  function FollowUps(st: PinState, cmds: seq<ScheduledPinsCommand>, now: nat): (r: seq<ScheduledPinsCommand>)
    requires WellFormed(st)
    ensures forall i :: 0 <= i < |r| ==> r[i].schedule == now + BLINK_MILLIS
  {
    if cmds == [] then []
    else
      var last := cmds[|cmds| - 1];
      FollowUps(st, cmds[..|cmds| - 1], now) +
      OptionToSeq(CommandEffect(Replay(st, cmds[..|cmds| - 1], now), last.ledNum, last.command, now).1)
  }

  /** Lazy cancellation: a toggle for an LED that is no longer in BLINK does nothing. */
  lemma StaleToggleIsIgnored(st: PinState, ledNum: LedIndex, status: LedStatus, now: nat)
    requires WellFormed(st) && st.modes[ledNum] != Blink
    ensures CommandEffect(st, ledNum, ChangeLedStatus(status), now) == (st, None)
  {
  }

  /** In BLINK a toggle drives the carried level and schedules the opposite one. */
  lemma ToggleInBlink(st: PinState, ledNum: LedIndex, status: LedStatus, now: nat)
    requires WellFormed(st) && st.modes[ledNum] == Blink
    ensures var r := CommandEffect(st, ledNum, ChangeLedStatus(status), now);
            r.0.leds == st.leds[ledNum := status] && r.0.modes == st.modes &&
            r.1 == Some(Toggle(now, ledNum, Opposite(status)))
  {
  }

  /**
   * A BLINK chain alternates: handling a toggle and then the toggle it scheduled drives the
   * opposite level and schedules the original toggle again.
   */
  lemma BlinkChainAlternates(st: PinState, ledNum: LedIndex, status: LedStatus, now: nat, later: nat)
    requires WellFormed(st) && st.modes[ledNum] == Blink
    ensures var first := CommandEffect(st, ledNum, ChangeLedStatus(status), now);
            first.1.Some? &&
            var second := CommandEffect(first.0, ledNum, first.1.value.command, later);
            second.0.leds[ledNum] == Opposite(status) && second.0.modes[ledNum] == Blink &&
            second.1 == Some(Toggle(later, ledNum, status))
  {
    assert Opposite(Opposite(status)) == status;
  }

  /**
   * A queued mode change applies the mode and drives its entry level, but never yields a
   * follow-up, so a delayed BLINK does not start toggling.
   */
  lemma QueuedModeChangeHasNoFollowUp(st: PinState, ledNum: LedIndex, mode: LedMode, now: nat)
    requires WellFormed(st)
    ensures var r := CommandEffect(st, ledNum, ChangeLedMode(mode), now);
            r.1 == None && r.0.modes[ledNum] == mode && r.0.leds[ledNum] == EntryLevel(mode)
  {
  }

  /** A command touches only the LED it addresses. */
  lemma CommandIsLocal(st: PinState, ledNum: LedIndex, command: Command, now: nat, j: LedIndex)
    requires WellFormed(st) && j != ledNum
    ensures var r := CommandEffect(st, ledNum, command, now);
            r.0.leds[j] == st.leds[j] && r.0.modes[j] == st.modes[j]
  {
  }

  /** Handling one more command extends the replay by that command. */
  lemma ReplaySnoc(st: PinState, cmds: seq<ScheduledPinsCommand>, c: ScheduledPinsCommand, now: nat)
    requires WellFormed(st)
    ensures Replay(st, cmds + [c], now) == CommandEffect(Replay(st, cmds, now), c.ledNum, c.command, now).0
    ensures FollowUps(st, cmds + [c], now) ==
              FollowUps(st, cmds, now) + OptionToSeq(CommandEffect(Replay(st, cmds, now), c.ledNum, c.command, now).1)
  {
    assert (cmds + [c])[..|cmds|] == cmds;
  }

  /**
   * What the drain loop keeps, starting from pin state `st0` and queue contents `e0`, with
   * pin state `st` and queue contents `queued` now: `executed` lists the commands handled so
   * far, all due and in key order, none keyed above what is still queued; `followUps` lists
   * the commands they enqueued, all due later; the queue plus the handled commands are the
   * starting queue plus the follow-ups; the pins are the replay of the handled commands.
   */
  ghost predicate Drained(order: CommandOrder, st0: PinState, e0: multiset<ScheduledPinsCommand>,
                          st: PinState, queued: multiset<ScheduledPinsCommand>,
                          executed: seq<ScheduledPinsCommand>, followUps: seq<ScheduledPinsCommand>, now: nat)
  {
    WellFormed(st0) && DrainBooks(order, e0, queued, executed, followUps, now) &&
    st == Replay(st0, executed, now) && followUps == FollowUps(st0, executed, now)
  }

  /** The part of `Drained` that does not depend on what the commands do to the pins. */
  ghost predicate DrainBooks(order: CommandOrder, e0: multiset<ScheduledPinsCommand>, queued: multiset<ScheduledPinsCommand>,
                             executed: seq<ScheduledPinsCommand>, followUps: seq<ScheduledPinsCommand>, now: nat)
  {
    (forall i :: 0 <= i < |executed| ==> executed[i].schedule <= now) &&
    (forall i, j :: 0 <= i < j < |executed| ==> Key(order, executed[i]) <= Key(order, executed[j])) &&
    (|executed| > 0 ==> forall c :: c in queued ==> Key(order, executed[|executed| - 1]) <= Key(order, c)) &&
    (forall f :: f in multiset(followUps) ==> f.schedule > now) &&
    queued + multiset(executed) == e0 + multiset(followUps) &&
    multiset(executed) <= e0
  }

  /** Nothing handled yet: the drain loop starts in its invariant. */
  lemma DrainStarts(order: CommandOrder, st: PinState, queued: multiset<ScheduledPinsCommand>, now: nat)
    requires WellFormed(st)
    ensures Drained(order, st, queued, st, queued, [], [], now)
  {
  }

  /**
   * Handling a due head of the queue, one no larger than anything queued, and queueing its
   * follow-up keeps what the drain loop keeps; the handled commands stay among the starting
   * ones, so the loop ends.
   */
  lemma DrainRoundKeeps(order: CommandOrder, st0: PinState, e0: multiset<ScheduledPinsCommand>,
                        st: PinState, queued: multiset<ScheduledPinsCommand>,
                        executed: seq<ScheduledPinsCommand>, followUps: seq<ScheduledPinsCommand>,
                        next: ScheduledPinsCommand, now: nat)
    requires Drained(order, st0, e0, st, queued, executed, followUps, now)
    requires next in queued && next.schedule <= now
    requires forall c :: c in queued ==> Key(order, next) <= Key(order, c)
    ensures var (st', followUp) := CommandEffect(st, next.ledNum, next.command, now);
            Drained(order, st0, e0, st', queued - multiset{next} + multiset(OptionToSeq(followUp)),
                    executed + [next], followUps + OptionToSeq(followUp), now)
    ensures |executed| < |e0|
  {
    var effect := CommandEffect(st, next.ledNum, next.command, now);
    ReplaySnoc(st0, executed, next, now);
    assert effect.1.Some? ==> effect.1.value.schedule > now;
    DrainStep(order, e0, queued, executed, followUps, next, now, effect.1);
  }

  /** The bookkeeping half of one drain round, whatever the follow-up, so long as it is not yet due. */
  lemma DrainStep(order: CommandOrder, e0: multiset<ScheduledPinsCommand>, queued: multiset<ScheduledPinsCommand>,
                  executed: seq<ScheduledPinsCommand>, followUps: seq<ScheduledPinsCommand>,
                  next: ScheduledPinsCommand, now: nat, followUp: Option<ScheduledPinsCommand>)
    requires DrainBooks(order, e0, queued, executed, followUps, now)
    requires next in queued && next.schedule <= now
    requires forall c :: c in queued ==> Key(order, next) <= Key(order, c)
    requires followUp.Some? ==> followUp.value.schedule > now
    ensures DrainBooks(order, e0, queued - multiset{next} + multiset(OptionToSeq(followUp)),
                       executed + [next], followUps + OptionToSeq(followUp), now)
    ensures |executed| < |e0|
  {
    var extra := multiset(OptionToSeq(followUp));
    var queued', executed', followUps' := queued - multiset{next} + extra, executed + [next], followUps + OptionToSeq(followUp);
    assert forall c :: c in extra ==> c.schedule > now;
    assert queued' + multiset(executed') == e0 + multiset(followUps') && multiset(executed') <= e0 && |executed| < |e0| by {
      DrainCountsStep(e0, queued, multiset(executed), multiset(followUps), next, extra, now);
      assert multiset(executed') == multiset(executed) + multiset{next};
      assert multiset(followUps') == multiset(followUps) + extra;
    }
    DrainOrderStep(order, queued, executed, next, extra);
    assert forall f: ScheduledPinsCommand :: f in multiset(followUps') ==> f.schedule > now by {
      assert multiset(followUps') == multiset(followUps) + extra;
    }
    DueSnoc(executed, next, now);
  }

  lemma DueSnoc(executed: seq<ScheduledPinsCommand>, next: ScheduledPinsCommand, now: nat)
    requires forall i :: 0 <= i < |executed| ==> executed[i].schedule <= now
    requires next.schedule <= now
    ensures forall i :: 0 <= i < |executed + [next]| ==> (executed + [next])[i].schedule <= now
  {
  }

  /** The counting half of one drain round. */
  lemma DrainCountsStep(e0: multiset<ScheduledPinsCommand>, queued: multiset<ScheduledPinsCommand>,
                        done: multiset<ScheduledPinsCommand>, made: multiset<ScheduledPinsCommand>,
                        next: ScheduledPinsCommand, extra: multiset<ScheduledPinsCommand>, now: nat)
    requires queued + done == e0 + made && done <= e0
    requires next in queued && next.schedule <= now
    requires forall f :: f in made ==> f.schedule > now
    ensures (queued - multiset{next} + extra) + (done + multiset{next}) == e0 + (made + extra)
    ensures done + multiset{next} <= e0 && |done| < |e0|
  {
    assert next !in made;
    assert (queued + done)[next] == (e0 + made)[next];
    var after := queued - multiset{next} + extra;
    forall c ensures (after + (done + multiset{next}))[c] == (e0 + (made + extra))[c] {
      assert (queued + done)[c] == (e0 + made)[c];
    }
    MultisetExtensionality(after + (done + multiset{next}), e0 + (made + extra));
    assert |done + multiset{next}| <= |e0| by {
      assert e0 == (done + multiset{next}) + (e0 - (done + multiset{next}));
    }
  }

  /** The ordering half of one drain round: the handled commands stay in key order. */
  lemma DrainOrderStep(order: CommandOrder, queued: multiset<ScheduledPinsCommand>, executed: seq<ScheduledPinsCommand>,
                       next: ScheduledPinsCommand, extra: multiset<ScheduledPinsCommand>)
    requires forall i, j :: 0 <= i < j < |executed| ==> Key(order, executed[i]) <= Key(order, executed[j])
    requires |executed| > 0 ==> forall c :: c in queued ==> Key(order, executed[|executed| - 1]) <= Key(order, c)
    requires next in queued && forall c :: c in queued ==> Key(order, next) <= Key(order, c)
    requires forall c :: c in extra ==> next.schedule < c.schedule
    ensures var executed' := executed + [next];
            forall i, j :: 0 <= i < j < |executed'| ==> Key(order, executed'[i]) <= Key(order, executed'[j])
    ensures forall c :: c in queued - multiset{next} + extra ==> Key(order, next) <= Key(order, c)
  {
    var executed' := executed + [next];
    forall i, j | 0 <= i < j < |executed'| ensures Key(order, executed'[i]) <= Key(order, executed'[j]) {
      if j == |executed| {
        assert Key(order, executed[i]) <= Key(order, executed[|executed| - 1]);
      }
    }
    forall c | c in queued - multiset{next} + extra ensures Key(order, next) <= Key(order, c) {
      if c in extra {
        KeyFollowsSchedule(order, next, c);
      } else {
        assert c in queued;
      }
    }
  }

  /**
   * The head of a queue ordered by `key`, a key that agrees with `order`, has the earliest
   * deadline of the queue; so when the drain stops at a head due after `now`, nothing queued
   * is due.
   */
  lemma HeadIsEarliest(order: CommandOrder, key: ScheduledPinsCommand -> int, head: ScheduledPinsCommand,
                       queued: multiset<ScheduledPinsCommand>)
    requires forall c :: key(c) == Key(order, c)
    requires forall c :: c in queued ==> key(head) <= key(c)
    ensures forall c :: c in queued ==> head.schedule <= c.schedule
  {
    forall c | c in queued ensures head.schedule <= c.schedule {
      KeyFollowsSchedule(order, head, c);
    }
  }

  /**
   * When nothing due is left, the handled commands are exactly the due commands that were
   * queued at the start, and what is queued is the rest plus the follow-ups.
   */
  lemma DrainedCounts(e0: multiset<ScheduledPinsCommand>, queued: multiset<ScheduledPinsCommand>,
                      done: multiset<ScheduledPinsCommand>, made: multiset<ScheduledPinsCommand>, now: nat)
    requires queued + done == e0 + made
    requires forall c :: c in queued ==> c.schedule > now
    requires forall c :: c in made ==> c.schedule > now
    requires forall c :: c in done ==> c.schedule <= now
    ensures forall c :: done[c] == if c.schedule <= now then e0[c] else 0
  {
    forall c ensures done[c] == if c.schedule <= now then e0[c] else 0 {
      assert (queued + done)[c] == (e0 + made)[c];
      if c.schedule <= now {
        assert c !in queued && c !in made;
      } else {
        assert c !in done;
      }
    }
  }

  /**
   * The engine. `leds` holds the pin levels, `ledModes` the modes, `queue` the pending
   * commands, and `scheduler` the timer and alarm. The invariant ties the queue's order to
   * `order` and keeps every queued command addressed to one of the four LEDs.
   */
  class LedPins {
    const leds: array<LedStatus>
    const ledModes: array<LedMode>
    const queue: FixedSizePriorityQueue<ScheduledPinsCommand>
    const scheduler: MockScheduler
    const order: CommandOrder

    ghost predicate Valid()
      reads this, queue, queue.slots
    {
      leds.Length == LED_COUNT && ledModes.Length == LED_COUNT &&
      queue.Valid() && queue.slots.Length == QUEUE_CAPACITY &&
      forall c :: queue.key(c) == Key(order, c)
    }

    ghost function State(): PinState
      reads this, leds, ledModes
    {
      PinState(leds[..], ledModes[..])
    }

    /** `init`: the given pin levels, every mode LOW, an empty queue. */
    constructor (initial: seq<LedStatus>, scheduler: MockScheduler, order: CommandOrder)
      requires |initial| == LED_COUNT
      ensures Valid() && fresh(leds) && fresh(ledModes) && fresh(queue) && fresh(queue.slots)
      ensures State() == PinState(initial, seq(LED_COUNT, _ => LedMode.Low))
      ensures queue.size == 0 && this.scheduler == scheduler && this.order == order
    {
      leds := new LedStatus[LED_COUNT](i requires 0 <= i < LED_COUNT => initial[i]);
      ledModes := new LedMode[LED_COUNT](_ => LedMode.Low);
      queue := new FixedSizePriorityQueue<ScheduledPinsCommand>(QUEUE_CAPACITY, OrderKey(order));
      this.scheduler := scheduler;
      this.order := order;
    }

    /** `_change_mode`: store the mode, drive its entry level, and return the toggle BLINK needs. */
    method ChangeMode(ledNum: LedIndex, mode: LedMode) returns (next: Option<ScheduledPinsCommand>)
      requires leds.Length == LED_COUNT && ledModes.Length == LED_COUNT
      modifies leds, ledModes
      ensures (State(), next) == ModeChange(old(State()), ledNum, mode, scheduler.counter)
    {
      ledModes[ledNum] := mode;
      match mode
      case High =>
        leds[ledNum] := LedStatus.High;
        next := None;
      case Low =>
        leds[ledNum] := LedStatus.Low;
        next := None;
      case Blink =>
        leds[ledNum] := LedStatus.High;
        next := Some(ScheduledPinsCommand(scheduler.counter + BLINK_MILLIS, ledNum, ChangeLedStatus(LedStatus.Low)));
    }

    /** `_handle_command`: apply one dequeued command and return its follow-up, if any. */
    method HandleCommand(ledNum: LedIndex, command: Command) returns (next: Option<ScheduledPinsCommand>)
      requires leds.Length == LED_COUNT && ledModes.Length == LED_COUNT
      modifies leds, ledModes
      ensures (State(), next) == CommandEffect(old(State()), ledNum, command, scheduler.counter)
    {
      var currentMode := ledModes[ledNum];
      match command
      case ChangeLedMode(mode) =>
        var _ := ChangeMode(ledNum, mode);
        next := None;
      case ChangeLedStatus(pin) =>
        if currentMode == Blink {
          if pin == LedStatus.High {
            leds[ledNum] := LedStatus.High;
            next := Some(ScheduledPinsCommand(scheduler.counter + BLINK_MILLIS, ledNum, ChangeLedStatus(LedStatus.Low)));
          } else {
            leds[ledNum] := LedStatus.Low;
            next := Some(ScheduledPinsCommand(scheduler.counter + BLINK_MILLIS, ledNum, ChangeLedStatus(LedStatus.High)));
          }
        } else {
          next := None;
        }
    }

    /**
     * `set_led_mode(led_num, mode)`. HIGH and LOW set the mode and the pin and touch neither
     * queue nor alarm. BLINK also enqueues a toggle to LOW `BLINK_MILLIS` from now (dropped
     * if the queue is full) and arms the alarm for it only if the alarm was idle.
     */
    method SetLedMode(ledNum: LedIndex, mode: LedMode)
      requires Valid() && (mode == Blink ==> scheduler.counter + BLINK_MILLIS <= INSTANT_MAX)
      modifies leds, ledModes, queue, queue.slots, scheduler
      ensures Valid()
      ensures State() == ModeChange(old(State()), ledNum, mode, old(scheduler.counter)).0
      ensures scheduler.counter == old(scheduler.counter)
      ensures mode != Blink ==>
                queue.size == old(queue.size) && queue.slots[..] == old(queue.slots[..]) &&
                scheduler.nextSchedule == old(scheduler.nextSchedule)
      ensures mode == Blink ==>
                var toggle := Toggle(old(scheduler.counter), ledNum, LedStatus.Low);
                (old(queue.size) < QUEUE_CAPACITY ==> queue.Elements() == old(queue.Elements()) + multiset{toggle}) &&
                (old(queue.size) == QUEUE_CAPACITY ==> queue.Elements() == old(queue.Elements())) &&
                scheduler.nextSchedule ==
                  (if old(scheduler.Finished()) then Some(toggle.schedule) else old(scheduler.nextSchedule))
    {
      var next := ChangeMode(ledNum, mode);
      if next.Some? {
        Enqueue(next.value);
        if scheduler.Finished() {
          scheduler.ScheduleAt(next.value.schedule);
        }
      }
    }

    /**
     * `set_mode_later(led_num, mode, countdown)`: enqueue the mode change `countdown` from now
     * (dropped if the queue is full), leaving pins and modes as they are, and arm the alarm
     * `countdown` from now only if it was idle.
     */
    method SetModeLater(ledNum: LedIndex, mode: LedMode, countdown: nat)
      requires Valid() && scheduler.counter + countdown <= INSTANT_MAX
      modifies queue, queue.slots, scheduler
      ensures Valid()
      ensures scheduler.counter == old(scheduler.counter)
      ensures var later := ScheduledPinsCommand(old(scheduler.counter) + countdown, ledNum, ChangeLedMode(mode));
              (old(queue.size) < QUEUE_CAPACITY ==> queue.Elements() == old(queue.Elements()) + multiset{later}) &&
              (old(queue.size) == QUEUE_CAPACITY ==> queue.Elements() == old(queue.Elements()))
      ensures scheduler.nextSchedule ==
                (if old(scheduler.Finished()) then Some(old(scheduler.counter) + countdown) else old(scheduler.nextSchedule))
    {
      var later := ScheduledPinsCommand(scheduler.counter + countdown, ledNum, ChangeLedMode(mode));
      Enqueue(later);
      if scheduler.Finished() {
        scheduler.Schedule(countdown);
      }
    }

    /** `queue.push(command)`, whose result the callers ignore: a command that finds the queue full is dropped. */
    method Enqueue(command: ScheduledPinsCommand)
      requires Valid()
      modifies queue, queue.slots
      ensures Valid()
      ensures old(queue.size) < QUEUE_CAPACITY ==> queue.Elements() == old(queue.Elements()) + multiset{command}
      ensures old(queue.size) == QUEUE_CAPACITY ==> queue.Elements() == old(queue.Elements())
    {
      var _ := queue.Push(command);
    }

    /**
     * One round of the drain loop: pop the head, handle it, and enqueue its follow-up. The
     * pop frees a slot, so the follow-up is never dropped.
     */
    method ExecuteHead(now: nat) returns (next: ScheduledPinsCommand, followUp: Option<ScheduledPinsCommand>)
      requires Valid() && queue.size > 0 && scheduler.counter == now
      modifies leds, ledModes, queue, queue.slots
      ensures Valid()
      ensures Some(next) == old(queue.Peek()) && next in old(queue.Elements())
      ensures forall c :: c in old(queue.Elements()) ==> Key(order, next) <= Key(order, c)
      ensures (State(), followUp) == CommandEffect(old(State()), next.ledNum, next.command, now)
      ensures queue.Elements() == old(queue.Elements()) - multiset{next} + multiset(OptionToSeq(followUp))
    {
      next := PopHead();
      followUp := HandleCommand(next.ledNum, next.command);
      EnqueueFollowUp(followUp);
    }

    /** The `peek` and `pop` of the drain loop: the head leaves the queue. */
    method PopHead() returns (next: ScheduledPinsCommand)
      requires Valid() && queue.size > 0
      modifies queue, queue.slots
      ensures Valid() && queue.size < QUEUE_CAPACITY
      ensures Some(next) == old(queue.Peek()) && next in old(queue.Elements())
      ensures forall c :: c in old(queue.Elements()) ==> Key(order, next) <= Key(order, c)
      ensures queue.Elements() == old(queue.Elements()) - multiset{next}
    {
      next := queue.Peek().value;
      var _ := queue.Pop();
    }

    /** The `push` of the drain loop, which always has room after the pop. */
    method EnqueueFollowUp(followUp: Option<ScheduledPinsCommand>)
      requires Valid() && queue.size < QUEUE_CAPACITY
      modifies queue, queue.slots
      ensures Valid()
      ensures queue.Elements() == old(queue.Elements()) + multiset(OptionToSeq(followUp))
    {
      if followUp.Some? {
        var ok := queue.Push(followUp.value);
      }
    }

    /** One round of the drain loop, taken when the head is due. */
    method DrainRound(now: nat, ghost st0: PinState, ghost e0: multiset<ScheduledPinsCommand>,
                      ghost executed: seq<ScheduledPinsCommand>, ghost followUps: seq<ScheduledPinsCommand>)
      returns (ghost executed': seq<ScheduledPinsCommand>, ghost followUps': seq<ScheduledPinsCommand>)
      requires Valid() && scheduler.counter == now
      requires Drained(order, st0, e0, State(), queue.Elements(), executed, followUps, now)
      requires queue.size > 0 && queue.Peek().value.schedule <= now
      modifies leds, ledModes, queue, queue.slots
      ensures Valid()
      ensures Drained(order, st0, e0, State(), queue.Elements(), executed', followUps', now)
      ensures |executed'| == |executed| + 1 && |executed'| <= |e0|
    {
      ghost var st, queued := State(), queue.Elements();
      var next, followUp := ExecuteHead(now);
      DrainRoundKeeps(order, st0, e0, st, queued, executed, followUps, next, now);
      executed' := executed + [next];
      followUps' := followUps + OptionToSeq(followUp);
    }

    /**
     * The `while let` loop of `handle_schedule()`: pop and handle the head while it is due at
     * or before `now`, re-enqueueing each follow-up. `executed` lists the handled commands in
     * order and `followUps` the commands they enqueued; afterwards nothing queued is due.
     */
    method Drain(now: nat) returns (ghost executed: seq<ScheduledPinsCommand>, ghost followUps: seq<ScheduledPinsCommand>)
      requires Valid() && scheduler.counter == now
      modifies leds, ledModes, queue, queue.slots
      ensures Valid()
      ensures Drained(order, old(State()), old(queue.Elements()), State(), queue.Elements(), executed, followUps, now)
      ensures forall c :: c in queue.Elements() ==> c.schedule > now
    {
      ghost var st0 := State();
      ghost var e0 := queue.Elements();
      executed, followUps := [], [];
      DrainStarts(order, st0, e0, now);
      while true
        invariant Valid()
        invariant Drained(order, st0, e0, State(), queue.Elements(), executed, followUps, now)
        invariant |executed| <= |e0|
        decreases |e0| - |executed|
      {
        var head := queue.Peek();
        if head.None? {
          assert queue.Elements() == multiset{};
          break;
        }
        if head.value.schedule <= now {
          executed, followUps := DrainRound(now, st0, e0, executed, followUps);
        } else {
          HeadIsEarliest(order, queue.key, head.value, queue.Elements());
          assert forall c :: c in queue.Elements() ==> c.schedule > now;
          break;
        }
      }
    }

    /**
     * `handle_schedule()`, the alarm handler. It clears the alarm, drains every command due
     * at or before the current instant, and arms the alarm for the head of the queue, if any.
     * The handled commands are exactly the due ones queued beforehand, in order of the
     * queue's key and hence of their deadlines; afterwards nothing queued is due.
     */
    method HandleSchedule() returns (ghost executed: seq<ScheduledPinsCommand>, ghost followUps: seq<ScheduledPinsCommand>)
      requires Valid()
      modifies leds, ledModes, queue, queue.slots, scheduler
      ensures Valid() && scheduler.counter == old(scheduler.counter)
      ensures forall i, j :: 0 <= i < j < |executed| ==> Key(order, executed[i]) <= Key(order, executed[j])
      ensures forall c :: multiset(executed)[c] == if c.schedule <= scheduler.counter then old(queue.Elements())[c] else 0
      ensures queue.Elements() + multiset(executed) == old(queue.Elements()) + multiset(followUps)
      ensures forall c :: c in queue.Elements() ==> c.schedule > scheduler.counter
      ensures State() == Replay(old(State()), executed, scheduler.counter)
      ensures followUps == FollowUps(old(State()), executed, scheduler.counter)
      ensures queue.size == 0 ==> scheduler.nextSchedule == None
      ensures queue.size > 0 ==>
                scheduler.nextSchedule == Some(queue.Peek().value.schedule) &&
                forall c :: c in queue.Elements() ==> queue.Peek().value.schedule <= c.schedule
    {
      scheduler.ClearInterrupt();
      var now := scheduler.counter;
      executed, followUps := Drain(now);
      DrainedCounts(old(queue.Elements()), queue.Elements(), multiset(executed), multiset(followUps), now);
      if scheduler.Finished() {
        var head := queue.Peek();
        if head.Some? {
          HeadIsEarliest(order, queue.key, head.value, queue.Elements());
          scheduler.ScheduleAt(head.value.schedule);
        }
      }
    }
  }
}
