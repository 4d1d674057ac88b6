/** The risk manager under overlapping calls: a check loads the loss, then the pending count, and
    its fill is recorded as started later still; a completion drops the pending count, then books
    the P&L. How far the day's loss can then exceed the limit, and that it does get there. */
module RiskRaces {
  import opened Machine
  import opened Results
  import opened Tasks
  import opened Risk

  /** `reading` holds the loss each task in mid-check has loaded, `armed` the tasks whose check
      passed and whose fill is not yet recorded as started, `booking` the P&L of the fills that
      are no longer pending but not yet booked. */
  datatype Desk = Desk(dailyPnlWei: i64, pending: u32, reading: map<TaskId, u64>, armed: set<TaskId>,
                       booking: map<TaskId, i64>)

  datatype Move =
    | LoadLoss(checker: TaskId)
    | LoadPending(checker: TaskId, fillValue: u256, position: u256)
    | StartFill(checker: TaskId)
    | DropPending(completer: TaskId, pnlWei: i64)
    | BookPnl(completer: TaskId)
    | ResetDay

  const Morning := Desk(0, 0, map[], {}, map[])

  /** One atomic operation of one task; None when the task is not at it. */
  function Step(config: RiskConfig, s: Desk, move: Move): Option<Desk> {
    match move
    case LoadLoss(t) =>
      if t in s.reading || t in s.armed then None
      else Some(s.(reading := s.reading[t := DailyLoss(s.dailyPnlWei)]))
    case LoadPending(t, fillValue, position) =>
      if t !in s.reading then None
      else
        var passed := Check(config, s.reading[t], s.pending, fillValue, position) == Passed;
        Some(s.(reading := s.reading - {t}, armed := if passed then s.armed + {t} else s.armed))
    case StartFill(t) =>
      if t !in s.armed then None else Some(s.(armed := s.armed - {t}, pending := Wrap32(s.pending + 1)))
    case DropPending(c, pnlWei) =>
      if c in s.booking then None
      else Some(s.(pending := Wrap32(s.pending - 1), booking := s.booking[c := pnlWei]))
    case BookPnl(c) =>
      if c !in s.booking then None
      else Some(s.(dailyPnlWei := WrapI64(s.dailyPnlWei - s.booking[c]), booking := s.booking - {c}))
    case ResetDay => Some(s.(dailyPnlWei := 0))
  }

  /** A check and the start of its fill that nothing interrupts are the same as without overlap. */
  lemma UninterruptedFill(config: RiskConfig, s: Desk, t: TaskId, value: u256, position: u256)
    requires t !in s.reading && t !in s.armed
    ensures var c := Perform(config, Counters(s.dailyPnlWei, s.pending), Fill(value, position));
            var read := Step(config, s, LoadLoss(t));
            var checked := if read == None then None else Step(config, read.value, LoadPending(t, value, position));
            && checked.Some?
            && (t in checked.value.armed <==>
                  Check(config, DailyLoss(s.dailyPnlWei), s.pending, value, position) == Passed)
            && (if t in checked.value.armed then Step(config, checked.value, StartFill(t)) else checked)
               == Some(s.(dailyPnlWei := c.dailyPnlWei, pending := c.pending))
  {
    assert s.reading[t := DailyLoss(s.dailyPnlWei)] - {t} == s.reading && s.armed + {t} - {t} == s.armed;
  }

  /** So are a completion, and a reset. */
  lemma UninterruptedCompletion(config: RiskConfig, s: Desk, c: TaskId, pnlWei: i64)
    requires c !in s.booking
    ensures var after := Perform(config, Counters(s.dailyPnlWei, s.pending), Complete(pnlWei));
            var dropped := Step(config, s, DropPending(c, pnlWei));
            && dropped.Some?
            && Step(config, dropped.value, BookPnl(c))
               == Some(s.(dailyPnlWei := after.dailyPnlWei, pending := after.pending))
    ensures var after := Perform(config, Counters(s.dailyPnlWei, s.pending), Reset);
            Step(config, s, ResetDay) == Some(s.(dailyPnlWei := after.dailyPnlWei, pending := after.pending))
  {
    assert s.booking[c := pnlWei] - {c} == s.booking;
  }

  /** Who checks, who completes, and the most that a fill loses and gains. */
  datatype Setup = Setup(config: RiskConfig, checkers: set<TaskId>, completers: set<TaskId>, worst: nat, best: int) {
    /** How far above the daily limit the loss can get, in worst fills. */
    ghost function Overrun(): int { config.maxPendingFills + 2 * |checkers| + |completers| - 1 }

    ghost function Bound(): int { config.dailyLossLimitWei + Overrun() * worst }
  }

  /** Completions match starts, and no fill loses or gains more than the most. */
  predicate Orderly(e: Setup, s: Desk, move: Move) {
    match move
    case DropPending(c, pnlWei) => c in e.completers && s.pending > 0 && 0 - e.worst <= pnlWei <= e.best
    case BookPnl(c) => c in e.completers
    case ResetDay => true
    case _ => move.checker in e.checkers
  }

  /** The desk after a run of orderly moves. */
  function Exec(e: Setup, from: Desk, run: seq<Move>): Option<Desk>
    decreases |run|
  {
    if run == [] then Some(from)
    else
      var next := Step(e.config, from, run[0]);
      if next == None || !Orderly(e, from, run[0]) then None else Exec(e, next.value, run[1..])
  }

  ghost predicate Reaches(e: Setup, from: Desk, to: Desk) {
    exists run :: Exec(e, from, run) == Some(to)
  }

  lemma {:induction false} ExecConcat(e: Setup, s: Desk, a: seq<Move>, b: seq<Move>)
    ensures Exec(e, s, a + b) == if Exec(e, s, a) == None then None else Exec(e, Exec(e, s, a).value, b)
    decreases |a|
  {
    if a == [] {
      assert a + b == b;
    } else {
      assert (a + b)[0] == a[0] && (a + b)[1..] == a[1..] + b;
      if Step(e.config, s, a[0]).Some? {
        ExecConcat(e, Step(e.config, s, a[0]).value, a[1..], b);
      }
    }
  }

  /** The desk after the first `n` moves of a day's run. */
  function At(e: Setup, run: seq<Move>, n: nat): Desk {
    if n <= |run| && Exec(e, Morning, run[..n]).Some? then Exec(e, Morning, run[..n]).value else Morning
  }

  lemma {:induction false} AtNext(e: Setup, run: seq<Move>, n: nat)
    requires Exec(e, Morning, run).Some? && n <= |run|
    ensures Exec(e, Morning, run[..n]).Some?
    ensures n < |run| ==> Step(e.config, At(e, run, n), run[n]) == Some(At(e, run, n + 1))
                          && Orderly(e, At(e, run, n), run[n])
  {
    ExecConcat(e, Morning, run[..n], run[n..]);
    assert run[..n] + run[n..] == run;
    if n < |run| {
      ExecConcat(e, Morning, run[..n], [run[n]]);
      ExecConcat(e, Morning, run[..n + 1], run[n + 1..]);
      assert run[..n] + [run[n]] == run[..n + 1] && run[..n + 1] + run[n + 1..] == run;
      assert [run[n]][1..] == [];
    }
  }

  // ----- who is where

  /** Each task is at one place, the slots are overfilled by less than the checkers, and what is
      being booked is within what a fill loses and gains. */
  ghost predicate Seated(e: Setup, s: Desk) {
    && s.armed <= e.checkers && s.reading.Keys <= e.checkers && s.armed !! s.reading.Keys
    && s.booking.Keys <= e.completers && (forall c :: c in s.booking ==> 0 - e.worst <= s.booking[c] <= e.best)
    && s.pending + |s.armed| <= e.config.maxPendingFills + |e.checkers| - 1
  }

  lemma StepSeated(e: Setup, s: Desk, move: Move)
    requires e.config.enabled && Seated(e, s) && Orderly(e, s, move) && Step(e.config, s, move).Some?
    ensures Seated(e, Step(e.config, s, move).value)
  {
    var s' := Step(e.config, s, move).value;
    if move.LoadPending? {
      SubsetSize(s'.armed, e.checkers);
    }
    if move.DropPending? {
      DivModUnique(s.pending - 1, U32_MODULUS, 0, s.pending - 1);
    }
  }

  // ----- what can still be lost

  /** The tasks in mid-check that loaded an acceptable loss. */
  ghost function GoodReads(config: RiskConfig, s: Desk): set<TaskId> {
    set t | t in s.reading && s.reading[t] <= config.dailyLossLimitWei
  }

  /** The fills that can still lose: about to start, pending, or not yet booked. */
  ghost function Exposed(config: RiskConfig, s: Desk): nat {
    s.pending + |s.armed| + |GoodReads(config, s)| + |s.booking|
  }

  ghost predicate Contained(e: Setup, s: Desk, loss: int) {
    loss + Exposed(e.config, s) * e.worst <= e.Bound()
  }

  lemma ExposedAfterLoad(e: Setup, s: Desk, t: TaskId)
    requires Seated(e, s) && t in e.checkers && t !in s.reading && t !in s.armed
    ensures var s' := s.(reading := s.reading[t := DailyLoss(s.dailyPnlWei)]);
            && Exposed(e.config, s') <= e.Overrun()
            && (DailyLoss(s.dailyPnlWei) > e.config.dailyLossLimitWei ==> Exposed(e.config, s') == Exposed(e.config, s))
  {
    var s' := s.(reading := s.reading[t := DailyLoss(s.dailyPnlWei)]);
    GoodReadsBounded(e, s');
    SubsetSize(s.booking.Keys, e.completers);
    assert |s.booking| == |s.booking.Keys|;
    if DailyLoss(s.dailyPnlWei) > e.config.dailyLossLimitWei {
      assert GoodReads(e.config, s') == GoodReads(e.config, s);
    }
  }

  lemma GoodReadsBounded(e: Setup, s: Desk)
    requires s.reading.Keys <= e.checkers
    ensures |GoodReads(e.config, s)| <= |e.checkers|
  {
    SubsetSize(GoodReads(e.config, s), e.checkers);
  }

  lemma ExposedAfterPending(e: Setup, s: Desk, move: Move)
    requires e.config.enabled && Seated(e, s) && move.LoadPending? && move.checker in s.reading
    ensures Exposed(e.config, Step(e.config, s, move).value) <= Exposed(e.config, s)
  {
    var s', t := Step(e.config, s, move).value, move.checker;
    assert GoodReads(e.config, s') == GoodReads(e.config, s) - {t};
    if s'.armed != s.armed {
      assert t in GoodReads(e.config, s);
    }
  }

  lemma ExposedAfterStart(e: Setup, s: Desk, t: TaskId)
    requires t in s.armed
    ensures Exposed(e.config, Step(e.config, s, StartFill(t)).value) <= Exposed(e.config, s)
  {
    assert GoodReads(e.config, Step(e.config, s, StartFill(t)).value) == GoodReads(e.config, s);
    WrapAtMost32(s.pending + 1);
  }

  lemma WrapAtMost32(x: nat)
    ensures Wrap32(x) <= x
  {
    if x < U32_MODULUS {
      DivModUnique(x, U32_MODULUS, 0, x);
    }
  }

  lemma InsertCount<V>(m: map<TaskId, V>, c: TaskId, v: V)
    requires c !in m
    ensures |m[c := v]| == |m| + 1
  {
    assert m[c := v].Keys == m.Keys + {c};
    assert |m[c := v]| == |m[c := v].Keys| && |m| == |m.Keys|;
  }

  lemma RemoveCount<V>(m: map<TaskId, V>, c: TaskId)
    requires c in m
    ensures |m - {c}| == |m| - 1
  {
    assert (m - {c}).Keys == m.Keys - {c};
    assert |m - {c}| == |(m - {c}).Keys| && |m| == |m.Keys|;
  }

  lemma ExposedAfterDrop(e: Setup, s: Desk, c: TaskId, pnlWei: i64)
    requires c !in s.booking && s.pending > 0
    ensures Exposed(e.config, Step(e.config, s, DropPending(c, pnlWei)).value) == Exposed(e.config, s)
  {
    DivModUnique(s.pending - 1, U32_MODULUS, 0, s.pending - 1);
    InsertCount(s.booking, c, pnlWei);
    assert GoodReads(e.config, Step(e.config, s, DropPending(c, pnlWei)).value) == GoodReads(e.config, s);
  }

  lemma ExposedAfterBook(e: Setup, s: Desk, c: TaskId)
    requires c in s.booking
    ensures Exposed(e.config, Step(e.config, s, BookPnl(c)).value) + 1 == Exposed(e.config, s)
  {
    RemoveCount(s.booking, c);
    assert GoodReads(e.config, Step(e.config, s, BookPnl(c)).value) == GoodReads(e.config, s);
  }

  lemma OneLess(a: nat, b: nat, c: nat)
    requires a + 1 == b
    ensures a * c + c == b * c
  {
  }

  lemma StaysContained(e: Setup, s: Desk, s': Desk, loss: int, after: int)
    requires Contained(e, s, loss) && Exposed(e.config, s') <= Exposed(e.config, s) && after <= loss
    ensures Contained(e, s', after)
  {
    ScaleUp(Exposed(e.config, s'), Exposed(e.config, s), e.worst);
  }

  lemma LimitContained(e: Setup, s: Desk, loss: int)
    requires Exposed(e.config, s) <= e.Overrun() && loss <= e.config.dailyLossLimitWei
    ensures Contained(e, s, loss)
  {
    ScaleUp(Exposed(e.config, s), e.Overrun(), e.worst);
  }

  lemma BookContained(e: Setup, s: Desk, c: TaskId, loss: int, after: int)
    requires Contained(e, s, loss) && c in s.booking && after <= loss + e.worst
    ensures Contained(e, Step(e.config, s, BookPnl(c)).value, after)
  {
    ExposedAfterBook(e, s, c);
    OneLess(Exposed(e.config, Step(e.config, s, BookPnl(c)).value), Exposed(e.config, s), e.worst);
  }

  /** One move, for a loss that is no larger than the limit when a check loads an acceptable one. */
  lemma StepContained(e: Setup, s: Desk, move: Move, loss: int, after: int)
    requires e.config.enabled && Seated(e, s) && Contained(e, s, loss)
    requires Orderly(e, s, move) && Step(e.config, s, move).Some?
    requires move.LoadLoss? && DailyLoss(s.dailyPnlWei) <= e.config.dailyLossLimitWei
             ==> loss <= e.config.dailyLossLimitWei
    requires after <= loss + if move.BookPnl? then e.worst else 0
    ensures Contained(e, Step(e.config, s, move).value, after)
  {
    var s' := Step(e.config, s, move).value;
    match move
    case LoadLoss(t) =>
      ExposedAfterLoad(e, s, t);
      if DailyLoss(s.dailyPnlWei) <= e.config.dailyLossLimitWei {
        LimitContained(e, s', after);
      } else {
        StaysContained(e, s, s', loss, after);
      }
    case LoadPending(_, _, _) =>
      ExposedAfterPending(e, s, move);
      StaysContained(e, s, s', loss, after);
    case StartFill(t) =>
      ExposedAfterStart(e, s, t);
      StaysContained(e, s, s', loss, after);
    case DropPending(c, pnlWei) =>
      ExposedAfterDrop(e, s, c, pnlWei);
      StaysContained(e, s, s', loss, after);
    case BookPnl(c) => BookContained(e, s, c, loss, after);
    case ResetDay =>
      assert GoodReads(e.config, s') == GoodReads(e.config, s);
      StaysContained(e, s, s', loss, after);
  }

  lemma MorningIsContained(e: Setup)
    requires e.checkers != {}
    ensures Seated(e, Morning) && Contained(e, Morning, 0)
  {
    assert GoodReads(e.config, Morning) == {};
    ScaleUp(0, e.Overrun(), e.worst);
  }

  /** The loss, and what started fills can still lose, within the racing bound. */
  ghost predicate Within(e: Setup, s: Desk, loss: int) {
    loss + (s.pending + |s.booking|) * e.worst <= e.Bound()
  }

  lemma ContainedIsWithin(e: Setup, s: Desk, loss: int)
    requires Contained(e, s, loss)
    ensures Within(e, s, loss)
  {
    ScaleUp(s.pending + |s.booking|, Exposed(e.config, s), e.worst);
  }

  // ----- the true loss

  /** The loss since the last reset as booked, negative for a profit. */
  function NetBooked(e: Setup, run: seq<Move>, n: nat): int
    requires n <= |run|
  {
    if n == 0 then 0
    else
      var s, before := At(e, run, n - 1), NetBooked(e, run, n - 1);
      match run[n - 1]
      case BookPnl(c) => if c in s.booking then before - s.booking[c] else before
      case ResetDay => 0
      case _ => before
  }

  lemma {:induction false} NetContained(e: Setup, run: seq<Move>, n: nat)
    requires e.config.enabled && e.checkers != {} && Exec(e, Morning, run).Some? && n <= |run|
    requires e.Bound() <= I64_MAX
    ensures var s, net := At(e, run, n), NetBooked(e, run, n);
            && Seated(e, s) && Contained(e, s, Max(net, 0)) && s.dailyPnlWei == WrapI64(net) && net <= I64_MAX
  {
    if n == 0 {
      WrapI64Is(0);
      MorningIsContained(e);
    } else {
      NetContained(e, run, n - 1);
      AtNext(e, run, n - 1);
      var s, net, net' := At(e, run, n - 1), NetBooked(e, run, n - 1), NetBooked(e, run, n);
      CounterShows(net);
      StepSeated(e, s, run[n - 1]);
      StepContained(e, s, run[n - 1], Max(net, 0), Max(net', 0));
      NetStep(e, run, n);
      AtMostBound(e, At(e, run, n), Max(net', 0));
    }
  }

  lemma AtMostBound(e: Setup, s: Desk, loss: int)
    requires Contained(e, s, loss)
    ensures loss <= e.Bound()
  {
    ScaleUp(0, Exposed(e.config, s), e.worst);
  }

  /** The counter follows the net loss modulo 2^64. */
  lemma NetStep(e: Setup, run: seq<Move>, n: nat)
    requires Exec(e, Morning, run).Some? && 0 < n <= |run|
    requires At(e, run, n - 1).dailyPnlWei == WrapI64(NetBooked(e, run, n - 1))
    ensures At(e, run, n).dailyPnlWei == WrapI64(NetBooked(e, run, n))
  {
    AtNext(e, run, n - 1);
    var s, net := At(e, run, n - 1), NetBooked(e, run, n - 1);
    WrapI64Is(0);
    match run[n - 1]
    case BookPnl(c) =>
      var pnlWei: int := s.booking[c];
      WrapI64Step(net, 0 - pnlWei);
    case _ =>
  }

  /** The true loss is within the bound, and is what the counter shows unless it is a huge profit. */
  ghost predicate TrulyWithin(e: Setup, s: Desk, net: int) {
    Within(e, s, Max(net, 0)) && (s.dailyPnlWei == net <==> net >= I64_MIN)
  }

  lemma NetIsWithin(e: Setup, s: Desk, net: int)
    requires Contained(e, s, Max(net, 0)) && s.dailyPnlWei == WrapI64(net) && net <= I64_MAX
    ensures TrulyWithin(e, s, net)
  {
    ContainedIsWithin(e, s, Max(net, 0));
    CounterShows(net);
  }

  /** With N checking and M completing tasks in any interleaving, the day's true loss plus what
      started fills can still lose stays within the limit plus maxPending + 2N + M - 1 worst fills,
      whether the counter wraps or not. The counter shows the true net loss exactly while that is
      no profit beyond 2^63. */
  lemma LossUnderRaces(e: Setup, run: seq<Move>, n: nat)
    requires e.config.enabled && e.checkers != {} && Exec(e, Morning, run).Some? && n <= |run| && e.Bound() <= I64_MAX
    ensures TrulyWithin(e, At(e, run, n), NetBooked(e, run, n))
  {
    NetContained(e, run, n);
    NetIsWithin(e, At(e, run, n), NetBooked(e, run, n));
  }

  // ----- the loss that the counter shows

  predicate Underflows(s: Desk, move: Move) {
    move.BookPnl? && move.completer in s.booking && s.dailyPnlWei - s.booking[move.completer] < I64_MIN
  }

  lemma ShownStep(e: Setup, s: Desk, move: Move)
    requires e.config.enabled && Seated(e, s) && Contained(e, s, DailyLoss(s.dailyPnlWei))
    requires Orderly(e, s, move) && Step(e.config, s, move).Some? && !Underflows(s, move)
    ensures var s' := Step(e.config, s, move).value; Contained(e, s', DailyLoss(s'.dailyPnlWei))
  {
    var s' := Step(e.config, s, move).value;
    if move.BookPnl? {
      CompletedLoss(s.dailyPnlWei, s.booking[move.completer], e.worst);
    }
    StepContained(e, s, move, DailyLoss(s.dailyPnlWei), DailyLoss(s'.dailyPnlWei));
  }

  lemma {:induction false} ShownContained(e: Setup, run: seq<Move>, n: nat)
    requires e.config.enabled && e.checkers != {} && Exec(e, Morning, run).Some? && n <= |run|
    requires forall i :: 0 <= i < n ==> !Underflows(At(e, run, i), run[i])
    ensures Seated(e, At(e, run, n)) && Contained(e, At(e, run, n), DailyLoss(At(e, run, n).dailyPnlWei))
  {
    if n == 0 {
      MorningIsContained(e);
    } else {
      ShownContained(e, run, n - 1);
      AtNext(e, run, n - 1);
      StepSeated(e, At(e, run, n - 1), run[n - 1]);
      ShownStep(e, At(e, run, n - 1), run[n - 1]);
    }
  }

  lemma {:induction false} RunSeated(e: Setup, run: seq<Move>, n: nat)
    requires e.config.enabled && e.checkers != {} && Exec(e, Morning, run).Some? && n <= |run|
    ensures Seated(e, At(e, run, n))
  {
    if n == 0 {
      MorningIsContained(e);
    } else {
      RunSeated(e, run, n - 1);
      AtNext(e, run, n - 1);
      StepSeated(e, At(e, run, n - 1), run[n - 1]);
    }
  }

  lemma WithinIsAtMost(e: Setup, s: Desk, loss: int)
    requires Within(e, s, loss)
    ensures loss <= e.Bound()
  {
    ScaleUp(0, s.pending + |s.booking|, e.worst);
  }

  lemma UnderflowShows(e: Setup, s: Desk, move: Move)
    requires Seated(e, s) && Underflows(s, move) && e.best <= I64_MAX - e.Bound()
    ensures DailyLoss(Step(e.config, s, move).value.dailyPnlWei) > e.Bound()
  {
    WrapI64Is(s.dailyPnlWei - s.booking[move.completer]);
  }

  ghost predicate AlwaysShownWithin(e: Setup, run: seq<Move>) {
    forall n: nat :: n <= |run| ==> Within(e, At(e, run, n), DailyLoss(At(e, run, n).dailyPnlWei))
  }

  ghost predicate NeverUnderflows(e: Setup, run: seq<Move>) {
    forall i :: 0 <= i < |run| ==> !Underflows(At(e, run, i), run[i])
  }

  /** The loss that the counter shows stays within the same bound throughout, in any interleaving,
      if no booking takes the counter below -2^63; and, while no fill gains more than 2^63 - 1 less
      the bound, only if none does. */
  lemma ShownLossUnderRacesIff(e: Setup, run: seq<Move>)
    requires e.config.enabled && e.checkers != {} && Exec(e, Morning, run).Some?
    ensures NeverUnderflows(e, run) ==> AlwaysShownWithin(e, run)
    ensures e.best <= I64_MAX - e.Bound() ==> (AlwaysShownWithin(e, run) <==> NeverUnderflows(e, run))
  {
    if AlwaysShownWithin(e, run) && e.best <= I64_MAX - e.Bound() {
      forall i | 0 <= i < |run| ensures !Underflows(At(e, run, i), run[i]) {
        RunSeated(e, run, i);
        AtNext(e, run, i);
        WithinIsAtMost(e, At(e, run, i + 1), DailyLoss(At(e, run, i + 1).dailyPnlWei));
        if Underflows(At(e, run, i), run[i]) {
          UnderflowShows(e, At(e, run, i), run[i]);
        }
      }
    }
    if NeverUnderflows(e, run) {
      forall n: nat | n <= |run| ensures Within(e, At(e, run, n), DailyLoss(At(e, run, n).dailyPnlWei)) {
        ShownContained(e, run, n);
        ContainedIsWithin(e, At(e, run, n), DailyLoss(At(e, run, n).dailyPnlWei));
      }
    }
  }
}
