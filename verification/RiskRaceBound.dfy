/** The racing loss bound is attained, for any number of tasks and any limits. */
module RiskRaceBound {
  import opened Machine
  import opened Results
  import opened Tasks
  import opened Risk
  import opened RiskRaces

  lemma StepReaches(e: Setup, s: Desk, move: Move, s': Desk)
    requires Step(e.config, s, move) == Some(s') && Orderly(e, s, move)
    ensures Reaches(e, s, s')
  {
    assert Exec(e, s', [move][1..]) == Some(s');
    assert Exec(e, s, [move]) == Some(s');
  }

  lemma Then(e: Setup, a: Desk, b: Desk, c: Desk)
    requires Reaches(e, a, b) && Reaches(e, b, c)
    ensures Reaches(e, a, c)
  {
    var first :| Exec(e, a, first) == Some(b);
    var second :| Exec(e, b, second) == Some(c);
    ExecConcat(e, a, first, second);
  }

  lemma Stays(e: Setup, s: Desk)
    ensures Reaches(e, s, s)
  {
    assert Exec(e, s, []) == Some(s);
  }

  /** At least one checker, one completer and one slot, a loss to make and no gain, and no counter
      overflows. */
  ghost predicate Roomy(e: Setup) {
    && e.config.enabled && e.config.maxPendingFills >= 1 && e.worst >= 1 && e.best == 0
    && 0 in e.checkers && 0 in e.completers
    && e.config.maxPendingFills + |e.checkers| - 1 <= U32_MAX && e.Bound() <= I64_MAX
  }

  ghost function AllAt<V>(tasks: set<TaskId>, value: V): (m: map<TaskId, V>)
    ensures m.Keys == tasks && forall t :: t in tasks ==> m[t] == value
  {
    if tasks == {} then map[]
    else
      var t :| t in tasks;
      AllAt(tasks - {t}, value)[t := value]
  }

  lemma PendingSteps(n: u32)
    ensures n < U32_MAX ==> Wrap32(n + 1) == n + 1
    ensures n > 0 ==> Wrap32(n - 1) == n - 1
  {
    if n < U32_MAX {
      DivModUnique(n + 1, U32_MODULUS, 0, n + 1);
    }
    if n > 0 {
      DivModUnique(n - 1, U32_MODULUS, 0, n - 1);
    }
  }

  lemma LossSteps(loss: nat, pnlWei: int)
    requires pnlWei <= 0 && loss - pnlWei <= I64_MAX
    ensures WrapI64(loss - pnlWei) == loss - pnlWei
  {
    DivModUnique(loss - pnlWei - I64_MIN, U64_MODULUS, 0, loss - pnlWei - I64_MIN);
  }

  lemma RoomFor(e: Setup, k: nat)
    requires Roomy(e) && k <= e.Overrun()
    ensures e.config.dailyLossLimitWei + k * e.worst <= e.Bound() <= I64_MAX && e.worst <= I64_MAX
  {
    SubsetSize({0}, e.checkers);
    ScaleUp(k, e.Overrun(), e.worst);
    ScaleUp(1, e.Overrun(), e.worst);
  }

  // ----- one kind of move by many tasks

  lemma {:induction false} AllLoad(e: Setup, s: Desk, more: set<TaskId>)
    requires s.armed == {} && s.reading == map[] && more <= e.checkers
    ensures Reaches(e, s, s.(reading := AllAt(more, DailyLoss(s.dailyPnlWei))))
    decreases |more|
  {
    var loss := DailyLoss(s.dailyPnlWei);
    if more == {} {
      Stays(e, s);
    } else {
      var t :| t in more && AllAt(more, loss) == AllAt(more - {t}, loss)[t := loss];
      var before := s.(reading := AllAt(more - {t}, loss));
      AllLoad(e, s, more - {t});
      StepReaches(e, before, LoadLoss(t), s.(reading := AllAt(more, loss)));
      Then(e, s, before, s.(reading := AllAt(more, loss)));
    }
  }

  lemma {:induction false} AllPass(e: Setup, s: Desk)
    requires s.reading.Keys <= e.checkers && s.pending < e.config.maxPendingFills
    requires forall t :: t in s.reading ==> s.reading[t] <= e.config.dailyLossLimitWei
    ensures Reaches(e, s, s.(reading := map[], armed := s.armed + s.reading.Keys))
    decreases |s.reading|
  {
    var end := s.(reading := map[], armed := s.armed + s.reading.Keys);
    if s.reading == map[] {
      assert s == end;
      Stays(e, s);
    } else {
      var t :| t in s.reading;
      var s' := s.(reading := s.reading - {t}, armed := s.armed + {t});
      StepReaches(e, s, LoadPending(t, 0, 0), s');
      RemoveCount(s.reading, t);
      AllPass(e, s');
      assert s'.armed + s'.reading.Keys == end.armed;
      Then(e, s, s', end);
    }
  }

  lemma {:induction false} AllStart(e: Setup, s: Desk)
    requires s.armed <= e.checkers && s.pending + |s.armed| <= U32_MAX
    ensures Reaches(e, s, s.(armed := {}, pending := s.pending + |s.armed|))
    decreases |s.armed|
  {
    var end := s.(armed := {}, pending := s.pending + |s.armed|);
    if s.armed == {} {
      Stays(e, s);
    } else {
      var t :| t in s.armed;
      PendingSteps(s.pending);
      var s' := s.(armed := s.armed - {t}, pending := s.pending + 1);
      StepReaches(e, s, StartFill(t), s');
      AllStart(e, s');
      Then(e, s, s', end);
    }
  }

  /** What `n` fills lose at worst, one at a time. */
  ghost function Lost(n: nat, worst: nat): nat {
    if n == 0 then 0 else Lost(n - 1, worst) + worst
  }

  lemma {:induction false} LostIs(n: nat, worst: nat)
    ensures Lost(n, worst) == n * worst
  {
    if n > 0 {
      LostIs(n - 1, worst);
      OneLess(n - 1, n, worst);
    }
  }

  lemma BookOne(e: Setup, s: Desk, c: TaskId, s': Desk)
    requires c in s.booking && c in e.completers && s.booking[c] == 0 - e.worst
    requires 0 <= s.dailyPnlWei && s.dailyPnlWei + e.worst <= I64_MAX
    requires s' == s.(booking := s.booking - {c}, dailyPnlWei := s.dailyPnlWei + e.worst)
    ensures Reaches(e, s, s')
  {
    LossSteps(s.dailyPnlWei, 0 - e.worst);
    StepReaches(e, s, BookPnl(c), s');
  }

  lemma {:induction false} AllBook(e: Setup, s: Desk, n: nat)
    requires s.booking.Keys <= e.completers && forall c :: c in s.booking ==> s.booking[c] == 0 - e.worst
    requires n == |s.booking| && 0 <= s.dailyPnlWei && s.dailyPnlWei + Lost(n, e.worst) <= I64_MAX
    ensures Reaches(e, s, s.(booking := map[], dailyPnlWei := s.dailyPnlWei + Lost(n, e.worst)))
    decreases n
  {
    if n == 0 {
      assert s.booking == map[];
      Stays(e, s);
    } else {
      var c :| c in s.booking;
      RemoveCount(s.booking, c);
      var s' := s.(booking := s.booking - {c}, dailyPnlWei := s.dailyPnlWei + e.worst);
      BookOne(e, s, c, s');
      AllBook(e, s', n - 1);
      Then(e, s, s', s.(booking := map[], dailyPnlWei := s.dailyPnlWei + Lost(n, e.worst)));
    }
  }

  // ----- whole fills

  /** A check and its start, by one task. */
  lemma OpenFill(e: Setup, s: Desk)
    requires Roomy(e) && s.reading == map[] && s.armed == {} && s.pending < e.config.maxPendingFills
    requires DailyLoss(s.dailyPnlWei) <= e.config.dailyLossLimitWei
    ensures Reaches(e, s, s.(pending := s.pending + 1))
  {
    var read := s.(reading := map[0 := DailyLoss(s.dailyPnlWei)]);
    var ready := s.(armed := {0});
    PendingSteps(s.pending);
    StepReaches(e, s, LoadLoss(0), read);
    assert read.reading - {0} == map[] && {} + {0} == {0} && {0} - {0} == {};
    StepReaches(e, read, LoadPending(0, 0, 0), ready);
    StepReaches(e, ready, StartFill(0), s.(pending := s.pending + 1));
    Then(e, s, read, ready);
    Then(e, s, ready, s.(pending := s.pending + 1));
  }

  /** A completion, by one task, of a fill that loses. */
  lemma CloseFill(e: Setup, s: Desk, lost: nat)
    requires Roomy(e) && s.booking == map[] && s.pending > 0 && lost <= e.worst
    requires 0 <= s.dailyPnlWei && s.dailyPnlWei + lost <= I64_MAX
    ensures Reaches(e, s, s.(pending := s.pending - 1, dailyPnlWei := s.dailyPnlWei + lost))
  {
    var pnl: i64 := 0 - lost;
    var dropped := s.(pending := s.pending - 1, booking := map[0 := pnl]);
    var booked := s.(pending := s.pending - 1, dailyPnlWei := s.dailyPnlWei + lost);
    PendingSteps(s.pending);
    LossSteps(s.dailyPnlWei, pnl);
    assert s.booking[0 := pnl] == map[0 := pnl] && map[0 := pnl] - {0} == map[];
    StepReaches(e, s, DropPending(0, pnl), dropped);
    StepReaches(e, dropped, BookPnl(0), booked);
    Then(e, s, dropped, booked);
  }

  lemma {:induction false} LoseOneByOne(e: Setup, loss: nat)
    requires Roomy(e) && loss <= e.config.dailyLossLimitWei <= I64_MAX
    ensures Reaches(e, Morning, Morning.(dailyPnlWei := loss))
  {
    if loss == 0 {
      Stays(e, Morning);
    } else {
      var before := Morning.(dailyPnlWei := loss - 1);
      LoseOneByOne(e, loss - 1);
      OpenFill(e, before);
      CloseFill(e, before.(pending := 1), 1);
      Then(e, Morning, before, before.(pending := 1));
      Then(e, Morning, before.(pending := 1), Morning.(dailyPnlWei := loss));
    }
  }

  lemma {:induction false} FillUp(e: Setup, s: Desk, more: nat)
    requires Roomy(e) && s.reading == map[] && s.armed == {} && s.pending + more <= e.config.maxPendingFills
    requires DailyLoss(s.dailyPnlWei) <= e.config.dailyLossLimitWei
    ensures Reaches(e, s, s.(pending := s.pending + more))
  {
    if more == 0 {
      Stays(e, s);
    } else {
      var before := s.(pending := s.pending + (more - 1));
      FillUp(e, s, more - 1);
      OpenFill(e, before);
      Then(e, s, before, s.(pending := s.pending + more));
    }
  }

  /** Every completer gets stuck between its two operations. */
  lemma {:induction false} AllStall(e: Setup, s: Desk, more: set<TaskId>)
    requires Roomy(e) && e.worst <= I64_MAX && s.reading == map[] && s.armed == {} && s.pending == 0
             && s.booking == map[]
    requires DailyLoss(s.dailyPnlWei) <= e.config.dailyLossLimitWei && more <= e.completers
    ensures var worst: i64 := 0 - e.worst; Reaches(e, s, s.(booking := AllAt(more, worst)))
    decreases |more|
  {
    var worst: i64 := 0 - e.worst;
    if more == {} {
      Stays(e, s);
    } else {
      var c :| c in more && AllAt(more, worst) == AllAt(more - {c}, worst)[c := worst];
      var before := s.(booking := AllAt(more - {c}, worst));
      AllStall(e, s, more - {c});
      StallOne(e, before, c);
      Then(e, s, before, s.(booking := AllAt(more, worst)));
    }
  }

  lemma StallOne(e: Setup, s: Desk, c: TaskId)
    requires Roomy(e) && e.worst <= I64_MAX && s.reading == map[] && s.armed == {} && s.pending == 0
    requires DailyLoss(s.dailyPnlWei) <= e.config.dailyLossLimitWei && c in e.completers && c !in s.booking
    ensures var worst: i64 := 0 - e.worst; Reaches(e, s, s.(booking := s.booking[c := worst]))
  {
    var worst: i64 := 0 - e.worst;
    OpenFill(e, s);
    PendingSteps(1);
    StepReaches(e, s.(pending := 1), DropPending(c, worst), s.(booking := s.booking[c := worst]));
    Then(e, s, s.(pending := 1), s.(booking := s.booking[c := worst]));
  }

  lemma {:induction false} CloseMany(e: Setup, s: Desk, k: nat)
    requires Roomy(e) && s.booking == map[] && s.pending >= k
    requires 0 <= s.dailyPnlWei && s.dailyPnlWei + Lost(k, e.worst) <= I64_MAX
    ensures Reaches(e, s, s.(pending := s.pending - k, dailyPnlWei := s.dailyPnlWei + Lost(k, e.worst)))
    decreases k
  {
    if k == 0 {
      Stays(e, s);
    } else {
      var s' := s.(pending := s.pending - 1, dailyPnlWei := s.dailyPnlWei + e.worst);
      CloseFill(e, s, e.worst);
      CloseMany(e, s', k - 1);
      Then(e, s, s', s.(pending := s.pending - k, dailyPnlWei := s.dailyPnlWei + Lost(k, e.worst)));
    }
  }

  // ----- the worst run

  /** All checkers pass with one slot left, and start: the slots are overfilled. */
  lemma Wave(e: Setup, s: Desk)
    requires Roomy(e) && s.reading.Keys == e.checkers && s.armed == {} && s.pending == e.config.maxPendingFills - 1
    requires forall t :: t in s.reading ==> s.reading[t] <= e.config.dailyLossLimitWei
    ensures Reaches(e, s, s.(reading := map[], pending := s.pending + |e.checkers|))
  {
    var armed := s.(reading := map[], armed := e.checkers);
    assert s.armed + s.reading.Keys == e.checkers;
    AllPass(e, s);
    AllStart(e, armed);
    Then(e, s, armed, s.(reading := map[], pending := s.pending + |e.checkers|));
  }

  /** From a loss at the limit: stall all completers and fill all slots but one. */
  lemma ReachFilled(e: Setup, s: Desk) returns (filled: Desk)
    requires Roomy(e) && e.worst <= I64_MAX && s == Morning.(dailyPnlWei := e.config.dailyLossLimitWei)
    ensures Reaches(e, s, filled) && filled.dailyPnlWei == e.config.dailyLossLimitWei
    ensures filled.pending == e.config.maxPendingFills - 1 && filled.armed == {} && filled.reading == map[]
    ensures filled.booking.Keys == e.completers && forall c :: c in filled.booking ==> filled.booking[c] == 0 - e.worst
  {
    var worst: i64 := 0 - e.worst;
    var stalled := s.(booking := AllAt(e.completers, worst));
    filled := stalled.(pending := e.config.maxPendingFills - 1);
    AllStall(e, s, e.completers);
    FillUp(e, stalled, e.config.maxPendingFills - 1);
    Then(e, s, stalled, filled);
  }

  /** Then let a first wave of checkers overfill the slots, and have every checker load the loss
      once more. */
  lemma ReachBrim(e: Setup, filled: Desk) returns (brim: Desk)
    requires Roomy(e) && filled.dailyPnlWei == e.config.dailyLossLimitWei
    requires filled.pending == e.config.maxPendingFills - 1 && filled.armed == {} && filled.reading == map[]
    ensures Reaches(e, filled, brim)
    ensures brim == filled.(pending := filled.pending + |e.checkers|, reading := AllAt(e.checkers, filled.dailyPnlWei))
  {
    var limit := e.config.dailyLossLimitWei;
    var read := filled.(reading := AllAt(e.checkers, limit));
    var over := filled.(pending := filled.pending + |e.checkers|);
    brim := over.(reading := AllAt(e.checkers, limit));
    AllLoad(e, filled, e.checkers);
    Wave(e, read);
    Then(e, filled, read, over);
    AllLoad(e, over, e.checkers);
    Then(e, filled, over, brim);
  }

  /** Everything exposed at the brim, and the second wave it still lets through, is lost. */
  lemma Spill(e: Setup, brim: Desk, n: nat, m: nat, booked: nat, closed: nat, rest: nat)
    requires Roomy(e) && n == |e.checkers| && m == |e.completers|
    requires booked == Lost(m, e.worst) && closed == Lost(n, e.worst)
             && rest == Lost(e.config.maxPendingFills - 1 + n, e.worst)
    requires brim.dailyPnlWei == e.config.dailyLossLimitWei && brim.dailyPnlWei + booked + closed + rest <= I64_MAX
    requires brim.pending == e.config.maxPendingFills - 1 + n && brim.armed == {}
    requires brim.reading.Keys == e.checkers
    requires forall t :: t in brim.reading ==> brim.reading[t] == e.config.dailyLossLimitWei
    requires brim.booking.Keys == e.completers && forall c :: c in brim.booking ==> brim.booking[c] == 0 - e.worst
    ensures Reaches(e, brim, Morning.(dailyPnlWei := brim.dailyPnlWei + booked + closed + rest))
  {
    var free := e.config.maxPendingFills - 1;
    assert |brim.booking| == |brim.booking.Keys|;
    var first := brim.(booking := map[], dailyPnlWei := brim.dailyPnlWei + booked);
    var second := first.(pending := free, dailyPnlWei := first.dailyPnlWei + closed);
    var third := second.(reading := map[], pending := free + n);
    AllBook(e, brim, m);
    CloseMany(e, first, n);
    Then(e, brim, first, second);
    Wave(e, second);
    Then(e, brim, second, third);
    CloseMany(e, third, free + n);
    Then(e, brim, third, Morning.(dailyPnlWei := brim.dailyPnlWei + booked + closed + rest));
  }

  lemma BoundSplits(e: Setup)
    requires Roomy(e)
    ensures var n, m, free := |e.checkers|, |e.completers|, e.config.maxPendingFills - 1;
            e.config.dailyLossLimitWei + Lost(m, e.worst) + Lost(n, e.worst) + Lost(free + n, e.worst) == e.Bound()
  {
    var n, m, free := |e.checkers|, |e.completers|, e.config.maxPendingFills - 1;
    LostIs(m, e.worst);
    LostIs(n, e.worst);
    LostIs(free + n, e.worst);
    Distribute(m, n, e.worst);
    Distribute(m + n, free + n, e.worst);
    assert m + n + (free + n) == e.Overrun();
  }

  lemma Distribute(a: nat, b: nat, c: nat)
    ensures (a + b) * c == a * c + b * c
  {
  }

  lemma {:induction false} NothingGained(e: Setup, run: seq<Move>, n: nat)
    requires Roomy(e) && Exec(e, Morning, run).Some? && n <= |run|
    ensures NetBooked(e, run, n) >= 0
  {
    if n > 0 {
      NothingGained(e, run, n - 1);
      RunSeated(e, run, n - 1);
    }
  }

  lemma FilledLosesBound(e: Setup, filled: Desk)
    requires Roomy(e) && e.worst <= I64_MAX && filled.dailyPnlWei == e.config.dailyLossLimitWei
    requires filled.pending == e.config.maxPendingFills - 1 && filled.armed == {} && filled.reading == map[]
    requires filled.booking.Keys == e.completers
    requires forall c :: c in filled.booking ==> filled.booking[c] == 0 - e.worst
    requires 0 <= e.Bound()
    ensures Reaches(e, filled, Morning.(dailyPnlWei := e.Bound()))
  {
    var n, m := |e.checkers|, |e.completers|;
    var brim := ReachBrim(e, filled);
    BoundSplits(e);
    Spill(e, brim, n, m, Lost(m, e.worst), Lost(n, e.worst), Lost(e.config.maxPendingFills - 1 + n, e.worst));
    Then(e, filled, brim, Morning.(dailyPnlWei := e.Bound()));
  }

  lemma BoundReached(e: Setup)
    requires Roomy(e)
    ensures 0 <= e.Bound() && Reaches(e, Morning, Morning.(dailyPnlWei := e.Bound()))
  {
    RoomFor(e, 0);
    var atLimit := Morning.(dailyPnlWei := e.config.dailyLossLimitWei);
    LoseOneByOne(e, e.config.dailyLossLimitWei);
    var filled := ReachFilled(e, atLimit);
    Then(e, Morning, atLimit, filled);
    FilledLosesBound(e, filled);
    Then(e, Morning, filled, Morning.(dailyPnlWei := e.Bound()));
  }

  /** Whatever the number of tasks, the limit, the slots and the worst loss (as long as the
      counters do not overflow), some run of the day truly loses exactly the bound. */
  lemma RaceBoundIsReached(e: Setup)
    requires Roomy(e)
    ensures 0 <= e.Bound()
    ensures exists run ::
              Exec(e, Morning, run) == Some(Morning.(dailyPnlWei := e.Bound())) && NetBooked(e, run, |run|) == e.Bound()
  {
    BoundReached(e);
    var run :| Exec(e, Morning, run) == Some(Morning.(dailyPnlWei := e.Bound()));
    var net := NetBooked(e, run, |run|);
    assert run[..|run|] == run;
    NetContained(e, run, |run|);
    NothingGained(e, run, |run|);
    CounterShows(net);
    assert WrapI64(net) == net;
  }
}
