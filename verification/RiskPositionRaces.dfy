/** The position limit when checks overlap: a caller reads the position, the check loads the loss and
    the pending count, and the fill is recorded as started later still. */
module RiskPositionRaces {
  import opened Machine
  import opened Results
  import opened Tasks
  import opened Sums
  import opened Risk
  import opened RiskRaces
  import opened RiskPositions

  /** What a caller checks, with the position that it has read. */
  datatype Request = Request(token: Token, value: u256, position: u256)

  datatype Floor = Floor(desk: Desk, asked: map<TaskId, Request>, started: seq<Trade>)

  datatype FloorMove =
    | ReadPosition(checker: TaskId, token: Token, value: u256)
    | ReadLoss(checker: TaskId)
    | ReadPending(checker: TaskId)
    | Begin(checker: TaskId)
    | Drop(completer: TaskId, pnlWei: i64)
    | Book(completer: TaskId)
    | NextDay

  const EmptyFloor := Floor(Morning, map[], [])

  /** One operation of one task; None when the task is not at it. */
  function FloorStep(config: RiskConfig, f: Floor, move: FloorMove): Option<Floor> {
    match move
    case ReadPosition(t, token, value) =>
      if t in f.asked then None
      else Some(f.(asked := f.asked[t := Request(token, value, Seen(Position(f.started, token)))]))
    case ReadLoss(t) => if t !in f.asked then None else OnDesk(f, Step(config, f.desk, LoadLoss(t)))
    case ReadPending(t) =>
      if t !in f.asked then None
      else
        var desk := Step(config, f.desk, LoadPending(t, f.asked[t].value, f.asked[t].position));
        if desk == None then None
        else Some(Floor(desk.value, if t in desk.value.armed then f.asked else f.asked - {t}, f.started))
    case Begin(t) =>
      var desk := Step(config, f.desk, StartFill(t));
      if desk == None || t !in f.asked then None
      else Some(Floor(desk.value, f.asked - {t}, f.started + [Trade(f.asked[t].token, f.asked[t].value)]))
    case Drop(c, pnlWei) => OnDesk(f, Step(config, f.desk, DropPending(c, pnlWei)))
    case Book(c) => OnDesk(f, Step(config, f.desk, BookPnl(c)))
    case NextDay => OnDesk(f, Step(config, f.desk, ResetDay))
  }

  function OnDesk(f: Floor, desk: Option<Desk>): Option<Floor> {
    if desk == None then None else Some(f.(desk := desk.value))
  }

  /** The move is by one of the checking tasks, or not part of a check. */
  predicate ByCheckers(move: FloorMove, checkers: set<TaskId>) {
    move.ReadPosition? ==> move.checker in checkers
  }

  ghost predicate FloorLinks(config: RiskConfig, states: seq<Floor>, run: seq<FloorMove>, i: nat)
    requires i < |run| < |states|
  {
    FloorStep(config, states[i], run[i]) == Some(states[i + 1])
  }

  ghost predicate FloorRun(config: RiskConfig, checkers: set<TaskId>, states: seq<Floor>, run: seq<FloorMove>) {
    && |states| == |run| + 1 && states[0] == EmptyFloor
    && (forall i :: 0 <= i < |run| ==> FloorLinks(config, states, run, i))
    && (forall i :: 0 <= i < |run| ==> ByCheckers(run[i], checkers))
  }

  ghost predicate FloorReaches(config: RiskConfig, checkers: set<TaskId>, f: Floor) {
    exists states, run :: FloorRun(config, checkers, states, run) && states[|run|] == f
  }

  // ----- the bound

  predicate Fits(config: RiskConfig, r: Request) {
    r.value <= config.maxSingleFillValue && r.position + r.value <= config.maxPositionPerToken
  }

  /** What a task in or past its check may still add to the token's position. */
  ghost function Claim(config: RiskConfig, f: Floor, token: Token): TaskId -> int {
    t => if t in f.asked && f.asked[t].token == token && Fits(config, f.asked[t]) then f.asked[t].value else 0
  }

  /** The most that one fill adds. */
  function LargestFill(config: RiskConfig): nat { Min(config.maxSingleFillValue, config.maxPositionPerToken) }

  ghost function PositionBound(config: RiskConfig, checkers: set<TaskId>): int {
    config.maxPositionPerToken + (|checkers| - 1) * LargestFill(config)
  }

  /** Only tasks that asked are in a check, and those past it asked for what the limits allow. */
  ghost predicate Sensible(config: RiskConfig, checkers: set<TaskId>, f: Floor) {
    && f.asked.Keys <= checkers && f.desk.armed <= f.asked.Keys && f.desk.reading.Keys <= f.asked.Keys
    && f.desk.armed !! f.desk.reading.Keys
    && (forall t :: t in f.desk.armed ==> Fits(config, f.asked[t]))
    && SmallFills(config, f.started)
  }

  ghost predicate Claimed(config: RiskConfig, checkers: set<TaskId>, f: Floor, token: Token) {
    Position(f.started, token) + SetSum(checkers, Claim(config, f, token)) <= PositionBound(config, checkers)
  }

  lemma {:induction false} SetSumAtMost<K>(s: set<K>, g: K -> int, most: nat)
    requires forall k :: k in s ==> 0 <= g(k) <= most
    ensures 0 <= SetSum(s, g) <= |s| * most
    decreases |s|
  {
    if s != {} {
      var k :| k in s;
      SetSumSplit(s, k, g);
      SetSumAtMost(s - {k}, g, most);
      OneLess(|s| - 1, |s|, most);
    }
  }

  /** If only task `t` changes what it claims, the sum changes by as much. */
  lemma ClaimChanges(config: RiskConfig, checkers: set<TaskId>, f: Floor, f': Floor, token: Token, t: TaskId)
    requires t in checkers
    requires forall u :: u in checkers && u != t ==> Claim(config, f', token)(u) == Claim(config, f, token)(u)
    ensures SetSum(checkers, Claim(config, f', token))
            == SetSum(checkers, Claim(config, f, token)) - Claim(config, f, token)(t) + Claim(config, f', token)(t)
  {
    SetSumSplit(checkers, t, Claim(config, f, token));
    SetSumSplit(checkers, t, Claim(config, f', token));
    SetSumSame(checkers - {t}, Claim(config, f, token), Claim(config, f', token));
  }

  lemma OthersClaimAtMost(config: RiskConfig, checkers: set<TaskId>, f: Floor, token: Token, t: TaskId)
    requires t in checkers
    ensures SetSum(checkers, Claim(config, f, token)) - Claim(config, f, token)(t)
            <= (|checkers| - 1) * LargestFill(config)
  {
    SetSumSplit(checkers, t, Claim(config, f, token));
    SetSumAtMost(checkers - {t}, Claim(config, f, token), LargestFill(config));
  }

  lemma ReadPositionClaimed(config: RiskConfig, checkers: set<TaskId>, f: Floor, move: FloorMove, token: Token)
    requires config.maxPositionPerToken < U256_MAX && Claimed(config, checkers, f, token)
    requires move.ReadPosition? && move.checker in checkers && move.checker !in f.asked
    ensures Claimed(config, checkers, FloorStep(config, f, move).value, token)
  {
    var t, f' := move.checker, FloorStep(config, f, move).value;
    ClaimChanges(config, checkers, f, f', token, t);
    OthersClaimAtMost(config, checkers, f, token, t);
    assert Claim(config, f, token)(t) == 0;
    if Claim(config, f', token)(t) != 0 {
      assert Position(f.started, token) + Claim(config, f', token)(t) <= config.maxPositionPerToken;
    }
  }

  lemma ReadPendingClaimed(config: RiskConfig, checkers: set<TaskId>, f: Floor, t: TaskId, token: Token)
    requires Claimed(config, checkers, f, token) && t in f.asked && t in checkers
    requires FloorStep(config, f, ReadPending(t)).Some?
    ensures Claimed(config, checkers, FloorStep(config, f, ReadPending(t)).value, token)
  {
    ClaimChanges(config, checkers, f, FloorStep(config, f, ReadPending(t)).value, token, t);
  }

  lemma BeginClaimed(config: RiskConfig, checkers: set<TaskId>, f: Floor, t: TaskId, token: Token)
    requires Claimed(config, checkers, f, token) && Sensible(config, checkers, f)
    requires FloorStep(config, f, Begin(t)).Some?
    ensures Claimed(config, checkers, FloorStep(config, f, Begin(t)).value, token)
  {
    ClaimChanges(config, checkers, f, FloorStep(config, f, Begin(t)).value, token, t);
    PositionNext(f.started, Trade(f.asked[t].token, f.asked[t].value), token);
  }

  lemma StepClaimed(config: RiskConfig, checkers: set<TaskId>, f: Floor, move: FloorMove, token: Token)
    requires config.maxPositionPerToken < U256_MAX && Claimed(config, checkers, f, token)
    requires Sensible(config, checkers, f) && ByCheckers(move, checkers) && FloorStep(config, f, move).Some?
    ensures Claimed(config, checkers, FloorStep(config, f, move).value, token)
  {
    match move
    case ReadPosition(_, _, _) => ReadPositionClaimed(config, checkers, f, move, token);
    case ReadPending(t) => ReadPendingClaimed(config, checkers, f, t, token);
    case Begin(t) => BeginClaimed(config, checkers, f, t, token);
    case _ =>
      SetSumSame(checkers, Claim(config, f, token), Claim(config, FloorStep(config, f, move).value, token));
  }

  lemma StepSensible(config: RiskConfig, checkers: set<TaskId>, f: Floor, move: FloorMove)
    requires config.enabled && config.maxPositionPerToken < U256_MAX
    requires Sensible(config, checkers, f) && ByCheckers(move, checkers) && FloorStep(config, f, move).Some?
    ensures Sensible(config, checkers, FloorStep(config, f, move).value)
  {
    if move.ReadPending? {
      var t := move.checker;
      if t in FloorStep(config, f, move).value.desk.armed && t in f.desk.reading {
        CheckPasses(config, f.desk.reading[t], f.desk.pending, f.asked[t].value, f.asked[t].position);
      }
    }
  }

  lemma CheckPasses(config: RiskConfig, loss: u64, pending: u32, value: u256, position: u256)
    requires config.enabled && config.maxPositionPerToken < U256_MAX
    requires Check(config, loss, pending, value, position) == Passed
    ensures value <= config.maxSingleFillValue && position + value <= config.maxPositionPerToken
  {
  }

  lemma {:induction false} RunClaimed(config: RiskConfig, checkers: set<TaskId>, states: seq<Floor>,
                                      run: seq<FloorMove>, token: Token, n: nat)
    requires config.enabled && checkers != {} && config.maxPositionPerToken < U256_MAX
    requires FloorRun(config, checkers, states, run) && n <= |run|
    ensures Sensible(config, checkers, states[n]) && Claimed(config, checkers, states[n], token)
  {
    if n == 0 {
      SetSumZero(checkers, Claim(config, EmptyFloor, token));
      ScaleUp(0, |checkers| - 1, LargestFill(config));
    } else {
      RunClaimed(config, checkers, states, run, token, n - 1);
      assert FloorLinks(config, states, run, n - 1) && ByCheckers(run[n - 1], checkers);
      StepSensible(config, checkers, states[n - 1], run[n - 1]);
      StepClaimed(config, checkers, states[n - 1], run[n - 1], token);
    }
  }

  /** With N tasks checking in any interleaving, every started fill is within the single-fill limit, and
      a token's position exceeds its limit by at most N - 1 fills of the largest value that fits. */
  lemma PositionUnderRaces(config: RiskConfig, checkers: set<TaskId>, f: Floor, token: Token)
    requires config.enabled && checkers != {} && config.maxPositionPerToken < U256_MAX
    requires FloorReaches(config, checkers, f)
    ensures SmallFills(config, f.started)
    ensures Position(f.started, token) <= config.maxPositionPerToken
              + (|checkers| - 1) * Min(config.maxSingleFillValue, config.maxPositionPerToken)
  {
    var states, run :| FloorRun(config, checkers, states, run) && states[|run|] == f;
    RunClaimed(config, checkers, states, run, token, |run|);
    forall t ensures 0 <= Claim(config, f, token)(t) <= LargestFill(config) {
    }
    SetSumAtMost(checkers, Claim(config, f, token), LargestFill(config));
  }

  // ----- the bound is attained

  lemma FloorStart(config: RiskConfig, checkers: set<TaskId>)
    ensures FloorReaches(config, checkers, EmptyFloor)
  {
    var run: seq<FloorMove> := [];
    assert FloorRun(config, checkers, [EmptyFloor], run) && [EmptyFloor][|run|] == EmptyFloor;
  }

  lemma FloorExtend(config: RiskConfig, checkers: set<TaskId>, f: Floor, move: FloorMove, f': Floor)
    requires FloorReaches(config, checkers, f) && FloorStep(config, f, move) == Some(f') && ByCheckers(move, checkers)
    ensures FloorReaches(config, checkers, f')
  {
    var states, run :| FloorRun(config, checkers, states, run) && states[|run|] == f;
    var states', run' := states + [f'], run + [move];
    forall i | 0 <= i < |run'| ensures FloorLinks(config, states', run', i) && ByCheckers(run'[i], checkers) {
      assert i < |run| ==> FloorLinks(config, states, run, i) && ByCheckers(run[i], checkers);
    }
    assert FloorRun(config, checkers, states', run') && states'[|run'|] == f';
  }

  /** Nothing lost, nothing pending, nobody in mid-check. */
  ghost predicate Calm(f: Floor) {
    && f.desk.dailyPnlWei == 0 && f.desk.pending == 0 && f.desk.reading == map[] && f.desk.booking == map[]
    && f.asked.Keys == f.desk.armed
  }

  /** A task reads its position and passes its check. */
  lemma ArmOne(config: RiskConfig, checkers: set<TaskId>, f: Floor, t: TaskId, value: u256) returns (f': Floor)
    requires config.enabled && config.maxPendingFills >= 1 && FloorReaches(config, checkers, f) && Calm(f)
    requires t in checkers && t !in f.asked
    requires value <= config.maxSingleFillValue && Position(f.started, 0) + value <= config.maxPositionPerToken
    ensures FloorReaches(config, checkers, f') && Calm(f')
    ensures f'.desk.armed == f.desk.armed + {t} && f'.started == f.started
    ensures f'.asked == f.asked[t := Request(0, value, Position(f.started, 0))]
  {
    var request := Request(0, value, Position(f.started, 0));
    var f1 := f.(asked := f.asked[t := request]);
    var f2 := f1.(desk := f1.desk.(reading := map[t := 0]));
    f' := f1.(desk := f1.desk.(armed := f1.desk.armed + {t}));
    FloorExtend(config, checkers, f, ReadPosition(t, 0, value), f1);
    assert map[][t := 0] == map[t := 0] && map[t := 0] - {t} == map[];
    FloorExtend(config, checkers, f1, ReadLoss(t), f2);
    FloorExtend(config, checkers, f2, ReadPending(t), f');
  }

  /** Its fill starts. */
  lemma BeginOne(config: RiskConfig, checkers: set<TaskId>, f: Floor, t: TaskId) returns (f': Floor)
    requires FloorReaches(config, checkers, f) && t in f.desk.armed && t in f.asked && f.desk.pending < U32_MAX
    ensures FloorReaches(config, checkers, f')
    ensures f' == Floor(f.desk.(armed := f.desk.armed - {t}, pending := f.desk.pending + 1), f.asked - {t},
                        f.started + [Trade(f.asked[t].token, f.asked[t].value)])
  {
    DivModUnique(f.desk.pending + 1, U32_MODULUS, 0, f.desk.pending + 1);
    f' := FloorStep(config, f, Begin(t)).value;
    FloorExtend(config, checkers, f, Begin(t), f');
  }

  /** A fill completes, with neither loss nor gain. */
  lemma CompleteOne(config: RiskConfig, checkers: set<TaskId>, f: Floor) returns (f': Floor)
    requires FloorReaches(config, checkers, f)
    requires f.desk.pending == 1 && f.desk.booking == map[] && f.desk.dailyPnlWei == 0
    ensures FloorReaches(config, checkers, f') && f' == f.(desk := f.desk.(pending := 0))
  {
    DivModUnique(0, U32_MODULUS, 0, 0);
    WrapI64Is(0);
    var f1 := f.(desk := f.desk.(pending := 0, booking := map[0 := 0]));
    f' := f.(desk := f.desk.(pending := 0));
    assert f.desk.booking[0 := 0] == map[0 := 0] && map[0 := 0] - {0} == map[];
    FloorExtend(config, checkers, f, Drop(0, 0), f1);
    FloorExtend(config, checkers, f1, Book(0), f');
  }

  /** Tasks 1 up to `k` have passed their checks with the largest fill, on an empty position. */
  ghost predicate Poised(config: RiskConfig, f: Floor, k: nat) {
    && Calm(f) && f.desk.armed == Ids(k + 1) - {0}
    && forall t :: t in f.asked ==> f.asked[t] == Request(0, LargestFill(config), 0)
  }

  lemma {:induction false} ArmAll(config: RiskConfig, n: nat, k: nat) returns (f: Floor)
    requires config.enabled && config.maxPendingFills >= 1 && k < n
    ensures FloorReaches(config, Ids(n), f) && Poised(config, f, k) && f.started == []
  {
    if k == 0 {
      f := EmptyFloor;
      FloorStart(config, Ids(n));
      assert Ids(1) - {0} == {};
    } else {
      var before := ArmAll(config, n, k - 1);
      IdsNext(k, n);
      IdsNext(k, k + 1);
      f := ArmOne(config, Ids(n), before, k, LargestFill(config));
      assert Ids(k + 1) - {0} == (Ids(k) - {0}) + {k};
    }
  }

  /** Task 0 fills the position to its limit meanwhile. */
  lemma {:induction false} RaiseToLimit(config: RiskConfig, n: nat, f: Floor) returns (f': Floor)
    requires config.enabled && config.maxPendingFills >= 1 && config.maxSingleFillValue >= 1 && n >= 1
    requires FloorReaches(config, Ids(n), f) && Poised(config, f, n - 1)
    requires Position(f.started, 0) <= config.maxPositionPerToken
    ensures FloorReaches(config, Ids(n), f') && Poised(config, f', n - 1)
    ensures Position(f'.started, 0) == config.maxPositionPerToken
    decreases config.maxPositionPerToken - Position(f.started, 0)
  {
    var left := config.maxPositionPerToken - Position(f.started, 0);
    if left == 0 {
      f' := f;
    } else {
      IdsNext(0, n);
      f' := RaiseOnce(config, n, f, Min(left, config.maxSingleFillValue));
      f' := RaiseToLimit(config, n, f');
    }
  }

  lemma RaiseOnce(config: RiskConfig, n: nat, f: Floor, value: u256) returns (f': Floor)
    requires config.enabled && config.maxPendingFills >= 1 && 0 in Ids(n) && n >= 1
    requires FloorReaches(config, Ids(n), f) && Poised(config, f, n - 1)
    requires value <= config.maxSingleFillValue && Position(f.started, 0) + value <= config.maxPositionPerToken
    ensures FloorReaches(config, Ids(n), f') && Poised(config, f', n - 1)
    ensures Position(f'.started, 0) == Position(f.started, 0) + value
  {
    var armed := ArmOne(config, Ids(n), f, 0, value);
    var begun := BeginOne(config, Ids(n), armed, 0);
    f' := CompleteOne(config, Ids(n), begun);
    PositionNext(f.started, Trade(0, value), 0);
    assert f.desk.armed + {0} - {0} == f.desk.armed;
    assert (f.asked[0 := Request(0, value, Position(f.started, 0))] - {0}).Keys == f.asked.Keys;
  }

  /** Then all of them start. */
  lemma {:induction false} BeginAll(config: RiskConfig, checkers: set<TaskId>, f: Floor, k: nat) returns (f': Floor)
    requires FloorReaches(config, checkers, f) && f.asked.Keys == f.desk.armed && |f.desk.armed| == k
    requires f.desk.pending + k <= U32_MAX
    requires forall t :: t in f.asked ==> f.asked[t].token == 0 && f.asked[t].value == LargestFill(config)
    ensures FloorReaches(config, checkers, f')
    ensures Position(f'.started, 0) == Position(f.started, 0) + k * LargestFill(config)
    decreases k
  {
    if k == 0 {
      f' := f;
    } else {
      var t :| t in f.desk.armed;
      f' := BeginOne(config, checkers, f, t);
      PositionNext(f.started, Trade(0, LargestFill(config)), 0);
      OneLess(k - 1, k, LargestFill(config));
      f' := BeginAll(config, checkers, f', k - 1);
    }
  }

  /** The bound is attained, for every number of tasks and all limits that allow any fill. */
  lemma PositionBoundIsReached(config: RiskConfig, n: nat)
    requires config.enabled && config.maxPendingFills >= 1 && config.maxSingleFillValue >= 1 && 1 <= n <= U32_MAX
    ensures |Ids(n)| == n
    ensures exists f :: FloorReaches(config, Ids(n), f)
                        && Position(f.started, 0) == config.maxPositionPerToken + (n - 1) * LargestFill(config)
  {
    var armed := ArmAll(config, n, n - 1);
    var raised := RaiseToLimit(config, n, armed);
    IdsBelow(n);
    var end := BeginAll(config, Ids(n), raised, n - 1);
  }
}
