/** Retry decisions, backoff delays, and the global budget of concurrent retries. */
module Retry {
  import opened Machine
  import opened Results
  import opened Tasks

  datatype RetryConfig = RetryConfig(
    maxRetries: u32,
    initialDelayMs: u64,
    maxDelayMs: u64,
    backoffMultiplier: real,
    globalRetryBudget: u32)

  datatype RevertReason =
    | OutOfGas | NonceTooLow | NonceTooHigh | InsufficientFunds | AlreadyFilled
    | OrderExpired | SlippageExceeded | ExecutionReverted | Unknown
  {
    predicate IsRetryable() {
      !InsufficientFunds? && !AlreadyFilled? && !OrderExpired?
    }
  }

  datatype Decision = Retry | Abandon

  datatype Evaluation = Evaluation(decision: Decision, delayMs: u64, attempt: u32, maxAttempts: u32,
                                   reason: RevertReason)

  function Power(base: real, exponent: nat): real {
    if exponent == 0 then 1.0 else base * Power(base, exponent - 1)
  }

  /** A float-to-u64 cast: truncated and clamped to the type's range. */
  function CastU64(x: real): u64 {
    if x <= 0.0 then 0 else if x >= U64_MAX as real then U64_MAX else x.Floor
  }

  /** The initial delay scaled by `factor` and capped. */
  function Scaled(config: RetryConfig, factor: real): u64 {
    Min(CastU64(config.initialDelayMs as real * factor), config.maxDelayMs)
  }

  /** The attempt as the signed exponent it is cast to. */
  function Exponent(attempt: u32): int {
    if attempt < 0x8000_0000 then attempt else attempt - U32_MODULUS
  }

  /** A negative power of zero is infinite, and infinity times zero is cast to 0. */
  function ComputeDelay(config: RetryConfig, attempt: u32): u64 {
    var e := Exponent(attempt);
    if e >= 0 then Scaled(config, Power(config.backoffMultiplier, e))
    else
      var divisor := Power(config.backoffMultiplier, 0 - e);
      if divisor == 0.0 then (if config.initialDelayMs == 0 then 0 else config.maxDelayMs)
      else Scaled(config, 1.0 / divisor)
  }

  function EvaluateRetry(config: RetryConfig, active: u32, reason: RevertReason, attempt: u32): Evaluation {
    var abandon := Evaluation(Abandon, 0, attempt, config.maxRetries, reason);
    if !reason.IsRetryable() then abandon
    else if attempt >= config.maxRetries then abandon
    else if active >= config.globalRetryBudget then abandon
    else abandon.(decision := Retry, delayMs := ComputeDelay(config, attempt))
  }

  lemma {:induction false} PowerGrows(base: real, a: nat, b: nat)
    requires base >= 1.0 && a <= b
    ensures 1.0 <= Power(base, a) <= Power(base, b)
  {
    if b > 0 {
      PowerGrows(base, if a == 0 then 0 else a - 1, b - 1);
      if a > 0 {
        ScaleMonotone(base, Power(base, a - 1), Power(base, b - 1));
      }
      ScaleMonotone(Power(base, b - 1), 1.0, base);
      ScaleMonotone(base, 1.0, Power(base, if a == 0 then 0 else a - 1));
    }
  }

  lemma ScaleMonotone(c: real, x: real, y: real)
    requires c >= 0.0 && x <= y
    ensures c * x <= c * y
  {
    assert c * (y - x) >= 0.0;
  }

  lemma CastMonotone(x: real, y: real)
    requires x <= y
    ensures CastU64(x) <= CastU64(y)
  {
  }

  lemma ScaledMonotone(config: RetryConfig, x: real, y: real)
    requires x <= y
    ensures Scaled(config, x) <= Scaled(config, y)
  {
    var initial := config.initialDelayMs as real;
    ScaleMonotone(initial, x, y);
    CastMonotone(initial * x, initial * y);
  }

  lemma ReciprocalAtMostOne(x: real)
    requires x >= 1.0
    ensures 0.0 < 1.0 / x <= 1.0
  {
    assert 1.0 / x * x == 1.0;
    if 1.0 / x > 1.0 {
      ScaleMonotone(1.0 / x, 1.0, x);
    }
  }

  /** With a multiplier of at least 1 the delay starts at the configured one, is capped, and backing
      off never shortens it for the first 2^31 attempts. From then on the exponent is negative, and it
      is never longer than at the start. */
  lemma DelayBacksOff(config: RetryConfig, a: u32, b: u32)
    requires config.backoffMultiplier >= 1.0 && a <= b
    ensures ComputeDelay(config, 0) == Min(config.initialDelayMs, config.maxDelayMs)
    ensures ComputeDelay(config, a) <= config.maxDelayMs && ComputeDelay(config, b) <= config.maxDelayMs
    ensures b < 0x8000_0000 ==> ComputeDelay(config, a) <= ComputeDelay(config, b)
    ensures b >= 0x8000_0000 ==> ComputeDelay(config, b) <= ComputeDelay(config, 0)
  {
    DelayStart(config);
    if b < 0x8000_0000 {
      PowerGrows(config.backoffMultiplier, a, b);
      ScaledMonotone(config, Power(config.backoffMultiplier, a), Power(config.backoffMultiplier, b));
    } else {
      var exponent := 0 - Exponent(b);
      PowerGrows(config.backoffMultiplier, 0, exponent);
      var divisor := Power(config.backoffMultiplier, exponent);
      ReciprocalAtMostOne(divisor);
      ScaledMonotone(config, 1.0 / divisor, 1.0);
      assert Power(config.backoffMultiplier, 0) == 1.0;
    }
  }

  function Real(n: int): real { n as real }

  lemma CastIsFloor(x: real)
    requires x >= 0.0 && CastU64(x) < U64_MAX
    ensures Real(CastU64(x)) <= x < Real(CastU64(x) + 1)
  {
  }

  /** Below the cap the delay is the scaled initial delay, truncated. */
  lemma ScaledIsFloor(config: RetryConfig, factor: real)
    requires factor >= 0.0 && Scaled(config, factor) < config.maxDelayMs
    ensures var x := config.initialDelayMs as real * factor;
            Real(Scaled(config, factor)) <= x < Real(Scaled(config, factor) + 1)
  {
    ScaleMonotone(config.initialDelayMs as real, 0.0, factor);
    CastIsFloor(config.initialDelayMs as real * factor);
  }

  /** One whole number is the multiple of another, up to the truncation of both. */
  ghost predicate IsMultiple(m: real, before: int, after: int) {
    m * Real(before) < Real(after + 1) && Real(after) < m * Real(before + 1)
  }

  lemma ScaleBetween(m: real, low: real, x: real, high: real, least: real, most: real)
    requires m >= 1.0 && low <= x < high && least <= m * x < most
    ensures m * low < most && least < m * high
  {
    ScaleMonotone(m, low, x);
    ScaleStrictly(m, x, high);
  }

  lemma BetweenMultiples(m: real, x: real, before: int, after: int)
    requires m >= 1.0 && Real(before) <= x < Real(before + 1)
    requires Real(after) <= m * x < Real(after + 1)
    ensures IsMultiple(m, before, after)
  {
    ScaleBetween(m, Real(before), x, Real(before + 1), Real(after), Real(after + 1));
  }

  /** The exact delays before truncation. */
  lemma ExactDelays(config: RetryConfig, m: real, power: real, next: real) returns (x: real, y: real)
    requires m >= 1.0 && power >= 0.0 && next == m * power
    ensures x == config.initialDelayMs as real * power && y == config.initialDelayMs as real * next && y == m * x
  {
    x, y := config.initialDelayMs as real * power, config.initialDelayMs as real * next;
    Reorder(config.initialDelayMs as real, m, power);
  }

  lemma ScaledFloors(config: RetryConfig, m: real, power: real, next: real) returns (x: real, y: real)
    requires m >= 1.0 && 0.0 <= power <= next == m * power && Scaled(config, next) < config.maxDelayMs
    ensures y == m * x
    ensures Real(Scaled(config, power)) <= x < Real(Scaled(config, power) + 1)
    ensures Real(Scaled(config, next)) <= y < Real(Scaled(config, next) + 1)
  {
    x, y := ExactDelays(config, m, power, next);
    ScaledMonotone(config, power, next);
    ScaledIsFloor(config, power);
    ScaledIsFloor(config, next);
  }

  lemma ScaledMultiplies(config: RetryConfig, m: real, power: real, next: real, before: u64, after: u64)
    requires m >= 1.0 && 0.0 <= power <= next == m * power
    requires before == Scaled(config, power) && after == Scaled(config, next) < config.maxDelayMs
    ensures IsMultiple(m, before, after)
  {
    var x, y := ScaledFloors(config, m, power, next);
    BetweenMultiples(m, x, before, after);
  }

  lemma DelayIsScaled(config: RetryConfig, attempt: u32)
    requires attempt < 0x8000_0000
    ensures ComputeDelay(config, attempt) == Scaled(config, Power(config.backoffMultiplier, attempt))
  {
  }

  lemma NextPower(m: real, attempt: nat, next: nat)
    requires m >= 1.0 && next == attempt + 1
    ensures Power(m, next) == m * Power(m, attempt) >= Power(m, attempt) >= 0.0
  {
    PowerGrows(m, attempt, next);
  }

  /** Below the cap, and for the first 2^31 attempts, each delay is the multiplier times the one before,
      up to the truncation of both to whole milliseconds. */
  lemma DelayMultiplies(config: RetryConfig, attempt: u32, next: u32)
    requires config.backoffMultiplier >= 1.0 && next == attempt + 1 < 0x8000_0000
    requires ComputeDelay(config, next) < config.maxDelayMs
    ensures IsMultiple(config.backoffMultiplier, ComputeDelay(config, attempt), ComputeDelay(config, next))
  {
    var m := config.backoffMultiplier;
    DelayIsScaled(config, attempt);
    DelayIsScaled(config, next);
    NextPower(m, attempt, next);
    var before, after := ComputeDelay(config, attempt), ComputeDelay(config, next);
    ScaledMultiplies(config, m, Power(m, attempt), Power(m, next), before, after);
  }

  lemma Reorder(a: real, b: real, c: real)
    ensures a * (b * c) == b * (a * c)
  {
  }

  lemma ScaleStrictly(c: real, x: real, y: real)
    requires c > 0.0 && x < y
    ensures c * x < c * y
  {
    assert c * (y - x) > 0.0;
  }

  lemma DelayStart(config: RetryConfig)
    ensures ComputeDelay(config, 0) == Min(config.initialDelayMs, config.maxDelayMs)
  {
    var initial := config.initialDelayMs as real;
    assert Power(config.backoffMultiplier, 0) == 1.0;
    assert initial * 1.0 == initial;
  }

  // ----- an order's attempts

  /** What one attempt meets: why the last one failed, and how many retries are running. */
  datatype Round = Round(reason: RevertReason, active: u32)

  /** The delays of the retries made from `attempt` on, until the first abandonment. */
  function Delays(config: RetryConfig, rounds: seq<Round>, attempt: u32): seq<u64>
    decreases |rounds|
  {
    if rounds == [] then []
    else
      var e := EvaluateRetry(config, rounds[0].active, rounds[0].reason, attempt);
      if e.decision.Abandon? then []
      else [e.delayMs] + Delays(config, rounds[1..], attempt + 1)
  }

  /** The failures after which another attempt cannot succeed. */
  predicate Permanent(reason: RevertReason) {
    reason in {InsufficientFunds, AlreadyFilled, OrderExpired}
  }

  ghost predicate Granted(config: RetryConfig, round: Round, attempt: nat) {
    !Permanent(round.reason) && attempt < config.maxRetries && round.active < config.globalRetryBudget
  }

  /** One evaluation: a retry exactly if granted, with the delay of this attempt, and its inputs. */
  lemma EvaluationIs(config: RetryConfig, round: Round, attempt: u32)
    ensures var e := EvaluateRetry(config, round.active, round.reason, attempt);
            && (e.decision == Retry <==> Granted(config, round, attempt))
            && e.delayMs == (if e.decision == Retry then ComputeDelay(config, attempt) else 0)
            && e.attempt == attempt && e.maxAttempts == config.maxRetries && e.reason == round.reason
  {
  }

  lemma {:induction false} RetriesAreGranted(config: RetryConfig, rounds: seq<Round>, attempt: u32)
    ensures var ds := Delays(config, rounds, attempt);
            && |ds| <= |rounds| && |ds| <= SatSub(config.maxRetries, attempt)
            && (forall i :: 0 <= i < |ds| ==> Granted(config, rounds[i], attempt + i))
            && (|ds| < |rounds| ==> !Granted(config, rounds[|ds|], attempt + |ds|))
            && (forall i :: 0 <= i < |ds| ==> ds[i] == ComputeDelay(config, attempt + i))
    decreases |rounds|
  {
    if rounds != [] {
      EvaluationIs(config, rounds[0], attempt);
      if Granted(config, rounds[0], attempt) {
        RetriesAreGranted(config, rounds[1..], attempt + 1);
      }
    }
  }

  /** Retries go on exactly as long as every round finds a passing failure, an attempt and budget
      left. So there are never more than `maxRetries`, whatever happens, and the delays back off: each
      is at most the cap and, for the first 2^31 attempts, at least the one before. */
  lemma RetriesAreBounded(config: RetryConfig, rounds: seq<Round>, attempt: u32)
    requires config.backoffMultiplier >= 1.0
    ensures var ds := Delays(config, rounds, attempt);
            && |ds| <= |rounds| && |ds| <= SatSub(config.maxRetries, attempt)
            && (forall i :: 0 <= i < |ds| ==> Granted(config, rounds[i], attempt + i))
            && (|ds| < |rounds| ==> !Granted(config, rounds[|ds|], attempt + |ds|))
            && (forall i :: 0 <= i < |ds| ==> ds[i] == ComputeDelay(config, attempt + i))
            && (forall i :: 0 <= i < |ds| ==> ds[i] <= config.maxDelayMs)
            && (forall i, j :: 0 <= i < j < |ds| && attempt + j < 0x8000_0000 ==> ds[i] <= ds[j])
  {
    var ds := Delays(config, rounds, attempt);
    RetriesAreGranted(config, rounds, attempt);
    DelaysBackOff(config, ds, attempt);
  }

  lemma DelaysBackOff(config: RetryConfig, ds: seq<u64>, attempt: u32)
    requires config.backoffMultiplier >= 1.0 && attempt + |ds| <= U32_MAX
    requires forall i :: 0 <= i < |ds| ==> ds[i] == ComputeDelay(config, attempt + i)
    ensures forall i :: 0 <= i < |ds| ==> ds[i] <= config.maxDelayMs
    ensures forall i, j :: 0 <= i < j < |ds| && attempt + j < 0x8000_0000 ==> ds[i] <= ds[j]
  {
    forall i, j | 0 <= i <= j < |ds|
      ensures ds[j] <= config.maxDelayMs && (attempt + j < 0x8000_0000 ==> ds[i] <= ds[j])
    {
      DelayBacksOff(config, attempt + i, attempt + j);
    }
  }

  class Manager {
    const config: RetryConfig
    var activeRetries: u32

    constructor (config: RetryConfig)
      ensures this.config == config && activeRetries == 0
    {
      this.config := config;
      activeRetries := 0;
    }

    method Evaluate(reason: RevertReason, attempt: u32) returns (e: Evaluation)
      ensures e == EvaluateRetry(config, activeRetries, reason, attempt)
    {
      e := Evaluation(Abandon, 0, attempt, config.maxRetries, reason);
      if !reason.IsRetryable() || attempt >= config.maxRetries {
        return;
      }
      var active := activeRetries;
      if active >= config.globalRetryBudget {
        return;
      }
      var delay := ComputeDelay(config, attempt);
      e := Evaluation(Retry, delay, attempt, config.maxRetries, reason);
    }

    /** The two atomic operations of an acquire with nothing in between. */
    method AcquireSlot() returns (ok: bool)
      modifies this`activeRetries
      ensures ok <==> old(activeRetries) < config.globalRetryBudget
      ensures activeRetries == if ok then old(activeRetries) + 1 else old(activeRetries)
    {
      var current := activeRetries;
      ok := current < config.globalRetryBudget;
      if ok {
        activeRetries := current + 1;
      }
    }

    method ReleaseSlot()
      modifies this`activeRetries
      ensures activeRetries == SatSub(old(activeRetries), 1)
    {
      activeRetries := if activeRetries > 0 then activeRetries - 1 else 0;
    }
  }

  // ----- the budget when acquires overlap: each is a load and, later, an add

  /** `armed` holds the tasks whose load saw free budget and whose add is still to come. */
  datatype Budget = Budget(active: u32, armed: set<TaskId>)

  datatype Move = Load(task: TaskId) | Add(task: TaskId) | Release

  const Free := Budget(0, {})

  function Step(budget: u32, s: Budget, move: Move): Option<Budget> {
    match move
    case Load(t) =>
      if t in s.armed then None
      else Some(if s.active >= budget then s else s.(armed := s.armed + {t}))
    case Add(t) =>
      if t !in s.armed then None
      else Some(Budget(Wrap32(s.active + 1), s.armed - {t}))
    case Release => Some(s.(active := SatSub(s.active, 1)))
  }

  function Exec(budget: u32, from: Budget, run: seq<Move>): Option<Budget>
    decreases |run|
  {
    if run == [] then Some(from)
    else
      var next := Step(budget, from, run[0]);
      if next == None then None else Exec(budget, next.value, run[1..])
  }

  ghost predicate RunBy(run: seq<Move>, tasks: set<TaskId>) {
    forall i :: 0 <= i < |run| && !run[i].Release? ==> run[i].task in tasks
  }

  ghost predicate WithinBudget(budget: u32, s: Budget, tasks: set<TaskId>) {
    s.armed <= tasks && s.active + |s.armed| <= budget + |tasks| - 1
  }

  lemma StepWithinBudget(budget: u32, s: Budget, move: Move, tasks: set<TaskId>)
    requires Step(budget, s, move).Some? && WithinBudget(budget, s, tasks)
    requires !move.Release? ==> move.task in tasks
    ensures WithinBudget(budget, Step(budget, s, move).value, tasks)
  {
    SubsetSize(Step(budget, s, move).value.armed, tasks);
  }

  lemma {:induction false} RunWithinBudget(budget: u32, from: Budget, run: seq<Move>, tasks: set<TaskId>)
    requires WithinBudget(budget, from, tasks) && RunBy(run, tasks)
    requires Exec(budget, from, run).Some?
    ensures WithinBudget(budget, Exec(budget, from, run).value, tasks)
    decreases |run|
  {
    if run != [] {
      StepWithinBudget(budget, from, run[0], tasks);
      RunWithinBudget(budget, Step(budget, from, run[0]).value, run[1..], tasks);
    }
  }

  /** With N tasks acquiring in any interleaving, at most N - 1 retries run over budget. */
  lemma BudgetUnderRaces(budget: u32, run: seq<Move>, tasks: set<TaskId>)
    requires tasks != {} && RunBy(run, tasks) && Exec(budget, Free, run).Some?
    ensures Exec(budget, Free, run).value.active <= budget + |tasks| - 1
  {
    RunWithinBudget(budget, Free, run, tasks);
  }

  // ----- the race bound is attained

  lemma {:induction false} ExecConcat(budget: u32, from: Budget, a: seq<Move>, b: seq<Move>)
    requires Exec(budget, from, a).Some?
    ensures Exec(budget, from, a + b) == Exec(budget, Exec(budget, from, a).value, b)
    decreases |a|
  {
    if a == [] {
      assert a + b == b;
    } else {
      assert (a + b)[0] == a[0] && (a + b)[1..] == a[1..] + b;
      ExecConcat(budget, Step(budget, from, a[0]).value, a[1..], b);
    }
  }

  lemma ExecCons(budget: u32, from: Budget, move: Move, next: Budget, rest: seq<Move>)
    requires Step(budget, from, move) == Some(next)
    ensures Exec(budget, from, [move] + rest) == Exec(budget, next, rest)
  {
    assert ([move] + rest)[1..] == rest;
  }

  function Loads(n: nat): seq<Move> {
    if n == 0 then [] else Loads(n - 1) + [Load(n - 1)]
  }

  function Adds(n: nat): seq<Move> {
    if n == 0 then [] else [Add(n - 1)] + Adds(n - 1)
  }

  function Acquires(n: nat): seq<Move> {
    if n == 0 then [] else Acquires(n - 1) + [Load(0), Add(0)]
  }

  lemma LoadThenAdd(budget: u32, active: u32, t: TaskId)
    requires active < budget
    ensures Exec(budget, Budget(active, {}), [Load(t), Add(t)]) == Some(Budget(active + 1, {}))
  {
    var armed := Budget(active, {} + {t});
    assert {} + {t} - {t} == {};
    ExecCons(budget, armed, Add(t), Budget(active + 1, {}), []);
    ExecCons(budget, Budget(active, {}), Load(t), armed, [Add(t)]);
    assert [Load(t)] + [Add(t)] == [Load(t), Add(t)] && [Add(t)] + [] == [Add(t)];
  }

  lemma {:induction false} AcquiresFill(budget: u32, n: nat)
    requires n <= budget
    ensures Exec(budget, Free, Acquires(n)) == Some(Budget(n, {}))
  {
    if n > 0 {
      AcquiresFill(budget, n - 1);
      ExecConcat(budget, Free, Acquires(n - 1), [Load(0), Add(0)]);
      LoadThenAdd(budget, n - 1, 0);
    }
  }

  lemma {:induction false} LoadsArm(budget: u32, active: u32, n: nat)
    requires active < budget
    ensures Exec(budget, Budget(active, {}), Loads(n)) == Some(Budget(active, Ids(n)))
  {
    if n > 0 {
      LoadsArm(budget, active, n - 1);
      ExecConcat(budget, Budget(active, {}), Loads(n - 1), [Load(n - 1)]);
      LoadArms(budget, active, n - 1);
    }
  }

  lemma LoadArms(budget: u32, active: u32, n: nat)
    requires active < budget
    ensures Exec(budget, Budget(active, Ids(n)), [Load(n)]) == Some(Budget(active, Ids(n + 1)))
  {
    IdsBelow(n);
    assert [Load(n)] + [] == [Load(n)];
    ExecCons(budget, Budget(active, Ids(n)), Load(n), Budget(active, Ids(n + 1)), []);
  }

  lemma AddFires(budget: u32, active: u32, n: nat, rest: seq<Move>)
    requires active < U32_MAX && n > 0
    ensures Exec(budget, Budget(active, Ids(n)), [Add(n - 1)] + rest)
            == Exec(budget, Budget(active + 1, Ids(n - 1)), rest)
  {
    IdsBelow(n - 1);
    assert Ids(n) - {n - 1} == Ids(n - 1);
    DivModUnique(active + 1, U32_MODULUS, 0, active + 1);
    ExecCons(budget, Budget(active, Ids(n)), Add(n - 1), Budget(active + 1, Ids(n - 1)), rest);
  }

  lemma {:induction false} AddsFire(budget: u32, active: u32, n: nat, end: u32)
    requires active + n == end
    ensures Exec(budget, Budget(active, Ids(n)), Adds(n)) == Some(Budget(end, {}))
    decreases n
  {
    if n == 0 {
      assert Ids(0) == {} && Adds(0) == [];
    } else {
      AddFires(budget, active, n, Adds(n - 1));
      AddsFire(budget, active + 1, n - 1, end);
    }
  }

  function Race(budget: u32, n: nat): seq<Move>
    requires budget >= 1
  {
    Acquires(budget - 1) + (Loads(n) + Adds(n))
  }

  lemma RaceEnds(budget: u32, n: nat)
    requires budget >= 1 && n >= 1 && budget + n - 1 <= U32_MAX
    ensures Exec(budget, Free, Race(budget, n)) == Some(Budget(budget + n - 1, {}))
  {
    AcquiresFill(budget, budget - 1);
    LoadsThenAdds(budget, n);
    ExecConcat(budget, Free, Acquires(budget - 1), Loads(n) + Adds(n));
  }

  /** N tasks that all load while one slot is free push the counter to budget + N - 1. */
  lemma RaceBoundIsReached(budget: u32, n: nat)
    requires budget >= 1 && n >= 1 && budget + n - 1 <= U32_MAX
    ensures |Ids(n)| == n
    ensures exists run :: RunBy(run, Ids(n)) && Exec(budget, Free, run) == Some(Budget(budget + n - 1, {}))
  {
    IdsBelow(n);
    RunsBy(n, budget - 1, n);
    RaceEnds(budget, n);
    assert RunBy(Race(budget, n), Ids(n));
  }

  lemma {:induction false} RunsBy(tasks: nat, acquires: nat, n: nat)
    requires 1 <= tasks && n <= tasks
    ensures RunBy(Acquires(acquires), Ids(tasks)) && RunBy(Loads(n), Ids(tasks)) && RunBy(Adds(n), Ids(tasks))
    decreases acquires, n
  {
    IdsBelow(tasks);
    if acquires > 0 {
      RunsBy(tasks, acquires - 1, n);
    } else if n > 0 {
      RunsBy(tasks, 0, n - 1);
    }
  }

  lemma LoadsThenAdds(budget: u32, n: nat)
    requires budget >= 1 && n >= 1 && budget + n - 1 <= U32_MAX
    ensures Exec(budget, Budget(budget - 1, {}), Loads(n) + Adds(n)) == Some(Budget(budget + n - 1, {}))
  {
    LoadsArm(budget, budget - 1, n);
    AddsFire(budget, budget - 1, n, budget + n - 1);
    ExecConcat(budget, Budget(budget - 1, {}), Loads(n), Adds(n));
  }

  // ----- acquires that are not interrupted

  /** An acquire that nothing interrupts takes a slot exactly when one is free; a release gives one back
      and never goes below zero. */
  lemma UninterruptedAcquire(budget: u32, s: Budget, t: TaskId)
    requires t !in s.armed
    ensures var loaded := Step(budget, s, Load(t));
            && loaded.Some? && (t in loaded.value.armed <==> s.active < budget)
            && (if t in loaded.value.armed then Step(budget, loaded.value, Add(t)) else loaded)
               == Some(s.(active := if s.active < budget then Wrap32(s.active + 1) else s.active))
    ensures Step(budget, s, Release) == Some(s.(active := if s.active > 0 then s.active - 1 else 0))
  {
    assert s.armed + {t} - {t} == s.armed;
  }

  datatype WholeCall = Acquire(task: TaskId) | Done

  function Regions(calls: seq<WholeCall>, budget: u32, active: u32): seq<Move> {
    if calls == [] then []
    else
      match calls[0]
      case Done => [Release] + Regions(calls[1..], budget, SatSub(active, 1))
      case Acquire(t) =>
        if active >= budget then [Load(t)] + Regions(calls[1..], budget, active)
        else [Load(t), Add(t)] + Regions(calls[1..], budget, active + 1)
  }

  /** When no acquire is interrupted between its load and its add, the budget itself holds. */
  lemma {:induction false} AtomicAcquiresKeepBudget(budget: u32, active: u32, calls: seq<WholeCall>)
    requires active <= budget
    ensures var end := Exec(budget, Budget(active, {}), Regions(calls, budget, active));
            end.Some? && end.value.armed == {} && end.value.active <= budget
    decreases |calls|
  {
    if calls != [] {
      var s := Budget(active, {});
      match calls[0]
      case Done =>
        AtomicAcquiresKeepBudget(budget, SatSub(active, 1), calls[1..]);
        ExecConcat(budget, s, [Release], Regions(calls[1..], budget, SatSub(active, 1)));
      case Acquire(t) =>
        if active >= budget {
          AtomicAcquiresKeepBudget(budget, active, calls[1..]);
          ExecConcat(budget, s, [Load(t)], Regions(calls[1..], budget, active));
        } else {
          AtomicAcquiresKeepBudget(budget, active + 1, calls[1..]);
          LoadThenAdd(budget, active, t);
          ExecConcat(budget, s, [Load(t), Add(t)], Regions(calls[1..], budget, active + 1));
        }
    }
  }
}
