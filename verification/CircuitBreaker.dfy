/** The circuit breaker: its stored fields, and the two-phase machine over the event
    history that they implement. Each method takes the clock it reads; a failure that trips the
    circuit reads it a second time. */
module CircuitBreaker {
  import opened Machine

  datatype Config = Config(failureThreshold: u32, resetTimeoutSecs: u64, successThreshold: u32)

  datatype CircuitState = Closed | Open | HalfOpen

  datatype Fields = Fields(state: CircuitState, failures: u32, successes: u32, trippedAt: u64)

  const Initial := Fields(Closed, 0, 0, 0)

  /** `check_half_open_transition`: reading an open circuit after its timeout half-opens it. */
  function Observe(config: Config, f: Fields, now: u64): Fields {
    if f.state == Open && SatSub(now, f.trippedAt) >= config.resetTimeoutSecs
    then f.(state := HalfOpen, successes := 0) else f
  }

  function Allowed(config: Config, f: Fields, now: u64): bool {
    Observe(config, f, now).state != Open
  }

  function AfterSuccess(config: Config, f: Fields, now: u64): Fields {
    var seen := Observe(config, f, now);
    match seen.state
    case Closed => seen.(failures := 0)
    case Open => seen
    case HalfOpen =>
      var successes := Wrap32(seen.successes + 1);
      if successes >= config.successThreshold then seen.(state := Closed, failures := 0, successes := 0)
      else seen.(successes := successes)
  }

  function AfterFailure(config: Config, f: Fields, now: u64, stamp: u64): Fields {
    var seen := Observe(config, f, now);
    match seen.state
    case Closed =>
      var counted := seen.(failures := Wrap32(seen.failures + 1));
      if counted.failures >= config.failureThreshold then counted.(state := Open, trippedAt := stamp) else counted
    case HalfOpen => seen.(successes := 0, state := Open, trippedAt := stamp)
    case Open => seen.(failures := Wrap32(seen.failures + 1))
  }

  class Breaker {
    const config: Config
    var state: CircuitState
    var failures: u32
    var successes: u32
    var trippedAt: u64

    ghost function Contents(): Fields
      reads this
    {
      Fields(state, failures, successes, trippedAt)
    }

    constructor (config: Config)
      ensures this.config == config && Contents() == Initial
    {
      this.config := config;
      state, failures, successes, trippedAt := Closed, 0, 0, 0;
    }

    method State(now: u64) returns (seen: CircuitState)
      modifies this
      ensures Contents() == Observe(config, old(Contents()), now) && seen == Contents().state
    {
      if state == Open && SatSub(now, trippedAt) >= config.resetTimeoutSecs {
        state := HalfOpen;
        successes := 0;
      }
      seen := state;
    }

    method IsAllowed(now: u64) returns (allowed: bool)
      modifies this
      ensures Contents() == Observe(config, old(Contents()), now)
      ensures allowed == Allowed(config, old(Contents()), now)
    {
      var seen := State(now);
      allowed := seen == Closed || seen == HalfOpen;
    }

    method RecordSuccess(now: u64)
      modifies this
      ensures Contents() == AfterSuccess(config, old(Contents()), now)
    {
      var seen := State(now);
      match seen
      case Closed => failures := 0;
      case HalfOpen =>
        successes := Wrap32(successes + 1);
        if successes >= config.successThreshold {
          state := Closed;
          failures := 0;
          successes := 0;
        }
      case Open =>
    }

    method Trip(now: u64)
      modifies this`state, this`trippedAt
      ensures state == Open && trippedAt == now
    {
      state := Open;
      trippedAt := now;
    }

    method RecordFailure(now: u64, stamp: u64)
      modifies this
      ensures Contents() == AfterFailure(config, old(Contents()), now, stamp)
    {
      var seen := State(now);
      match seen
      case Closed =>
        failures := Wrap32(failures + 1);
        if failures >= config.failureThreshold {
          Trip(stamp);
        }
      case HalfOpen =>
        successes := 0;
        Trip(stamp);
      case Open => failures := Wrap32(failures + 1);
    }

    method Reset()
      modifies this
      ensures Contents() == Initial
    {
      state, failures, successes, trippedAt := Closed, 0, 0, 0;
    }
  }

  // ----- histories

  /** `Look` is a call of `state` or `is_allowed`. */
  datatype Event = Success(now: u64) | Failure(now: u64, stamp: u64) | Look(now: u64) | Reset(now: u64) {
    /** The last clock reading. */
    function End(): u64 { if Failure? then stamp else now }
  }

  function Apply(config: Config, f: Fields, e: Event): Fields {
    match e
    case Success(now) => AfterSuccess(config, f, now)
    case Failure(now, stamp) => AfterFailure(config, f, now, stamp)
    case Look(now) => Observe(config, f, now)
    case Reset(_) => Initial
  }

  function Run(config: Config, h: seq<Event>): Fields {
    if h == [] then Initial else Apply(config, Run(config, h[..|h| - 1]), h[|h| - 1])
  }

  /** The clock never goes back, up to `now`. */
  ghost predicate ClockTo(h: seq<Event>, now: u64) {
    h != [] ==> h[|h| - 1].now <= h[|h| - 1].End() <= now && ClockTo(h[..|h| - 1], h[|h| - 1].now)
  }

  // ----- the machine behind the fields: no stored half-open state, no stale counters; whether
  // ----- a tripped circuit is still open is read off the clock

  /** Healthy with a streak of failures, or tripped at a time with `run` successes since the
      timeout passed. */
  datatype Phase = Healthy(streak: nat) | Tripped(at: u64, run: nat)

  function Advance(config: Config, p: Phase, e: Event): Phase {
    match (p, e)
    case (_, Reset(_)) => Healthy(0)
    case (_, Look(_)) => p
    case (Healthy(_), Success(_)) => Healthy(0)
    case (Healthy(streak), Failure(_, stamp)) =>
      if streak + 1 >= config.failureThreshold then Tripped(stamp, 0) else Healthy(streak + 1)
    case (Tripped(at, run), Success(now)) =>
      if now < at + config.resetTimeoutSecs as int then p
      else if run + 1 >= config.successThreshold then Healthy(0)
      else Tripped(at, run + 1)
    case (Tripped(at, _), Failure(now, stamp)) =>
      if now < at + config.resetTimeoutSecs as int then p else Tripped(stamp, 0)
  }

  function PhaseOf(config: Config, h: seq<Event>): Phase {
    if h == [] then Healthy(0) else Advance(config, PhaseOf(config, h[..|h| - 1]), h[|h| - 1])
  }

  ghost predicate Implements(config: Config, f: Fields, p: Phase, clock: u64) {
    match p
    case Healthy(streak) =>
      f.state == Closed && f.failures == streak < Max(config.failureThreshold, 1) && f.successes == 0
    case Tripped(at, run) =>
      && f.trippedAt == at <= clock && f.successes == run
      && match f.state
         case Closed => false
         case Open => run == 0
         case HalfOpen => clock - at >= config.resetTimeoutSecs && run < Max(config.successThreshold, 1)
  }

  lemma ApplyImplements(config: Config, f: Fields, p: Phase, clock: u64, e: Event)
    requires Implements(config, f, p, clock) && clock <= e.now <= e.End()
    ensures Implements(config, Apply(config, f, e), Advance(config, p, e), e.End())
  {
    WrapSmall(f.failures);
    WrapSmall(f.successes);
  }

  lemma WrapSmall(x: u32)
    ensures x < U32_MAX ==> Wrap32(x + 1) == x + 1
  {
    if x < U32_MAX {
      DivModUnique(x + 1, U32_MODULUS, 0, x + 1);
    }
  }

  lemma {:induction false} RunImplements(config: Config, h: seq<Event>, now: u64)
    requires ClockTo(h, now)
    ensures Implements(config, Run(config, h), PhaseOf(config, h), if h == [] then 0 else h[|h| - 1].End())
  {
    if h != [] {
      var init, last := h[..|h| - 1], h[|h| - 1];
      RunImplements(config, init, last.now);
      var clock := if init == [] then 0 else init[|init| - 1].End();
      ApplyImplements(config, Run(config, init), PhaseOf(config, init), clock, last);
    }
  }

  /** Requests are refused throughout the timeout window after the latest trip, and only then. */
  lemma RefusesExactlyInWindow(config: Config, h: seq<Event>, now: u64)
    requires ClockTo(h, now)
    ensures var p := PhaseOf(config, h);
            !Allowed(config, Run(config, h), now) <==> p.Tripped? && now - p.at < config.resetTimeoutSecs
  {
    RunImplements(config, h, now);
  }

  // ----- what the phase says about the history

  /** Failures since the last success or manual reset. */
  function TrailingFailures(h: seq<Event>): nat {
    if h == [] then 0
    else
      match h[|h| - 1]
      case Failure(_, _) => TrailingFailures(h[..|h| - 1]) + 1
      case Look(_) => TrailingFailures(h[..|h| - 1])
      case _ => 0
  }

  /** A circuit that is closed has seen fewer failures in a row than the threshold, and its
      failure counter is their number. */
  lemma {:induction false} ClosedCountsTrailingFailures(config: Config, h: seq<Event>, now: u64)
    requires ClockTo(h, now) && Run(config, h).state == Closed
    ensures Run(config, h).failures == TrailingFailures(h) < Max(config.failureThreshold, 1)
  {
    RunImplements(config, h, now);
    HealthyStreak(config, h);
  }

  lemma {:induction false} HealthyStreak(config: Config, h: seq<Event>)
    ensures var p := PhaseOf(config, h); p.Healthy? ==> p.streak == TrailingFailures(h)
  {
    if h != [] {
      HealthyStreak(config, h[..|h| - 1]);
    }
  }

  /** Successes at or after `from`. */
  function SuccessesFrom(h: seq<Event>, from: int): nat {
    if h == [] then 0
    else SuccessesFrom(h[..|h| - 1], from) + if h[|h| - 1].Success? && h[|h| - 1].now >= from then 1 else 0
  }

  /** Failure `i` tripped the circuit at `at`. Since then nothing reset it, any later failure
      fell inside the window (and did not move it), and `run` successes came after the window. */
  ghost predicate TripAt(config: Config, h: seq<Event>, i: nat, at: u64, run: nat) {
    && i < |h| && h[i].Failure? && h[i].stamp == at
    && (forall j :: i < j < |h| ==> !h[j].Reset? && (h[j].Failure? ==> h[j].now - at < config.resetTimeoutSecs))
    && run == SuccessesFrom(h[i + 1..], at + config.resetTimeoutSecs as int)
  }

  lemma {:induction false} TrippedByFailure(config: Config, h: seq<Event>, now: u64)
    requires ClockTo(h, now) && PhaseOf(config, h).Tripped?
    ensures var p := PhaseOf(config, h); exists i: nat :: TripAt(config, h, i, p.at, p.run)
  {
    var n := |h| - 1;
    var init, last := h[..n], h[n];
    var p, p' := PhaseOf(config, init), PhaseOf(config, h);
    if last.Failure? && p' == Tripped(last.stamp, 0) && (p.Healthy? || last.now - p.at >= config.resetTimeoutSecs) {
      assert h[n + 1..] == [];
      assert TripAt(config, h, n, p'.at, p'.run);
    } else {
      TrippedByFailure(config, init, last.now);
      var i: nat :| TripAt(config, init, i, p.at, p.run);
      assert h[i + 1..][..|h[i + 1..]| - 1] == init[i + 1..];
      assert h[i] == init[i];
      forall j | i < j < |h| ensures !h[j].Reset? && (h[j].Failure? ==> h[j].now - p.at < config.resetTimeoutSecs) {
        assert j < n ==> h[j] == init[j];
      }
      assert TripAt(config, h, i, p'.at, p'.run);
    }
  }

  /** A tripped circuit becomes healthy only by a manual reset, or by the last of
      `successThreshold` successes, all after the window, that no failure interrupts. */
  lemma ClosesOnlyAfterSuccesses(config: Config, h: seq<Event>, e: Event)
    requires ClockTo(h, e.now) && PhaseOf(config, h).Tripped? && PhaseOf(config, h + [e]).Healthy?
    ensures var p := PhaseOf(config, h);
            e.Reset? || (e.Success? &&
              (exists i: nat :: TripAt(config, h, i, p.at, p.run)
                && SuccessesFrom(h[i + 1..] + [e], p.at + config.resetTimeoutSecs as int) >= config.successThreshold))
  {
    assert (h + [e])[..|h|] == h;
    var p := PhaseOf(config, h);
    if !e.Reset? {
      TrippedByFailure(config, h, e.now);
      var i: nat :| TripAt(config, h, i, p.at, p.run);
      var tail := h[i + 1..];
      assert (tail + [e])[..|tail|] == tail;
    }
  }

  /** A closed circuit trips exactly on the failure that completes a run of `failureThreshold`. */
  lemma TripsExactlyAtThreshold(config: Config, h: seq<Event>, e: Event)
    requires PhaseOf(config, h).Healthy? && config.failureThreshold >= 1
    ensures PhaseOf(config, h + [e]).Tripped? <==> e.Failure? && TrailingFailures(h + [e]) >= config.failureThreshold
  {
    assert (h + [e])[..|h|] == h;
    HealthyStreak(config, h);
  }

  // ----- looking changes nothing

  function EraseLooks(h: seq<Event>): seq<Event> {
    if h == [] then []
    else EraseLooks(h[..|h| - 1]) + if h[|h| - 1].Look? then [] else [h[|h| - 1]]
  }

  lemma {:induction false} ErasedPhase(config: Config, h: seq<Event>, now: u64)
    requires ClockTo(h, now)
    ensures PhaseOf(config, EraseLooks(h)) == PhaseOf(config, h) && ClockTo(EraseLooks(h), now)
  {
    if h != [] {
      var init, last := h[..|h| - 1], h[|h| - 1];
      ErasedPhase(config, init, last.now);
      var erased := EraseLooks(init);
      if last.Look? {
        LaterClock(erased, last.now, now);
        assert EraseLooks(h) == erased + [] == erased;
      } else {
        var kept := erased + [last];
        assert EraseLooks(h) == kept && kept[..|kept| - 1] == erased;
      }
    }
  }

  lemma LaterClock(h: seq<Event>, now: u64, later: u64)
    requires ClockTo(h, now) && now <= later
    ensures ClockTo(h, later)
  {
  }

  /** What `state` answers, read off the phase. */
  lemma StateIs(config: Config, h: seq<Event>, now: u64)
    requires ClockTo(h, now)
    ensures var p := PhaseOf(config, h);
            Observe(config, Run(config, h), now).state ==
              if p.Healthy? then Closed else if now - p.at < config.resetTimeoutSecs then Open else HalfOpen
  {
    RunImplements(config, h, now);
  }

  /** `state` and `is_allowed` store a transition, yet however often they are called, every
      later `state` and `is_allowed` gets the answer it would have got without them. */
  lemma LookingChangesNothing(config: Config, h: seq<Event>, now: u64)
    requires ClockTo(h, now)
    ensures var f, f' := Run(config, h), Run(config, EraseLooks(h));
            Observe(config, f, now).state == Observe(config, f', now).state
            && Allowed(config, f, now) == Allowed(config, f', now)
  {
    ErasedPhase(config, h, now);
    StateIs(config, h, now);
    StateIs(config, EraseLooks(h), now);
  }

  lemma AdvanceCloses(config: Config, h: seq<Event>, e: Event)
    requires PhaseOf(config, h).Tripped?
    ensures var p := PhaseOf(config, h);
            PhaseOf(config, h + [e]).Healthy? <==>
              e.Reset?
              || (e.Success? && e.now - p.at >= config.resetTimeoutSecs && p.run + 1 >= config.successThreshold)
  {
    assert (h + [e])[..|h|] == h;
  }

  lemma SuccessesNext(h: seq<Event>, e: Event, from: int)
    ensures SuccessesFrom(h + [e], from) == SuccessesFrom(h, from) + if e.Success? && e.now >= from then 1 else 0
  {
    assert (h + [e])[..|h|] == h;
  }

  /** The event is a manual reset, or a success after the window of a trip by failure `i` that brings the
      successes since then to the threshold. */
  predicate Closes(config: Config, h: seq<Event>, e: Event, i: nat, at: u64)
    requires i < |h|
  {
    e.Reset?
    || (e.Success? && e.now - at >= config.resetTimeoutSecs
        && SuccessesFrom(h[i + 1..] + [e], at + config.resetTimeoutSecs as int) >= config.successThreshold)
  }

  lemma ClosesIff(config: Config, h: seq<Event>, e: Event, i: nat)
    requires PhaseOf(config, h).Tripped? && TripAt(config, h, i, PhaseOf(config, h).at, PhaseOf(config, h).run)
    ensures PhaseOf(config, h + [e]).Healthy? <==> Closes(config, h, e, i, PhaseOf(config, h).at)
  {
    AdvanceCloses(config, h, e);
    SuccessesNext(h[i + 1..], e, PhaseOf(config, h).at + config.resetTimeoutSecs as int);
  }

  /** A tripped circuit becomes healthy exactly by a manual reset, or by a success after the window that
      brings the successes since then to the threshold. */
  lemma ClosesExactlyAfterSuccesses(config: Config, h: seq<Event>, e: Event)
    requires ClockTo(h, e.now) && PhaseOf(config, h).Tripped?
    ensures var p := PhaseOf(config, h);
            exists i: nat :: TripAt(config, h, i, p.at, p.run)
              && (PhaseOf(config, h + [e]).Healthy? <==> Closes(config, h, e, i, p.at))
  {
    var p := PhaseOf(config, h);
    TrippedByFailure(config, h, e.now);
    var i: nat :| TripAt(config, h, i, p.at, p.run);
    ClosesIff(config, h, e, i);
  }
}
