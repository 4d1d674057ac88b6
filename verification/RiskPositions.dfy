/** The limits on what is filled: the order of the checks, the largest fill, and the position per
    token, which callers sum over the fills they start. */
module RiskPositions {
  import opened Machine
  import opened Results
  import opened Tasks
  import opened Sums
  import opened Risk
  import opened RiskRaces

  // ----- one check

  ghost predicate FillTooLargeFor(config: RiskConfig, value: nat) { value > config.maxSingleFillValue }

  /** The sum saturates, so nothing is more than the largest limit. */
  ghost predicate PositionTooLargeFor(config: RiskConfig, value: nat, position: nat) {
    position + value > config.maxPositionPerToken && config.maxPositionPerToken < U256_MAX
  }

  ghost predicate LossTooLargeFor(config: RiskConfig, dailyPnlWei: int) {
    dailyPnlWei > config.dailyLossLimitWei && dailyPnlWei > 0
  }

  ghost predicate TooManyPendingFor(config: RiskConfig, pending: nat) { pending >= config.maxPendingFills }

  /** A disabled manager passes everything. An enabled one fails a check exactly when one of the four
      limits is broken, and says the first broken one, in the documented order. */
  lemma CheckSays(config: RiskConfig, dailyPnlWei: i64, pending: u32, value: u256, position: u256)
    ensures var outcome := Check(config, DailyLoss(dailyPnlWei), pending, value, position);
            outcome ==
              if !config.enabled then Passed
              else if FillTooLargeFor(config, value) then FillTooLarge
              else if PositionTooLargeFor(config, value, position) then PositionTooLarge
              else if LossTooLargeFor(config, dailyPnlWei) then LossLimitExceeded
              else if TooManyPendingFor(config, pending) then TooManyPending
              else Passed
  {
  }

  // ----- positions

  type Token = nat

  datatype Trade = Trade(token: Token, value: u256)

  /** The values of the started fills of a token, added up. */
  function Position(started: seq<Trade>, token: Token): nat {
    if started == [] then 0
    else
      var last := started[|started| - 1];
      Position(started[..|started| - 1], token) + if last.token == token then last.value else 0
  }

  lemma PositionNext(started: seq<Trade>, trade: Trade, token: Token)
    ensures Position(started + [trade], token)
            == Position(started, token) + if trade.token == token then trade.value else 0
  {
    assert (started + [trade])[..|started|] == started;
  }

  /** What a caller passes as the current position. */
  function Seen(position: nat): u256 { Min(position, U256_MAX) }

  /** Every fill is within the single-fill limit. */
  ghost predicate SmallFills(config: RiskConfig, started: seq<Trade>) {
    forall i :: 0 <= i < |started| ==> started[i].value <= config.maxSingleFillValue
  }

  // ----- calls that do not overlap

  datatype Ledger = Ledger(counters: Counters, started: seq<Trade>)

  datatype Act = Try(token: Token, value: u256) | Finish(pnlWei: i64) | NewDay

  const Opening := Ledger(Fresh, [])

  /** A fill that passes the check with its token's position is recorded as started. */
  function Do(config: RiskConfig, l: Ledger, act: Act): Ledger {
    match act
    case Try(token, value) =>
      var position := Seen(Position(l.started, token));
      if Check(config, DailyLoss(l.counters.dailyPnlWei), l.counters.pending, value, position) == Passed
      then Ledger(Perform(config, l.counters, Fill(value, position)), l.started + [Trade(token, value)]) else l
    case Finish(pnlWei) => l.(counters := Perform(config, l.counters, Complete(pnlWei)))
    case NewDay => l.(counters := Perform(config, l.counters, Reset))
  }

  function DoAll(config: RiskConfig, acts: seq<Act>): Ledger {
    if acts == [] then Opening else Do(config, DoAll(config, acts[..|acts| - 1]), acts[|acts| - 1])
  }

  /** While risk is enabled, every started fill is within the single-fill limit and no token's position
      ever exceeds the position limit, over every run of tries, completions and resets. */
  lemma {:induction false} PositionsHold(config: RiskConfig, acts: seq<Act>, token: Token)
    requires config.enabled
    ensures var started := DoAll(config, acts).started;
            && SmallFills(config, started)
            && (config.maxPositionPerToken < U256_MAX ==> Position(started, token) <= config.maxPositionPerToken)
  {
    if acts != [] {
      var l, last := DoAll(config, acts[..|acts| - 1]), acts[|acts| - 1];
      PositionsHold(config, acts[..|acts| - 1], token);
      if last.Try? {
        PositionNext(l.started, Trade(last.token, last.value), token);
        var position := Seen(Position(l.started, last.token));
        CheckSays(config, l.counters.dailyPnlWei, l.counters.pending, last.value, position);
      }
    }
  }

  /** Fills of one unit each, one after the other. */
  lemma {:induction false} UnitFills(config: RiskConfig, k: nat) returns (acts: seq<Act>)
    requires config.enabled && config.maxPositionPerToken == U256_MAX
    requires config.maxSingleFillValue >= 1 && config.maxPendingFills >= 1
    ensures DoAll(config, acts).counters == Fresh && Position(DoAll(config, acts).started, 0) == k
  {
    if k == 0 {
      acts := [];
    } else {
      acts := UnitFills(config, k - 1);
      var l := DoAll(config, acts);
      var l' := Ledger(Counters(0, 1), l.started + [Trade(0, 1)]);
      CheckSays(config, 0, 0, 1, Seen(k - 1));
      DivModUnique(1, U32_MODULUS, 0, 1);
      DivModUnique(0, U32_MODULUS, 0, 0);
      WrapI64Is(0);
      PositionNext(l.started, Trade(0, 1), 0);
      assert (acts + [Try(0, 1)])[..|acts|] == acts;
      assert DoAll(config, acts + [Try(0, 1)]) == l';
      assert (acts + [Try(0, 1)] + [Finish(0)])[..|acts| + 1] == acts + [Try(0, 1)];
      acts := acts + [Try(0, 1)] + [Finish(0)];
    }
  }

  /** Over all runs the position limit holds exactly unless it is the largest number, which the
      saturating sum never exceeds while the true one does, or nothing can be filled. */
  lemma PositionLimitHoldsIff(config: RiskConfig)
    requires config.enabled
    ensures (forall acts, token :: Position(DoAll(config, acts).started, token) <= config.maxPositionPerToken)
            <==> config.maxPositionPerToken < U256_MAX || config.maxSingleFillValue == 0 || config.maxPendingFills == 0
  {
    if config.maxPositionPerToken < U256_MAX || config.maxSingleFillValue == 0 || config.maxPendingFills == 0 {
      forall acts, token ensures Position(DoAll(config, acts).started, token) <= config.maxPositionPerToken {
        PositionsHold(config, acts, token);
        if config.maxSingleFillValue == 0 {
          NothingFilled(DoAll(config, acts).started, token);
        } else if config.maxPendingFills == 0 {
          NothingStarted(config, acts);
        }
      }
    } else {
      var acts := UnitFills(config, U256_MAX + 1);
    }
  }

  lemma {:induction false} NothingFilled(started: seq<Trade>, token: Token)
    requires forall i :: 0 <= i < |started| ==> started[i].value <= 0
    ensures Position(started, token) == 0
  {
    if started != [] {
      NothingFilled(started[..|started| - 1], token);
    }
  }

  lemma {:induction false} NothingStarted(config: RiskConfig, acts: seq<Act>)
    requires config.enabled && config.maxPendingFills == 0
    ensures DoAll(config, acts).started == []
  {
    if acts != [] {
      NothingStarted(config, acts[..|acts| - 1]);
    }
  }
}
