/** What the arbitrage strategy answers, in terms of the one question that it asks the market. */
module ArbOutcome {
  import opened Machine
  import opened Results
  import opened Time
  import opened Order
  import opened Arb

  /** The market's answer for the amount that the first output requires now. */
  function Answer(quoter: Quoter, order: DutchAuctionOrder, now: Instant): Result<u256, StrategyError>
    requires order.outputs != []
  {
    quoter(order.input.token, order.outputs[0].token, AmountAt(order, order.outputs[0], now), order.chainId)
  }

  /** The gas limit at the base fee and the priority fee together. */
  function GasAt(config: Config, context: Context): nat {
    MulMonotone(config.defaultGasLimit, Min(context.baseFee + context.priorityFee, U128_MAX));
    config.defaultGasLimit * Min(context.baseFee + context.priorityFee, U128_MAX)
  }

  lemma GasAtIs(config: Config, context: Context)
    ensures GasAt(config, context) == GasCost(config, context)
  {
    GasCostFits(config, context);
  }

  /** What is left of the input after the market cost and the gas, if anything. */
  function Profit(amount: nat, cost: nat, gas: nat): nat { Max(amount - cost - gas, 0) }

  /** The limits of the configuration, spelled out. */
  predicate MeetsLimits(config: Config, amount: nat, cost: nat, gas: nat) {
    && cost < amount && gas <= config.maxGasCostWei
    && Profit(amount, cost, gas) >= config.minProfitWei
    && Profit(amount, cost, gas) * 10_000 >= config.minProfitBps * amount
  }

  /** 95 without gas, and otherwise by the multiple of the gas that the profit reaches. */
  ghost predicate IsTier(confidence: nat, profit: nat, gas: nat) {
    if gas == 0 then confidence == 95
    else
      && confidence in {40, 50, 60, 75, 90, 95}
      && (confidence >= 95 <==> profit >= 20 * gas)
      && (confidence >= 90 <==> profit >= 10 * gas)
      && (confidence >= 75 <==> profit >= 5 * gas)
      && (confidence >= 60 <==> profit >= 2 * gas)
      && (confidence >= 50 <==> profit >= gas)
  }

  lemma TierIs(profit: u256, gas: u256)
    ensures IsTier(ComputeConfidence(profit, gas), profit, gas)
  {
    if gas > 0 {
      ConfidenceTiers(profit, gas);
    }
  }

  lemma MeetsLimitsIs(config: Config, order: DutchAuctionOrder, context: Context, cost: u256)
    ensures MeetsLimits(config, order.input.amount, cost, GasCost(config, context))
            <==> Worthwhile(config, order, context, cost)
    ensures Decide(config, order, context, cost).Some? ==>
              MeetsLimits(config, order.input.amount, cost, GasCost(config, context))
  {
    if Decide(config, order, context, cost).Some? {
      TakenIsWorthwhile(config, order, context, cost);
    }
  }

  /** An expired order, or one without outputs, is skipped. */
  lemma SkipsExpired(config: Config, quoter: Quoter, order: DutchAuctionOrder, context: Context, now: Instant)
    requires now > order.deadline || order.outputs == []
    ensures Evaluate(config, quoter, order, context, now) == Ok(None)
  {
  }

  /** Otherwise the market is asked for the amount that is required now, and its error is passed on.
      With its cost, the order is filled exactly when the limits are met, as long as the basis-point
      check is exact, and only if they are in any case. */
  lemma FillsExactlyIf(config: Config, quoter: Quoter, order: DutchAuctionOrder, context: Context, now: Instant)
    requires now <= order.deadline && order.outputs != []
    ensures var answer, result := Answer(quoter, order, now), Evaluate(config, quoter, order, context, now);
            && (answer.Err? ==> result == Err(answer.error))
            && (answer.Ok? ==> result.Ok?)
            && (answer.Ok? && result.value.Some? ==>
                  MeetsLimits(config, order.input.amount, answer.value, GasAt(config, context)))
            && (answer.Ok? && BpsExact(config, order, context) ==>
                  (result.value.Some? <==>
                     MeetsLimits(config, order.input.amount, answer.value, GasAt(config, context))))
  {
    var answer := Answer(quoter, order, now);
    GasAtIs(config, context);
    if answer.Ok? {
      MeetsLimitsIs(config, order, context, answer.value);
      if Worthwhile(config, order, context, answer.value) && BpsExact(config, order, context) {
        WorthwhileIsTaken(config, order, context, answer.value);
      }
    }
  }

  /** What a fill decision says: the order, the gas, what is left of the input after cost and gas (all
      of it accounted for if the profit floor is positive), and the confidence for these. */
  lemma DecisionSays(config: Config, quoter: Quoter, order: DutchAuctionOrder, context: Context, now: Instant)
    requires now <= order.deadline && order.outputs != []
    ensures var answer, result := Answer(quoter, order, now), Evaluate(config, quoter, order, context, now);
            result.Ok? && result.value.Some? ==>
              var d, gas := result.value.value, GasAt(config, context);
              && answer.Ok? && d.orderId == order.id && d.estimatedGasCost == gas
              && d.estimatedProfit == Profit(order.input.amount, answer.value, gas)
              && (config.minProfitWei >= 1 ==> d.estimatedProfit + gas + answer.value == order.input.amount)
              && IsTier(d.confidence, d.estimatedProfit, gas)
  {
    var answer := Answer(quoter, order, now);
    GasAtIs(config, context);
    if answer.Ok? && Decide(config, order, context, answer.value).Some? {
      DecideIs(config, order, context, answer.value);
      var d := Decide(config, order, context, answer.value).value;
      TierIs(d.estimatedProfit, d.estimatedGasCost);
    }
  }

  /** Nothing else is asked: quoters that agree on that one question lead to the same result. */
  lemma OneQuestionDecides(config: Config, a: Quoter, b: Quoter, order: DutchAuctionOrder, context: Context,
                           now: Instant)
    requires order.outputs != [] && now <= order.deadline ==> Answer(a, order, now) == Answer(b, order, now)
    ensures Evaluate(config, a, order, context, now) == Evaluate(config, b, order, context, now)
  {
  }
}
