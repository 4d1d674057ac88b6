/** The simple arbitrage strategy. The market quoter is a function of what it is asked for,
    and the clock reading is an argument. */
module Arb {
  import opened Machine
  import opened Results
  import opened Time
  import opened Order

  datatype Config = Config(
    minProfitWei: u256,
    minProfitBps: u64,
    maxGasCostWei: u256,
    defaultGasLimit: u64,
    priority: u32)

  datatype Context = Context(baseFee: u128, priorityFee: u128)

  datatype FillDecision = FillDecision(
    orderId: OrderId,
    strategyName: string,
    estimatedProfit: u256,
    estimatedGasCost: u256,
    confidence: nat)

  datatype StrategyError = SimulationFailed(message: string)

  /** Input token, output token, output amount and chain, to the input cost of buying it. */
  type Quoter = (Address, Address, u256, u64) -> Result<u256, StrategyError>

  function ComputeConfidence(netProfit: u256, gasCost: u256): nat {
    if gasCost == 0 then 95
    else
      var ratio := netProfit / gasCost;
      if ratio >= 20 then 95
      else if ratio >= 10 then 90
      else if ratio >= 5 then 75
      else if ratio >= 2 then 60
      else if ratio >= 1 then 50
      else 40
  }

  function GasCost(config: Config, context: Context): u256 {
    Wrap256(SatAdd(context.baseFee, context.priorityFee, U128_MAX) * config.defaultGasLimit)
  }

  function Evaluate(config: Config, quoter: Quoter, order: DutchAuctionOrder, context: Context, now: Instant)
    : Result<Option<FillDecision>, StrategyError>
  {
    if IsExpired(order, now) then Ok(None)
    else if order.outputs == [] then Ok(None)
    else
      var required := CurrentOutputAmount(order, 0, now);
      if required == None then Err(SimulationFailed("failed to compute current output amount"))
      else
        var quote := quoter(order.input.token, order.outputs[0].token, required.value, order.chainId);
        if quote.Err? then Err(quote.error)
        else Ok(Decide(config, order, context, quote.value))
  }

  /** The profit chain, from the quoted market cost on. */
  function Decide(config: Config, order: DutchAuctionOrder, context: Context, marketCost: u256): Option<FillDecision> {
    if marketCost >= order.input.amount then None
    else
      var grossProfit := order.input.amount - marketCost;
      var gasCost := GasCost(config, context);
      var netProfit := SatSub(grossProfit, gasCost);
      if gasCost > config.maxGasCostWei then None
      else if netProfit < config.minProfitWei then None
      else if order.input.amount != 0 && Wrap256(netProfit * 10_000) / order.input.amount < config.minProfitBps
      then None
      else Some(FillDecision(order.id, "simple_arb", netProfit, gasCost, ComputeConfidence(netProfit, gasCost)))
  }

  /** Buying less costs no more, and can be quoted whenever buying more can. */
  ghost predicate Monotone(quoter: Quoter) {
    forall tokenIn, tokenOut, less: u256, more: u256, chain ::
      less <= more && quoter(tokenIn, tokenOut, more, chain).Ok? ==>
        && quoter(tokenIn, tokenOut, less, chain).Ok?
        && quoter(tokenIn, tokenOut, less, chain).value <= quoter(tokenIn, tokenOut, more, chain).value
  }

  lemma ConfidenceGrows(profit: u256, more: u256, gasCost: u256)
    requires profit <= more
    ensures ComputeConfidence(profit, gasCost) <= ComputeConfidence(more, gasCost)
  {
    if gasCost > 0 {
      DivMonotone(profit, more, gasCost);
    }
  }

  /** The tiers, as multiples of the gas cost. */
  lemma ConfidenceTiers(profit: u256, gasCost: u256)
    requires gasCost > 0
    ensures var c := ComputeConfidence(profit, gasCost);
            && (c == 95 <==> profit >= 20 * gasCost)
            && (c >= 90 <==> profit >= 10 * gasCost)
            && (c >= 75 <==> profit >= 5 * gasCost)
            && (c >= 60 <==> profit >= 2 * gasCost)
            && (c >= 50 <==> profit >= gasCost)
            && c >= 40
  {
    QuotientAtLeast(profit, gasCost, 20);
    QuotientAtLeast(profit, gasCost, 10);
    QuotientAtLeast(profit, gasCost, 5);
    QuotientAtLeast(profit, gasCost, 2);
    QuotientAtLeast(profit, gasCost, 1);
  }

  // ----- the basis-point check, which wraps for huge amounts

  function NetProfit(config: Config, order: DutchAuctionOrder, context: Context, cost: u256): nat {
    SatSub(SatSub(order.input.amount, cost), GasCost(config, context))
  }

  /** Ten thousand times the profit has to reach this. */
  function BpsNeeded(config: Config, order: DutchAuctionOrder): nat {
    MulMonotone(config.minProfitBps, order.input.amount);
    config.minProfitBps * order.input.amount
  }

  /** The configured limits in exact arithmetic. */
  predicate Worthwhile(config: Config, order: DutchAuctionOrder, context: Context, cost: u256) {
    && cost < order.input.amount && GasCost(config, context) <= config.maxGasCostWei
    && NetProfit(config, order, context, cost) >= config.minProfitWei
    && NetProfit(config, order, context, cost) * 10_000 >= BpsNeeded(config, order)
  }

  function CeilDiv(x: nat, d: nat): nat
    requires d > 0
  {
    (x + d - 1) / d
  }

  /** The least profit worth taking. */
  function LeastProfit(config: Config, order: DutchAuctionOrder): nat {
    Max(config.minProfitWei, CeilDiv(BpsNeeded(config, order), 10_000))
  }

  /** From the least profit worth taking to the largest there can be, ten thousand times the profit
      wraps equally often, and at the least one what is left passes the check. */
  predicate WrapsHarmlessly(least: nat, most: nat, needed: nat) {
    least * 10_000 / U256_MODULUS == most * 10_000 / U256_MODULUS && least * 10_000 % U256_MODULUS >= needed
  }

  predicate BpsExact(config: Config, order: DutchAuctionOrder, context: Context) {
    var least, most := LeastProfit(config, order), NetProfit(config, order, context, 0);
    GasCost(config, context) > config.maxGasCostWei || config.minProfitBps == 0 || least > most
    || WrapsHarmlessly(least, most, BpsNeeded(config, order))
  }

  lemma CeilDivIs(x: nat, d: nat, p: nat)
    requires d > 0
    ensures p >= CeilDiv(x, d) <==> p * d >= x
  {
    QuotientAtLeast(x + d - 1, d, p + 1);
    OneMoreTime(p, d);
  }

  lemma OneMoreTime(p: nat, d: nat)
    ensures (p + 1) * d == p * d + d
  {
  }

  lemma HarmlessWrapPasses(least: nat, most: nat, needed: nat, p: nat)
    requires WrapsHarmlessly(least, most, needed) && least <= p <= most
    ensures p * 10_000 % U256_MODULUS >= needed
  {
    DivMonotone(least * 10_000, p * 10_000, U256_MODULUS);
    DivMonotone(p * 10_000, most * 10_000, U256_MODULUS);
  }

  /** Otherwise some profit in between fails the check. */
  lemma HarmfulWrapFails(least: nat, most: nat, needed: nat) returns (p: nat)
    requires !WrapsHarmlessly(least, most, needed) && least <= most <= needed
    ensures least <= p <= most && p * 10_000 % U256_MODULUS < needed
  {
    p := least;
    var k := most * 10_000 / U256_MODULUS;
    DivMonotone(least * 10_000, most * 10_000, U256_MODULUS);
    if least * 10_000 / U256_MODULUS < k {
      p := CeilDiv(k * U256_MODULUS, 10_000);
      QuotientAtLeast(least * 10_000, U256_MODULUS, k);
      QuotientAtLeast(most * 10_000, U256_MODULUS, k);
      CeilDivIs(k * U256_MODULUS, 10_000, least);
      CeilDivIs(k * U256_MODULUS, 10_000, most);
      CeilDivIs(k * U256_MODULUS, 10_000, p);
      CeilDivIs(k * U256_MODULUS, 10_000, p - 1);
      DivModUnique(p * 10_000, U256_MODULUS, k, p * 10_000 - k * U256_MODULUS);
      MulMonotone(k, U256_MODULUS);
    }
  }

  lemma WorthwhileIs(config: Config, order: DutchAuctionOrder, context: Context, cost: u256)
    ensures Worthwhile(config, order, context, cost) <==>
              cost < order.input.amount && GasCost(config, context) <= config.maxGasCostWei
              && NetProfit(config, order, context, cost) >= LeastProfit(config, order)
  {
    CeilDivIs(BpsNeeded(config, order), 10_000, NetProfit(config, order, context, cost));
  }

  lemma DecideIs(config: Config, order: DutchAuctionOrder, context: Context, cost: u256)
    ensures Decide(config, order, context, cost).Some? <==>
              cost < order.input.amount && GasCost(config, context) <= config.maxGasCostWei
              && NetProfit(config, order, context, cost) >= config.minProfitWei
              && Wrap256(NetProfit(config, order, context, cost) * 10_000) >= BpsNeeded(config, order)
    ensures Decide(config, order, context, cost).Some? ==>
              Decide(config, order, context, cost).value.estimatedProfit == NetProfit(config, order, context, cost)
  {
    if cost < order.input.amount {
      QuotientAtLeast(Wrap256(NetProfit(config, order, context, cost) * 10_000), order.input.amount,
                      config.minProfitBps);
    }
  }

  /** What the code takes is always worthwhile. */
  lemma TakenIsWorthwhile(config: Config, order: DutchAuctionOrder, context: Context, cost: u256)
    ensures Decide(config, order, context, cost).Some? ==> Worthwhile(config, order, context, cost)
  {
    DecideIs(config, order, context, cost);
    WrapAtMost(NetProfit(config, order, context, cost) * 10_000);
  }

  lemma PassesBps(config: Config, order: DutchAuctionOrder, context: Context, p: nat)
    requires BpsExact(config, order, context) && GasCost(config, context) <= config.maxGasCostWei
    requires LeastProfit(config, order) <= p <= NetProfit(config, order, context, 0)
    ensures Wrap256(p * 10_000) >= BpsNeeded(config, order)
  {
    if config.minProfitBps > 0 {
      HarmlessWrapPasses(LeastProfit(config, order), NetProfit(config, order, context, 0),
                         BpsNeeded(config, order), p);
    }
  }

  lemma WorthwhileIsTaken(config: Config, order: DutchAuctionOrder, context: Context, cost: u256)
    requires Worthwhile(config, order, context, cost) && BpsExact(config, order, context)
    ensures Decide(config, order, context, cost).Some?
  {
    WorthwhileIs(config, order, context, cost);
    PassesBps(config, order, context, NetProfit(config, order, context, cost));
    DecideIs(config, order, context, cost);
  }

  lemma CostOf(config: Config, order: DutchAuctionOrder, context: Context, p: nat) returns (cost: u256)
    requires 1 <= p <= NetProfit(config, order, context, 0)
    ensures cost < order.input.amount && NetProfit(config, order, context, cost) == p
  {
    cost := order.input.amount - GasCost(config, context) - p;
  }

  lemma NeedsProfit(config: Config, order: DutchAuctionOrder, context: Context)
    requires config.minProfitBps >= 1
    ensures NetProfit(config, order, context, 0) <= order.input.amount <= BpsNeeded(config, order)
    ensures order.input.amount > 0 ==> LeastProfit(config, order) >= 1
  {
    ProductGrows(order.input.amount, 1, config.minProfitBps);
    CeilDivIs(BpsNeeded(config, order), 10_000, 0);
  }

  /** The code takes exactly the fills that meet the configured limits in exact arithmetic, if and
      only if the basis-point product wraps harmlessly. */
  lemma DecisionIsExactIff(config: Config, order: DutchAuctionOrder, context: Context)
    ensures (forall cost: u256 ::
               Decide(config, order, context, cost).Some? <==> Worthwhile(config, order, context, cost))
            <==> BpsExact(config, order, context)
  {
    if BpsExact(config, order, context) {
      forall cost: u256
        ensures Decide(config, order, context, cost).Some? <==> Worthwhile(config, order, context, cost)
      {
        if Worthwhile(config, order, context, cost) {
          WorthwhileIsTaken(config, order, context, cost);
        } else if Decide(config, order, context, cost).Some? {
          TakenIsWorthwhile(config, order, context, cost);
        }
      }
    } else {
      NeedsProfit(config, order, context);
      var p := HarmfulWrapFails(LeastProfit(config, order), NetProfit(config, order, context, 0),
                                BpsNeeded(config, order));
      var cost := CostOf(config, order, context, p);
      WorthwhileIs(config, order, context, cost);
      DecideIs(config, order, context, cost);
    }
  }

  /** In particular where ten thousand times the input fits 256 bits. */
  lemma OrdinaryAmountsAreExact(config: Config, order: DutchAuctionOrder, context: Context)
    requires order.input.amount * 10_000 <= U256_MAX
    ensures BpsExact(config, order, context)
  {
    var least, most := LeastProfit(config, order), NetProfit(config, order, context, 0);
    if least <= most {
      CeilDivIs(BpsNeeded(config, order), 10_000, least);
      DivModUnique(least * 10_000, U256_MODULUS, 0, least * 10_000);
      DivModUnique(most * 10_000, U256_MODULUS, 0, most * 10_000);
    }
  }

  /** A cheaper market never turns a fill down, nor makes it less profitable. */
  lemma CheaperIsBetter(config: Config, order: DutchAuctionOrder, context: Context, cost: u256, cheaper: u256)
    requires cheaper <= cost && BpsExact(config, order, context)
    ensures var before, after := Decide(config, order, context, cost), Decide(config, order, context, cheaper);
            before.Some? ==>
            && after.Some?
            && after.value.estimatedProfit >= before.value.estimatedProfit
            && after.value.confidence >= before.value.confidence
            && after.value.estimatedGasCost == before.value.estimatedGasCost
  {
    if Decide(config, order, context, cost).Some? {
      TakenIsWorthwhile(config, order, context, cost);
      WorthwhileIs(config, order, context, cost);
      WorthwhileIs(config, order, context, cheaper);
      WorthwhileIsTaken(config, order, context, cheaper);
      ConfidenceGrows(NetProfit(config, order, context, cost), NetProfit(config, order, context, cheaper),
                      GasCost(config, context));
    }
  }

  /** Filling only gets better with time: an order that decays, is worth filling at one moment
      and has not expired is worth filling later, for no less profit and with no less
      confidence. */
  lemma FillingImproves(config: Config, quoter: Quoter, order: DutchAuctionOrder, context: Context, t: Instant,
                        t': Instant)
    requires Monotone(quoter) && order.outputs != []
    requires Decays(order, order.outputs[0]) && Countable(order)
    requires BpsExact(config, order, context)
    requires t <= t' <= order.deadline
    ensures var before := Evaluate(config, quoter, order, context, t);
            var after := Evaluate(config, quoter, order, context, t');
            before.Ok? && before.value.Some? ==>
            && after.Ok? && after.value.Some?
            && after.value.value.estimatedProfit >= before.value.value.estimatedProfit
            && after.value.value.confidence >= before.value.value.confidence
  {
    var output := order.outputs[0];
    AmountFalls(order, output, t, t');
    var now := quoter(order.input.token, output.token, AmountAt(order, output, t), order.chainId);
    var later := quoter(order.input.token, output.token, AmountAt(order, output, t'), order.chainId);
    if now.Ok? {
      assert later.Ok? && later.value <= now.value;
      CheaperIsBetter(config, order, context, now.value, later.value);
    }
  }

  lemma GasCostFits(config: Config, context: Context)
    ensures GasCost(config, context) == SatAdd(context.baseFee, context.priorityFee, U128_MAX) * config.defaultGasLimit
  {
    var price := SatAdd(context.baseFee, context.priorityFee, U128_MAX);
    ProductGrows(price, config.defaultGasLimit, U64_MAX);
    ProductGrows(U64_MAX, price, U128_MAX);
    NoWrap(price * config.defaultGasLimit);
  }

  /** A decision accounts for the whole input (profit, gas and market cost add up to it)
      exactly when the gas does not exceed the gross profit. Any positive profit floor
      guarantees it, and the gas product never wraps. */
  lemma ProfitIsExactIff(config: Config, order: DutchAuctionOrder, context: Context, cost: u256)
    ensures Decide(config, order, context, cost).Some? ==>
            var d := Decide(config, order, context, cost).value;
            && (d.estimatedProfit + d.estimatedGasCost + cost == order.input.amount
                <==> cost + d.estimatedGasCost <= order.input.amount)
            && (config.minProfitWei >= 1 ==> d.estimatedProfit + d.estimatedGasCost + cost == order.input.amount)
            && d.estimatedGasCost == SatAdd(context.baseFee, context.priorityFee, U128_MAX) * config.defaultGasLimit
  {
    GasCostFits(config, context);
  }

  /** Every decision respects the configured floors and ceiling, in exact arithmetic. */
  lemma DecisionMeetsThresholds(config: Config, quoter: Quoter, order: DutchAuctionOrder, context: Context,
                                now: Instant)
    ensures var e := Evaluate(config, quoter, order, context, now);
            e.Ok? && e.value.Some? ==>
            var d := e.value.value;
            && now <= order.deadline
            && config.minProfitWei <= d.estimatedProfit <= order.input.amount
            && d.estimatedGasCost <= config.maxGasCostWei
            && d.estimatedProfit * 10_000 >= config.minProfitBps * order.input.amount
            && 40 <= d.confidence <= 95
  {
    var e := Evaluate(config, quoter, order, context, now);
    if e.Ok? && e.value.Some? {
      var quote := quoter(order.input.token, order.outputs[0].token, AmountAt(order, order.outputs[0], now),
                          order.chainId);
      TakenIsWorthwhile(config, order, context, quote.value);
      DecideIs(config, order, context, quote.value);
    }
  }
}
