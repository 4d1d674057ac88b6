/** The price aggregator: collecting answers, filtering outliers, publishing and caching.
    A source answers a price or, by error or timeout, nothing. */
module Aggregator {
  import opened Machine
  import opened Results
  import opened Time
  import opened Sorting
  import opened PriceMath

  datatype Config = Config(cacheTtlSeconds: u64, minSources: nat, maxDeviationPct: u64)

  datatype CacheKey = CacheKey(base: nat, quote: nat, chainId: u64)

  /** One registered source, in registration order, and its answer. */
  datatype Answer = Answer(source: string, price: Option<u256>)

  datatype Quote = Quote(price: u256, source: string)

  datatype AggregatedPrice = AggregatedPrice(
    medianPrice: u256,
    meanPrice: u256,
    numSources: nat,
    confidence: nat,
    timestamp: Instant,
    sources: seq<string>)

  datatype CachedPrice = CachedPrice(price: AggregatedPrice, cachedAt: Instant)

  /** `Panicked` is the assertion failure of a median over no prices. */
  datatype Outcome = Published(price: AggregatedPrice) | NoPriceAvailable | Panicked

  function Collect(answers: seq<Answer>): seq<Quote> {
    if answers == [] then []
    else
      var before, last := Collect(answers[..|answers| - 1]), answers[|answers| - 1];
      if last.price == None then before else before + [Quote(last.price.value, last.source)]
  }

  function Prices(quotes: seq<Quote>): seq<u256> {
    seq(|quotes|, i requires 0 <= i < |quotes| => quotes[i].price)
  }

  function Sources(quotes: seq<Quote>): seq<string> {
    seq(|quotes|, i requires 0 <= i < |quotes| => quotes[i].source)
  }

  function Kept(quotes: seq<Quote>, median: u256, maxDeviationPct: u64): seq<Quote> {
    if quotes == [] then []
    else
      (if IsOutlier(quotes[0].price, median, maxDeviationPct) then [] else [quotes[0]])
      + Kept(quotes[1..], median, maxDeviationPct)
  }

  function Publish(config: Config, raw: seq<Quote>, timestamp: Instant): Outcome {
    if raw == [] then NoPriceAvailable
    else
      var kept := Kept(raw, Median(Prices(raw)), config.maxDeviationPct);
      if |kept| < config.minSources then NoPriceAvailable
      else if kept == [] then Panicked
      else Published(Aggregate(config, kept, timestamp))
  }

  function Aggregate(config: Config, kept: seq<Quote>, timestamp: Instant): AggregatedPrice
    requires kept != []
  {
    AggregatedPrice(Median(Prices(kept)), Mean(Prices(kept)), |kept|,
                    Confidence(|kept|, config.minSources, Prices(kept)), timestamp, Sources(kept))
  }

  predicate IsFresh(config: Config, cached: CachedPrice, now: Instant) {
    WholeSeconds(now - cached.cachedAt) <= config.cacheTtlSeconds
  }

  /** The clock is read at the cache check, for the timestamp, and when caching. */
  datatype Request = Request(key: CacheKey, answers: seq<Answer>, checkedAt: Instant, stampedAt: Instant,
                             cachedAt: Instant)

  function Ask(config: Config, cache: map<CacheKey, CachedPrice>, r: Request): (map<CacheKey, CachedPrice>, Outcome) {
    if r.key in cache && IsFresh(config, cache[r.key], r.checkedAt) then (cache, Published(cache[r.key].price))
    else
      var outcome := Publish(config, Collect(r.answers), r.stampedAt);
      (if outcome.Published? then cache[r.key := CachedPrice(outcome.price, r.cachedAt)] else cache, outcome)
  }

  class PriceAggregator {
    const config: Config
    var cache: map<CacheKey, CachedPrice>

    constructor (config: Config)
      ensures this.config == config && cache == map[]
    {
      this.config := config;
      cache := map[];
    }

    method CollectPrices(answers: seq<Answer>) returns (rawPrices: seq<Quote>)
      ensures rawPrices == Collect(answers)
    {
      rawPrices := [];
      for i := 0 to |answers|
        invariant rawPrices == Collect(answers[..i])
      {
        assert answers[..i + 1][..i] == answers[..i];
        match answers[i].price
        case Some(price) => rawPrices := rawPrices + [Quote(price, answers[i].source)];
        case None =>
      }
      assert answers[..|answers|] == answers;
    }

    method GetPrice(r: Request) returns (outcome: Outcome)
      modifies this
      ensures (cache, outcome) == Ask(config, old(cache), r)
    {
      if r.key in cache && IsFresh(config, cache[r.key], r.checkedAt) {
        return Published(cache[r.key].price);
      }
      var rawPrices := CollectPrices(r.answers);
      if rawPrices == [] {
        return NoPriceAvailable;
      }
      var median := Median(Prices(rawPrices));
      var filtered := Kept(rawPrices, median, config.maxDeviationPct);
      if |filtered| < config.minSources {
        return NoPriceAvailable;
      }
      if filtered == [] {
        return Panicked;
      }
      var price := Aggregate(config, filtered, r.stampedAt);
      cache := cache[r.key := CachedPrice(price, r.cachedAt)];
      return Published(price);
    }

    method InvalidateCache()
      modifies this
      ensures cache == map[]
    {
      cache := map[];
    }
  }

  // ----- what is collected

  /** The positions of the sources that answered. */
  function AnsweredAt(answers: seq<Answer>): seq<nat> {
    if answers == [] then []
    else
      var n := |answers| - 1;
      AnsweredAt(answers[..n]) + if answers[n].price == None then [] else [n]
  }

  /** The collected quotes are, in order, those of exactly the sources that answered. */
  lemma {:induction false} CollectsAnswersInOrder(answers: seq<Answer>)
    ensures var quotes, at := Collect(answers), AnsweredAt(answers);
            && |quotes| == |at|
            && (forall i :: 0 <= i < |at| ==>
                  at[i] < |answers| && answers[at[i]].price == Some(quotes[i].price)
                  && answers[at[i]].source == quotes[i].source)
            && (forall i, j :: 0 <= i < j < |at| ==> at[i] < at[j])
            && (forall k :: 0 <= k < |answers| ==> (k in at <==> answers[k].price.Some?))
  {
    if answers != [] {
      var n := |answers| - 1;
      CollectsAnswersInOrder(answers[..n]);
      forall k | 0 <= k < n ensures answers[..n][k] == answers[k] {
      }
    }
  }

  // ----- what the filter keeps

  /** The positions of the kept quotes. */
  function KeptAt(quotes: seq<Quote>, median: u256, maxDeviationPct: u64): seq<nat> {
    if quotes == [] then []
    else
      var n := |quotes| - 1;
      KeptAt(quotes[..n], median, maxDeviationPct)
      + if IsOutlier(quotes[n].price, median, maxDeviationPct) then [] else [n]
  }

  lemma {:induction false} KeptConcat(a: seq<Quote>, b: seq<Quote>, median: u256, pct: u64)
    ensures Kept(a + b, median, pct) == Kept(a, median, pct) + Kept(b, median, pct)
  {
    if a == [] {
      assert a + b == b;
    } else {
      assert (a + b)[1..] == a[1..] + b;
      KeptConcat(a[1..], b, median, pct);
    }
  }

  lemma KeptSnoc(quotes: seq<Quote>, median: u256, pct: u64)
    requires quotes != []
    ensures var n := |quotes| - 1;
            Kept(quotes, median, pct) == Kept(quotes[..n], median, pct)
              + if IsOutlier(quotes[n].price, median, pct) then [] else [quotes[n]]
  {
    var n := |quotes| - 1;
    KeptConcat(quotes[..n], [quotes[n]], median, pct);
    assert quotes == quotes[..n] + [quotes[n]];
    assert Kept([quotes[n]], median, pct) == if IsOutlier(quotes[n].price, median, pct) then [] else [quotes[n]];
  }

  /** The kept quotes are the quotes at `at`, and those positions are the non-outliers, in order. */
  ghost predicate IsSubsequenceAt(quotes: seq<Quote>, kept: seq<Quote>, at: seq<nat>, median: u256, pct: u64) {
    && |kept| == |at|
    && (forall i :: 0 <= i < |at| ==> at[i] < |quotes| && kept[i] == quotes[at[i]])
    && (forall i, j :: 0 <= i < j < |at| ==> at[i] < at[j])
    && (forall k :: 0 <= k < |quotes| ==> (k in at <==> !IsOutlier(quotes[k].price, median, pct)))
  }

  lemma ExtendSubsequence(quotes: seq<Quote>, kept: seq<Quote>, at: seq<nat>, median: u256, pct: u64)
    requires quotes != [] && IsSubsequenceAt(quotes[..|quotes| - 1], kept, at, median, pct)
    ensures var n := |quotes| - 1;
            if IsOutlier(quotes[n].price, median, pct) then IsSubsequenceAt(quotes, kept, at, median, pct)
            else IsSubsequenceAt(quotes, kept + [quotes[n]], at + [n], median, pct)
  {
    var n := |quotes| - 1;
    forall k | 0 <= k < n ensures quotes[..n][k] == quotes[k] {
    }
  }

  /** The filter keeps exactly the quotes that are not outliers, in their order. */
  lemma {:induction false} KeptIsOrderedSubsequence(quotes: seq<Quote>, median: u256, pct: u64)
    ensures IsSubsequenceAt(quotes, Kept(quotes, median, pct), KeptAt(quotes, median, pct), median, pct)
  {
    if quotes != [] {
      var n := |quotes| - 1;
      KeptIsOrderedSubsequence(quotes[..n], median, pct);
      KeptSnoc(quotes, median, pct);
      ExtendSubsequence(quotes, Kept(quotes[..n], median, pct), KeptAt(quotes[..n], median, pct), median, pct);
    }
  }

  /** The filter on bare prices. */
  function KeptPrices(prices: seq<u256>, median: u256, pct: u64): seq<u256> {
    if prices == [] then []
    else
      (if IsOutlier(prices[0], median, pct) then [] else [prices[0]]) + KeptPrices(prices[1..], median, pct)
  }

  lemma {:induction false} PricesOfKept(quotes: seq<Quote>, median: u256, pct: u64)
    ensures Prices(Kept(quotes, median, pct)) == KeptPrices(Prices(quotes), median, pct)
  {
    if quotes != [] {
      PricesOfKept(quotes[1..], median, pct);
      assert Prices(quotes)[1..] == Prices(quotes[1..]);
    }
  }

  lemma {:induction false} KeptPricesInBand(prices: seq<u256>, median: u256, pct: u64)
    ensures forall p :: p in KeptPrices(prices, median, pct) ==> !IsOutlier(p, median, pct)
  {
    if prices != [] {
      KeptPricesInBand(prices[1..], median, pct);
    }
  }

  lemma {:induction false} KeptMultiplicity(prices: seq<u256>, median: u256, pct: u64, x: u256)
    ensures multiset(KeptPrices(prices, median, pct))[x] == if IsOutlier(x, median, pct) then 0 else multiset(prices)[x]
  {
    if prices != [] {
      KeptMultiplicity(prices[1..], median, pct, x);
      assert prices == [prices[0]] + prices[1..];
    }
  }

  // ----- what is published

  lemma ThresholdAtMost(m: u256, pct: u64)
    ensures Threshold(m, pct) <= m * pct / 100
  {
    MulMonotone(m, pct);
    WrapAtMost(m * pct);
    DivMonotone(Wrap256(m * pct), m * pct, 100);
  }

  /** The prices that are kept add up without wrapping. The others may be anything. */
  ghost predicate KeptFits(config: Config, raw: seq<Quote>) {
    raw != [] && Sum(Prices(Kept(raw, Median(Prices(raw)), config.maxDeviationPct))) <= U256_MAX
  }

  ghost predicate InBand(config: Config, price: AggregatedPrice, m: u256) {
    && Distance(price.medianPrice, m) <= m * config.maxDeviationPct / 100
    && Distance(price.meanPrice, m) <= m * config.maxDeviationPct / 100
  }

  /** Every published median and mean lies within the configured percentage of the raw median,
      exactly when that is not zero or the mean rounds to zero as well. */
  lemma PublishedBandIff(config: Config, raw: seq<Quote>, timestamp: Instant)
    ensures var p := Publish(config, raw, timestamp);
            p.Published? && KeptFits(config, raw) ==>
            var m := Median(Prices(raw));
            InBand(config, p.price, m) <==> m > 0 || Sum(Prices(raw)) < |raw|
  {
    if KeptFits(config, raw) {
      if Median(Prices(raw)) > 0 {
        KeptInBand(config, raw);
      } else {
        ZeroMedianKeepsAll(raw, config.maxDeviationPct);
        FoldWrapsSum(0, Prices(raw));
        DivModUnique(Sum(Prices(raw)), U256_MODULUS, 0, Sum(Prices(raw)));
        QuotientAtLeast(Sum(Prices(raw)), |raw|, 1);
        ThresholdAtMost(0, config.maxDeviationPct);
      }
    }
  }

  lemma {:induction false} ZeroMedianKeepsAll(quotes: seq<Quote>, pct: u64)
    ensures Kept(quotes, 0, pct) == quotes
  {
    if quotes != [] {
      ZeroMedianKeepsAll(quotes[1..], pct);
    }
  }

  lemma KeptInBand(config: Config, raw: seq<Quote>)
    requires KeptFits(config, raw)
    ensures var m := Median(Prices(raw));
            var kept := Prices(Kept(raw, m, config.maxDeviationPct));
            m > 0 && kept != [] ==>
            && Distance(Median(kept), m) <= m * config.maxDeviationPct / 100
            && Distance(Mean(kept), m) <= m * config.maxDeviationPct / 100
  {
    var m, pct := Median(Prices(raw)), config.maxDeviationPct;
    var kept := Prices(Kept(raw, m, pct));
    var threshold := Threshold(m, pct);
    PricesOfKept(raw, m, pct);
    KeptPricesInBand(Prices(raw), m, pct);
    ThresholdAtMost(m, pct);
    if m > 0 && kept != [] {
      var centre: int := m;
      var lo, hi := centre - threshold, centre + threshold;
      forall i | 0 <= i < |kept| ensures lo <= kept[i] <= hi {
        assert kept[i] in kept;
      }
      SumFitsMedian(kept);
      MedianBetween(kept, lo, hi);
      MeanBetween(kept, lo, hi);
    }
  }

  /** The band needs a nonzero raw median: with a zero one nothing is an outlier, and a
      minority price moves the published mean anywhere. */
  lemma ZeroMedianLeavesMeanOpen(config: Config, source: string, x: nat, timestamp: Instant)
    requires config.minSources <= 3 && 3 * x <= U256_MAX
    ensures var raw := [Quote(0, source), Quote(0, source), Quote(3 * x, source)];
            var p := Publish(config, raw, timestamp);
            Median(Prices(raw)) == 0 && p.Published? && p.price.medianPrice == 0 && p.price.meanPrice == x
  {
    var a, b := Quote(0, source), Quote(3 * x, source);
    var raw := [a, a, b];
    var prices := Prices(raw);
    assert prices == [0, 0, 3 * x];
    assert prices[1..] == [0, 3 * x] && prices[1..][1..] == [3 * x] && prices[1..][1..][1..] == [];
    assert SortBy(prices[1..][1..], Price) == [3 * x];
    assert SortBy(prices[1..], Price) == [0, 3 * x];
    assert Sorted(prices) == [0, 0, 3 * x];
    assert raw[1..] == [a, b] && raw[1..][1..] == [b] && raw[1..][1..][1..] == [];
    assert Kept([b], 0, config.maxDeviationPct) == [b];
    assert Kept([a, b], 0, config.maxDeviationPct) == [a, b];
    assert Kept(raw, 0, config.maxDeviationPct) == raw;
    FoldWrapsSum(0, prices);
    assert Sum(prices[1..][1..]) == 3 * x;
    assert Sum(prices[1..]) == 3 * x;
    DivModUnique(3 * x, U256_MODULUS, 0, 3 * x);
  }

  lemma MajorityFits(prices: seq<u256>, lo: int, hi: int)
    requires 2 * InRange(prices, lo, hi) > |prices| && 2 * hi <= U256_MAX
    ensures MedianFits(prices)
  {
    SortedFacts(prices);
    SortedInRange(prices, lo, hi);
    SortedMajority(Sorted(prices), lo, hi);
    var s := Sorted(prices);
    if |s| % 2 == 0 {
      assert s[|s| / 2 - 1] <= s[|s| / 2] <= hi;
    }
  }

  lemma {:induction false} KeptIsNoLonger(quotes: seq<Quote>, m: u256, pct: u64)
    ensures |Kept(quotes, m, pct)| <= |quotes|
  {
    if quotes != [] {
      KeptIsNoLonger(quotes[1..], m, pct);
    }
  }

  /** What is kept is near the raw median, so its sum is bounded by the honest prices alone. */
  lemma KeptSumFits(config: Config, raw: seq<Quote>, hi: nat)
    requires raw != [] && 0 < Median(Prices(raw)) <= hi
    requires |raw| * (hi + hi * config.maxDeviationPct / 100) <= U256_MAX
    ensures KeptFits(config, raw)
  {
    var m, pct := Median(Prices(raw)), config.maxDeviationPct;
    var kept := Prices(Kept(raw, m, pct));
    var top := hi + hi * pct / 100;
    PricesOfKept(raw, m, pct);
    KeptPricesInBand(Prices(raw), m, pct);
    KeptIsNoLonger(raw, m, pct);
    ThresholdAtMost(m, pct);
    ScaleDown(m, hi, pct);
    DivMonotone(m * pct, hi * pct, 100);
    forall i | 0 <= i < |kept| ensures 0 <= kept[i] <= top {
      assert kept[i] in kept;
    }
    SumBetween(kept, 0, top);
    ScaleDown(|kept|, |raw|, top);
  }

  lemma ScaleDown(a: nat, b: nat, c: nat)
    requires a <= b
    ensures a * c <= b * c
  {
  }

  /** Majority robustness: if more than half of the answering sources price in [lo, hi], what
      is published stays within the percentage of a price in [lo, hi] (the raw median),
      whatever the other sources say. Only the honest prices have to be far from 256 bits. (The
      raw median is at least lo, so not zero if lo is not.) */
  lemma MajorityRobustness(config: Config, raw: seq<Quote>, timestamp: Instant, lo: int, hi: nat)
    requires 2 * InRange(Prices(raw), lo, hi) > |raw|
    requires 2 * hi <= U256_MAX && |raw| * (hi + hi * config.maxDeviationPct / 100) <= U256_MAX
    ensures var p := Publish(config, raw, timestamp);
            p.Published? && Median(Prices(raw)) > 0 ==>
            exists v: u256 :: lo <= v <= hi && InBand(config, p.price, v)
  {
    if raw != [] && Median(Prices(raw)) > 0 {
      MajorityFits(Prices(raw), lo, hi);
      MajorityHoldsMedian(Prices(raw), lo, hi);
      KeptSumFits(config, raw, hi);
      PublishedBandIff(config, raw, timestamp);
    }
  }

  /** The raw median of an odd number of prices is one of them, and is never filtered out. */
  lemma OddCountKeepsOne(raw: seq<Quote>, pct: u64)
    requires |raw| % 2 == 1
    ensures Kept(raw, Median(Prices(raw)), pct) != []
  {
    var prices := Prices(raw);
    var m := Median(prices);
    SortedFacts(prices);
    assert m in multiset(Sorted(prices));
    assert m in multiset(prices);
    KeptMultiplicity(prices, m, pct, m);
    assert multiset(KeptPrices(prices, m, pct))[m] > 0;
    PricesOfKept(raw, m, pct);
  }

  /** It does happen: two sources far enough apart filter each other out. */
  lemma TwoFarSourcesPanic(config: Config, low: Quote, high: Quote, timestamp: Instant)
    requires config.minSources == 0 && low.price + high.price <= U256_MAX
    requires var m := (low.price + high.price) / 2;
             m - low.price > m * config.maxDeviationPct / 100 && m * config.maxDeviationPct <= U256_MAX
    ensures Publish(config, [low, high], timestamp).Panicked?
  {
    var prices := Prices([low, high]);
    var m := (low.price + high.price) / 2;
    assert prices == [low.price, high.price];
    assert prices[1..] == [high.price] && prices[1..][1..] == [];
    assert SortBy(prices[1..], Price) == [high.price];
    assert Sorted(prices) == [low.price, high.price];
    DivModUnique(low.price + high.price, U256_MODULUS, 0, low.price + high.price);
    assert Median(prices) == m;
    DivModUnique(m * config.maxDeviationPct, U256_MODULUS, 0, m * config.maxDeviationPct);
    assert [low, high][1..] == [high] && [high][1..] == [];
    assert Kept([high], m, config.maxDeviationPct) == [];
  }

  /** An answer that no other undercuts. */
  lemma {:induction false} LeastPrice(prices: seq<u256>) returns (i: nat)
    requires prices != []
    ensures i < |prices| && forall j :: 0 <= j < |prices| ==> prices[i] <= prices[j]
  {
    i := 0;
    if |prices| > 1 {
      var rest := LeastPrice(prices[1..]);
      if prices[1..][rest] < prices[0] {
        i := rest + 1;
      }
      forall j | 0 <= j < |prices| ensures prices[i] <= prices[j] {
        if j > 0 {
          assert prices[1..][j - 1] == prices[j];
        }
      }
    }
  }

  ghost predicate Regular(config: Config, raw: seq<Quote>) {
    raw != [] && Sum(Prices(raw)) <= U256_MAX && Median(Prices(raw)) * config.maxDeviationPct <= U256_MAX
  }

  /** From a deviation of 100 percent on, the least price is never an outlier. */
  lemma LeastPriceIsKept(config: Config, raw: seq<Quote>)
    requires config.maxDeviationPct >= 100
    ensures Regular(config, raw) ==> Kept(raw, Median(Prices(raw)), config.maxDeviationPct) != []
  {
    if Regular(config, raw) {
      var prices, pct := Prices(raw), config.maxDeviationPct;
      var m := Median(prices);
      var i := LeastPrice(prices);
      SumFitsMedian(prices);
      MedianBetween(prices, prices[i], U256_MAX);
      DivModUnique(m * pct, U256_MODULUS, 0, m * pct);
      ScaleDown(100, pct, m);
      DivMonotone(100 * m, m * pct, 100);
      DivModUnique(100 * m, 100, m, 0);
      assert !IsOutlier(prices[i], m, pct);
      KeptMultiplicity(prices, m, pct, prices[i]);
      assert prices[i] in multiset(prices);
      assert multiset(KeptPrices(prices, m, pct))[prices[i]] > 0;
      PricesOfKept(raw, m, pct);
    }
  }

  ghost predicate PanicsOn(config: Config, raw: seq<Quote>, timestamp: Instant) {
    Regular(config, raw) && Publish(config, raw, timestamp).Panicked?
  }

  /** A configuration lets some answers that do not wrap make `get_price` take the median of an
      empty list exactly when it requires no source and allows less than 100 percent deviation. */
  lemma PanicsIff(config: Config, timestamp: Instant)
    ensures (exists raw :: PanicsOn(config, raw, timestamp)) <==> config.minSources == 0 && config.maxDeviationPct < 100
  {
    if config.minSources == 0 && config.maxDeviationPct < 100 {
      var low, high := Quote(0, ""), Quote(2, "");
      TwoFarSourcesPanic(config, low, high, timestamp);
      TwoFarAreRegular(config, low, high);
      assert PanicsOn(config, [low, high], timestamp);
    }
    forall raw | PanicsOn(config, raw, timestamp)
      ensures config.minSources == 0 && config.maxDeviationPct < 100
    {
      if config.maxDeviationPct >= 100 {
        LeastPriceIsKept(config, raw);
      }
    }
  }

  /** Two equal huge prices: their sum wraps to a median of 1, far from either. */
  lemma WrappedMedianPanics(config: Config, huge: Quote, timestamp: Instant)
    requires config.minSources == 0 && huge.price == U256_MODULUS / 2 + 1
    ensures Publish(config, [huge, huge], timestamp).Panicked?
  {
    var prices := Prices([huge, huge]);
    assert prices == [huge.price, huge.price];
    assert prices[1..] == [huge.price] && prices[1..][1..] == [];
    assert SortBy(prices[1..], Price) == [huge.price];
    assert Sorted(prices) == [huge.price, huge.price];
    DivModUnique(huge.price + huge.price, U256_MODULUS, 1, 2);
    assert Median(prices) == 1;
    NoWrap(config.maxDeviationPct);
    assert [huge, huge][1..] == [huge] && [huge][1..] == [];
    assert Kept([huge], 1, config.maxDeviationPct) == [];
  }

  /** Some answers at all, wrapping ones included, do so exactly when it requires no source. It takes
      an even number of answers. */
  lemma PanicsOnAnyIff(config: Config, timestamp: Instant)
    ensures (exists raw :: Publish(config, raw, timestamp).Panicked?) <==> config.minSources == 0
    ensures forall raw :: Publish(config, raw, timestamp).Panicked? ==> |raw| % 2 == 0
  {
    if config.minSources == 0 {
      var huge := Quote(U256_MODULUS / 2 + 1, "");
      WrappedMedianPanics(config, huge, timestamp);
    }
    forall raw | Publish(config, raw, timestamp).Panicked?
      ensures |raw| % 2 == 0
    {
      if |raw| % 2 == 1 {
        OddCountKeepsOne(raw, config.maxDeviationPct);
      }
    }
  }

  lemma TwoFarAreRegular(config: Config, low: Quote, high: Quote)
    requires low.price == 0 && high.price == 2 && config.maxDeviationPct < 100
    ensures Regular(config, [low, high])
  {
    var prices := Prices([low, high]);
    assert prices == [0, 2] && prices[1..] == [2] && prices[1..][1..] == [];
    assert Sum(prices[1..]) == 2;
    SumFitsMedian(prices);
    MedianBetween(prices, 0, 2);
  }

  /** The order in which sources were registered and answered changes nothing but the order of
      the listed names. */
  lemma PublishIgnoresOrder(config: Config, a: seq<Quote>, b: seq<Quote>, timestamp: Instant)
    requires multiset(Prices(a)) == multiset(Prices(b))
    ensures var p, q := Publish(config, a, timestamp), Publish(config, b, timestamp);
            && (p.Published? <==> q.Published?) && (p.Panicked? <==> q.Panicked?)
            && (p.Published? ==> p.price.(sources := []) == q.price.(sources := []))
  {
    assert |multiset(Prices(a))| == |a| && |multiset(Prices(b))| == |b|;
    if a != [] && b != [] {
      MedianIgnoresOrder(Prices(a), Prices(b));
      var m, pct := Median(Prices(a)), config.maxDeviationPct;
      SameKept(a, b, m, pct);
      var p, q := Prices(Kept(a, m, pct)), Prices(Kept(b, m, pct));
      if p != [] && q != [] {
        MedianIgnoresOrder(p, q);
        MeanIgnoresOrder(p, q);
        ConfidenceIgnoresOrder(|p|, config.minSources, p, q);
      }
    }
  }

  lemma SameKept(a: seq<Quote>, b: seq<Quote>, m: u256, pct: u64)
    requires multiset(Prices(a)) == multiset(Prices(b))
    ensures multiset(Prices(Kept(a, m, pct))) == multiset(Prices(Kept(b, m, pct)))
    ensures |Kept(a, m, pct)| == |Kept(b, m, pct)|
  {
    PricesOfKept(a, m, pct);
    PricesOfKept(b, m, pct);
    var p, q := Prices(Kept(a, m, pct)), Prices(Kept(b, m, pct));
    var inP: multiset<u256>, inQ: multiset<u256> := multiset(p), multiset(q);
    forall x: u256 ensures inP[x] == inQ[x] {
      KeptMultiplicity(Prices(a), m, pct, x);
      KeptMultiplicity(Prices(b), m, pct, x);
    }
    assert inP == inQ;
    assert |inP| == |p| && |inQ| == |q|;
  }

  // ----- runs with the cache

  function AskAll(config: Config, requests: seq<Request>): map<CacheKey, CachedPrice> {
    if requests == [] then map[]
    else Ask(config, AskAll(config, requests[..|requests| - 1]), requests[|requests| - 1]).0
  }

  /** Request `i` of the run finds nothing fresh and publishes, so it caches what it computes. */
  ghost predicate Caches(config: Config, requests: seq<Request>, i: nat)
    requires i < |requests|
  {
    var cache, r := AskAll(config, requests[..i]), requests[i];
    !(r.key in cache && IsFresh(config, cache[r.key], r.checkedAt))
    && Publish(config, Collect(r.answers), r.stampedAt).Published?
  }

  /** Request `j` is for the key, cached, and this is what it computed. */
  ghost predicate Cached(config: Config, requests: seq<Request>, j: nat, key: CacheKey, cached: CachedPrice)
    requires j < |requests|
  {
    && requests[j].key == key && Caches(config, requests, j)
    && requests[j].cachedAt == cached.cachedAt
    && Publish(config, Collect(requests[j].answers), requests[j].stampedAt) == Published(cached.price)
  }

  /** After request `j` none of the first `n` cached for the key. */
  ghost predicate NoneAfter(config: Config, requests: seq<Request>, n: nat, j: nat, key: CacheKey)
    requires n <= |requests|
  {
    forall i :: j < i < n && requests[i].key == key ==> !Caches(config, requests, i)
  }

  /** Of the first `n`, request `j` is the last one for the key that cached, and this is what it
      computed. */
  ghost predicate LastCachedOf(config: Config, requests: seq<Request>, n: nat, j: nat, key: CacheKey,
                               cached: CachedPrice)
    requires n <= |requests|
  {
    j < n && Cached(config, requests, j, key, cached) && NoneAfter(config, requests, n, j, key)
  }

  ghost predicate LastCached(config: Config, requests: seq<Request>, j: nat, key: CacheKey, cached: CachedPrice) {
    LastCachedOf(config, requests, |requests|, j, key, cached)
  }

  /** One more request caches its own price, or leaves the entry of the key as it was. */
  lemma CacheAfter(config: Config, requests: seq<Request>, n: nat, next: nat, key: CacheKey)
    requires next == n + 1 <= |requests|
    ensures var before, after := AskAll(config, requests[..n]), AskAll(config, requests[..next]);
            var r := requests[n];
            if r.key == key && Caches(config, requests, n)
            then key in after && after[key].cachedAt == r.cachedAt
                 && Publish(config, Collect(r.answers), r.stampedAt) == Published(after[key].price)
            else key in after ==> key in before && after[key] == before[key]
  {
    assert requests[..next][..n] == requests[..n];
  }

  ghost predicate HasLast(config: Config, requests: seq<Request>, n: nat, key: CacheKey, cached: CachedPrice)
    requires n <= |requests|
  {
    exists j: nat :: LastCachedOf(config, requests, n, j, key, cached)
  }

  lemma HasLastNext(config: Config, requests: seq<Request>, n: nat, next: nat, key: CacheKey, cached: CachedPrice)
    requires next == n + 1 <= |requests| && !(requests[n].key == key && Caches(config, requests, n))
    ensures HasLast(config, requests, n, key, cached) ==> HasLast(config, requests, next, key, cached)
  {
    if HasLast(config, requests, n, key, cached) {
      var j: nat :| LastCachedOf(config, requests, n, j, key, cached);
      NoneAfterNext(config, requests, n, next, j, key);
      assert LastCachedOf(config, requests, next, j, key, cached);
    }
  }

  lemma NoneAfterNext(config: Config, requests: seq<Request>, n: nat, next: nat, j: nat, key: CacheKey)
    requires next == n + 1 <= |requests| && !(requests[n].key == key && Caches(config, requests, n))
    ensures NoneAfter(config, requests, n, j, key) ==> NoneAfter(config, requests, next, j, key)
  {
  }

  lemma HasLastNow(config: Config, requests: seq<Request>, n: nat, next: nat, key: CacheKey, cached: CachedPrice)
    requires next == n + 1 <= |requests| && requests[n].key == key && Caches(config, requests, n)
    requires requests[n].cachedAt == cached.cachedAt
    requires Publish(config, Collect(requests[n].answers), requests[n].stampedAt) == Published(cached.price)
    ensures HasLast(config, requests, next, key, cached)
  {
    assert LastCachedOf(config, requests, next, n, key, cached);
  }

  lemma {:induction false} CacheIsLastOf(config: Config, requests: seq<Request>, n: nat, key: CacheKey)
    requires n <= |requests|
    ensures var cache := AskAll(config, requests[..n]); key in cache ==> HasLast(config, requests, n, key, cache[key])
  {
    if n > 0 {
      CacheAfter(config, requests, n - 1, n, key);
      var cache := AskAll(config, requests[..n]);
      CacheIsLastOf(config, requests, n - 1, key);
      if requests[n - 1].key == key && Caches(config, requests, n - 1) {
        HasLastNow(config, requests, n - 1, n, key, cache[key]);
      } else if key in cache {
        HasLastNext(config, requests, n - 1, n, key, cache[key]);
      }
    }
  }

  /** The cache holds, for each pair, what the last request that cached it computed. */
  lemma CacheIsLast(config: Config, requests: seq<Request>, key: CacheKey)
    requires key in AskAll(config, requests)
    ensures exists j: nat :: LastCached(config, requests, j, key, AskAll(config, requests)[key])
  {
    assert requests[..|requests|] == requests;
    CacheIsLastOf(config, requests, |requests|, key);
    var j: nat :| LastCachedOf(config, requests, |requests|, j, key, AskAll(config, requests)[key]);
    assert LastCached(config, requests, j, key, AskAll(config, requests)[key]);
  }

  /** Over any run, whatever is handed out was computed by this very request, or by the last one that
      cached a price for the same pair, no more than the time-to-live ago. */
  lemma PublishedIsFreshOrCached(config: Config, requests: seq<Request>, r: Request)
    ensures var outcome := Ask(config, AskAll(config, requests), r).1;
            outcome.Published? ==>
            || Publish(config, Collect(r.answers), r.stampedAt) == outcome
            || exists j: nat, cachedAt :: LastCached(config, requests, j, r.key, CachedPrice(outcome.price, cachedAt))
                                          && WholeSeconds(r.checkedAt - cachedAt) <= config.cacheTtlSeconds
  {
    var cache := AskAll(config, requests);
    if r.key in cache && IsFresh(config, cache[r.key], r.checkedAt) {
      CacheIsLast(config, requests, r.key);
      var j: nat :| LastCached(config, requests, j, r.key, cache[r.key]);
      assert LastCached(config, requests, j, r.key, CachedPrice(cache[r.key].price, cache[r.key].cachedAt));
    }
  }
}
