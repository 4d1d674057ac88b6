/** What a published price is, in terms of the answers alone. */
module PublishedPrice {
  import opened Machine
  import opened Results
  import opened Time
  import opened Sorting
  import opened PriceMath
  import opened Aggregator

  // ----- the arithmetic of the prices

  /** The median is the middle one of the prices in order, or half the (wrapping) sum of the two. */
  lemma MedianIsMiddle(prices: seq<u256>, ordered: seq<u256>)
    requires prices != [] && Ascending(ordered) && multiset(ordered) == multiset(prices)
    ensures |ordered| == |prices|
    ensures |prices| % 2 == 1 ==> Median(prices) == ordered[|prices| / 2]
    ensures |prices| % 2 == 0 ==>
              Median(prices) == (ordered[|prices| / 2 - 1] as int + ordered[|prices| / 2] as int) % U256_MODULUS / 2
  {
    SortedFacts(prices);
    SortedIsUnique(Sorted(prices), ordered);
  }

  lemma QuotientBounds(x: nat, d: nat)
    requires d > 0
    ensures x / d * d <= x < x / d * d + d
  {
  }

  /** The mean is the (wrapping) sum divided by the number, rounded down. */
  lemma MeanIsQuotient(prices: seq<u256>)
    requires prices != []
    ensures var n, wrapped := |prices|, Sum(prices) % U256_MODULUS; Mean(prices) * n <= wrapped < Mean(prices) * n + n
  {
    FoldWrapsSum(0, prices);
    QuotientBounds(FoldSum(0, prices), |prices|);
  }

  /** While the threshold product fits 256 bits, a price is an outlier exactly when the median is not
      zero and a hundred times the distance from it is more than the allowed percentage of it. */
  lemma OutlierIff(price: u256, median: u256, pct: u64)
    requires median * pct <= U256_MAX
    ensures IsOutlier(price, median, pct) <==>
              median > 0 && (if price >= median then (price - median) * 100 else (median - price) * 100) > median * pct
  {
    MulMonotone(median, pct);
    NoWrap(median * pct);
    QuotientAtMost(median * pct, 100, Distance(price, median));
  }

  lemma QuotientAtMost(x: nat, d: nat, q: nat)
    requires d > 0
    ensures q > x / d <==> q * d > x
  {
    QuotientAtLeast(x, d, q);
  }

  // ----- the agreement points

  /** From the largest spread (scaled) that still costs no more than `cost` points. */
  function Steps(cost: nat): nat { (2 * (cost + 1) + 4) / 5 }

  lemma PointsIff(pct: nat, cost: nat)
    requires cost < 50
    ensures PctScore(pct) >= 50 - cost <==> pct < Steps(cost)
  {
  }

  /** The points that the spread leaves of 50, by products: two and a half are lost for each full
      percent of the median, rounded down, so that at most `cost` are lost exactly while the scaled
      spread is below two fifths of `cost` + 1 medians, rounded up. */
  ghost predicate ArePoints(points: int, scaled: nat, median: nat) {
    && 0 <= points <= 50
    && forall cost: nat :: cost < 50 ==> (points >= 50 - cost <==> scaled < Steps(cost) * median)
  }

  lemma SpreadPoints(spread: u256, median: u256)
    requires median > 0
    ensures ArePoints(SpreadScore(spread, median), Wrap256(spread * 100), median)
  {
    var scaled := Wrap256(spread * 100);
    SpreadScoreEnds(spread, median);
    QuotientAtLeast(scaled, median, 0);
    forall cost: nat | cost < 50 ensures SpreadScore(spread, median) >= 50 - cost <==> scaled < Steps(cost) * median {
      QuotientAtLeast(scaled, median, Steps(cost));
      PointsIff(scaled / median, cost);
    }
  }

  // ----- what is published

  /** The positions of the quotes that are not outliers, in order. */
  ghost predicate NonOutliers(quotes: seq<Quote>, at: seq<nat>, median: u256, pct: u64) {
    && (forall i :: 0 <= i < |at| ==> at[i] < |quotes|)
    && (forall i, j :: 0 <= i < j < |at| ==> at[i] < at[j])
    && (forall k :: 0 <= k < |quotes| ==> (k in at <==> !IsOutlier(quotes[k].price, median, pct)))
  }

  /** The price names the quotes at these positions and counts them. */
  ghost predicate Names(p: AggregatedPrice, quotes: seq<Quote>, at: seq<nat>) {
    && p.numSources == |at| == |p.sources|
    && forall i :: 0 <= i < |at| && at[i] < |quotes| ==> p.sources[i] == quotes[at[i]].source
  }

  /** Whether and with what the answers lead to a price: none if there are none, or if fewer than
      required are no outliers; a failed assertion if none is required and none is left. */
  lemma OutcomeIs(config: Config, raw: seq<Quote>, timestamp: Instant)
    ensures var at := if raw == [] then [] else KeptAt(raw, Median(Prices(raw)), config.maxDeviationPct);
            var outcome := Publish(config, raw, timestamp);
            && (outcome.NoPriceAvailable? <==> raw == [] || |at| < config.minSources)
            && (outcome.Panicked? <==> raw != [] && |at| == 0 && config.minSources == 0)
            && (outcome.Published? ==> NonOutliers(raw, at, Median(Prices(raw)), config.maxDeviationPct)
                                       && Names(outcome.price, raw, at) && outcome.price.timestamp == timestamp)
  {
    if raw != [] {
      KeptIsOrderedSubsequence(raw, Median(Prices(raw)), config.maxDeviationPct);
    }
  }

  /** The prices of the quotes at these positions. */
  function PricesAt(quotes: seq<Quote>, at: seq<nat>): seq<u256>
    requires forall i :: 0 <= i < |at| ==> at[i] < |quotes|
  {
    seq(|at|, i requires 0 <= i < |at| => quotes[at[i]].price)
  }

  lemma KeptPricesAt(quotes: seq<Quote>, median: u256, pct: u64)
    ensures NonOutliers(quotes, KeptAt(quotes, median, pct), median, pct)
    ensures Prices(Kept(quotes, median, pct)) == PricesAt(quotes, KeptAt(quotes, median, pct))
  {
    KeptIsOrderedSubsequence(quotes, median, pct);
  }

  /** The published median and mean are those of the kept prices. The confidence of two or more of
      them, with a median above zero, is ten points a source up to five and the agreement points of
      their spread and median, less ten exactly when no more than the required number is left; a zero
      median leaves no agreement points, and a single price has 25. */
  lemma PublishedConfidenceIs(config: Config, raw: seq<Quote>, timestamp: Instant)
    requires raw != []
    ensures var at := KeptAt(raw, Median(Prices(raw)), config.maxDeviationPct);
            var outcome := Publish(config, raw, timestamp);
            outcome.Published? ==>
              && NonOutliers(raw, at, Median(Prices(raw)), config.maxDeviationPct) && at != []
              && outcome.price.medianPrice == Median(PricesAt(raw, at))
              && outcome.price.meanPrice == Mean(PricesAt(raw, at))
              && IsConfidence(outcome.price.confidence, |at|, config.minSources, PricesAt(raw, at))
  {
    var m, pct := Median(Prices(raw)), config.maxDeviationPct;
    KeptPricesAt(raw, m, pct);
    var prices := Prices(Kept(raw, m, pct));
    if prices != [] {
      ConfidenceIsPoints(|prices|, config.minSources, prices);
    }
  }

  ghost predicate IsConfidence(confidence: nat, kept: nat, minSources: nat, prices: seq<u256>)
    requires prices != []
  {
    var points := confidence - Min(kept, 5) * 10 + if kept <= minSources then 10 else 0;
    if kept == 1 then points == 25
    else if Median(prices) == 0 then points == 0
    else ArePoints(points, Wrap256(Spread(prices) * 100), Median(prices))
  }

  lemma ConfidenceIsPoints(kept: nat, minSources: nat, prices: seq<u256>)
    requires kept == |prices| > 0
    ensures IsConfidence(Confidence(kept, minSources, prices), kept, minSources, prices)
  {
    if kept >= 2 {
      var median, spread := Median(prices), Spread(prices);
      SortedFacts(prices);
      if median > 0 {
        ConfidenceIs(kept, minSources, prices, spread, median);
        SpreadPoints(spread, median);
      } else {
        assert AgreementScore(prices) == SpreadScore(spread, median);
        CombinedScoreIs(kept, minSources, 0);
      }
    } else {
      CombinedScoreIs(kept, minSources, 25);
    }
  }

  lemma FullIff(confidence: nat, kept: nat, minSources: nat, prices: seq<u256>)
    requires kept == |prices| > 0 && IsConfidence(confidence, kept, minSources, prices)
    ensures confidence == 100 <==>
              kept >= 5 && kept > minSources && Wrap256(Spread(prices) * 100) < Median(prices)
  {
    if kept >= 2 && Median(prices) > 0 {
      var points := confidence - Min(kept, 5) * 10 + if kept <= minSources then 10 else 0;
      assert points >= 50 - 0 <==> Wrap256(Spread(prices) * 100) < Steps(0) * Median(prices);
    }
  }

  /** The full 100 points are published exactly for five or more kept sources, more than are required,
      whose scaled spread is below their median. */
  lemma FullConfidenceIff(config: Config, raw: seq<Quote>, timestamp: Instant)
    requires raw != []
    ensures var at := KeptAt(raw, Median(Prices(raw)), config.maxDeviationPct);
            var outcome := Publish(config, raw, timestamp);
            outcome.Published? ==>
              && NonOutliers(raw, at, Median(Prices(raw)), config.maxDeviationPct) && at != []
              && (outcome.price.confidence == 100 <==>
                    |at| >= 5 && |at| > config.minSources
                    && Wrap256(Spread(PricesAt(raw, at)) * 100) < Median(PricesAt(raw, at)))
  {
    PublishedConfidenceIs(config, raw, timestamp);
    var at := KeptAt(raw, Median(Prices(raw)), config.maxDeviationPct);
    if Publish(config, raw, timestamp).Published? {
      FullIff(Publish(config, raw, timestamp).price.confidence, |at|, config.minSources, PricesAt(raw, at));
    }
  }

  // ----- the cache

  /** A cached price no older, or no further ahead, than the time-to-live in whole seconds is handed
      out as it is; otherwise the answers decide, and what they publish is cached. */
  lemma AskAnswers(config: Config, cache: map<CacheKey, CachedPrice>, r: Request)
    ensures var (cache', outcome) := Ask(config, cache, r);
            if r.key in cache && SecondsBetween(r.checkedAt, cache[r.key].cachedAt) <= config.cacheTtlSeconds
            then outcome == Published(cache[r.key].price) && cache' == cache
            else outcome == Publish(config, Collect(r.answers), r.stampedAt)
                 && cache' ==
                      if outcome.Published? then cache[r.key := CachedPrice(outcome.price, r.cachedAt)] else cache
  {
    if r.key in cache {
      WholeSecondsIs(r.checkedAt - cache[r.key].cachedAt);
    }
  }

  /** Over any run a request is answered from the cache exactly when some earlier one cached a price for
      its pair and the last of those did no more than the time-to-live ago; that price is handed out. */
  lemma AnsweredFromCacheIff(config: Config, requests: seq<Request>, r: Request)
    ensures r.key in AskAll(config, requests) <==> CachedIn(config, requests, r.key, |requests|)
    ensures var cache := AskAll(config, requests);
            r.key in cache ==>
              && (exists j: nat :: LastCached(config, requests, j, r.key, cache[r.key]))
              && (SecondsBetween(r.checkedAt, cache[r.key].cachedAt) <= config.cacheTtlSeconds ==>
                    Ask(config, cache, r) == (cache, Published(cache[r.key].price)))
    ensures var cache := AskAll(config, requests);
            !(r.key in cache && SecondsBetween(r.checkedAt, cache[r.key].cachedAt) <= config.cacheTtlSeconds) ==>
              Ask(config, cache, r).1 == Publish(config, Collect(r.answers), r.stampedAt)
  {
    assert requests[..|requests|] == requests;
    CachedIff(config, requests, r.key, |requests|);
    AskAnswers(config, AskAll(config, requests), r);
    if r.key in AskAll(config, requests) {
      CacheIsLast(config, requests, r.key);
    }
  }

  /** The whole seconds between two instants, whichever is earlier. */
  function SecondsBetween(a: Instant, b: Instant): nat { (if a >= b then a - b else b - a) / 1_000_000_000 }

  ghost predicate CachedIn(config: Config, requests: seq<Request>, key: CacheKey, n: nat)
    requires n <= |requests|
  {
    exists j :: 0 <= j < n && requests[j].key == key && Caches(config, requests, j)
  }

  lemma CachedNext(config: Config, requests: seq<Request>, key: CacheKey, n: nat)
    requires n < |requests|
    ensures CachedIn(config, requests, key, n + 1)
            <==> CachedIn(config, requests, key, n) || (requests[n].key == key && Caches(config, requests, n))
  {
  }

  lemma AskCachesIff(config: Config, requests: seq<Request>, key: CacheKey, n: nat, next: nat)
    requires next == n + 1 <= |requests|
    ensures key in AskAll(config, requests[..next])
            <==> key in AskAll(config, requests[..n]) || (requests[n].key == key && Caches(config, requests, n))
  {
    assert requests[..next][..n] == requests[..n];
  }

  lemma CachedStep(config: Config, requests: seq<Request>, key: CacheKey, n: nat, next: nat)
    requires next == n + 1 <= |requests|
    requires key in AskAll(config, requests[..n]) <==> CachedIn(config, requests, key, n)
    ensures key in AskAll(config, requests[..next]) <==> CachedIn(config, requests, key, next)
  {
    AskCachesIff(config, requests, key, n, next);
    CachedNext(config, requests, key, n);
  }

  lemma {:induction false} CachedIff(config: Config, requests: seq<Request>, key: CacheKey, n: nat)
    requires n <= |requests|
    ensures key in AskAll(config, requests[..n]) <==> CachedIn(config, requests, key, n)
  {
    if n > 0 {
      CachedIff(config, requests, key, n - 1);
      CachedStep(config, requests, key, n - 1, n);
    }
  }
}
