/** Median, mean, outlier test and confidence score of a list of prices. */
module PriceMath {
  import opened Machine
  import opened Sorting

  function Price(p: u256): int { p }

  function Sorted(prices: seq<u256>): seq<u256> {
    SortBy(prices, Price)
  }

  lemma SortedFacts(prices: seq<u256>)
    ensures var s := Sorted(prices);
            |s| == |prices| && multiset(s) == multiset(prices) && Ascending(s)
  {
    SortSorts(prices, Price);
    var s := Sorted(prices);
    forall i, j | 0 <= i < j < |s| ensures s[i] <= s[j] {
      assert Price(s[i]) <= Price(s[j]);
    }
  }

  function Plus(a: int, b: int): int { a + b }

  /** The source panics on an empty list. */
  function Median(prices: seq<u256>): u256
    requires prices != []
  {
    SortedFacts(prices);
    var s := Sorted(prices);
    var mid := |s| / 2;
    if |s| % 2 == 0 then Wrap256(Plus(s[mid - 1], s[mid])) / 2 else s[mid]
  }

  function Sum(prices: seq<u256>): nat {
    if prices == [] then 0 else prices[0] + Sum(prices[1..])
  }

  /** The running total of the source's fold, which wraps. */
  function FoldSum(acc: u256, prices: seq<u256>): u256
    decreases |prices|
  {
    if prices == [] then acc else FoldSum(Wrap256(acc + prices[0]), prices[1..])
  }

  function Mean(prices: seq<u256>): u256
    requires prices != []
  {
    FoldSum(0, prices) / |prices|
  }

  function Distance(a: u256, b: u256): u256 {
    if a > b then a - b else b - a
  }

  function Threshold(median: u256, maxDeviationPct: u64): u256 {
    Wrap256(median * maxDeviationPct) / 100
  }

  predicate IsOutlier(price: u256, median: u256, maxDeviationPct: u64) {
    median != 0 && Distance(price, median) > Threshold(median, maxDeviationPct)
  }

  function AgreementScore(prices: seq<u256>): u64
    requires prices != []
  {
    if |prices| < 2 then 25
    else
      SortedFacts(prices);
      var s := Sorted(prices);
      SpreadScore(s[|s| - 1] - s[0], Median(prices))
  }

  function SpreadScore(spread: u256, median: u256): u64 {
    if median == 0 then 0 else PctScore(Wrap256(spread * 100) / median)
  }

  /** 50 points for no spread, none for 20 percent or more. */
  function PctScore(spreadPct: nat): u64 {
    SatSub(50, Min(Min(spreadPct, U64_MAX) * 50, U64_MAX) / 20)
  }

  function Confidence(numSources: nat, minSources: nat, prices: seq<u256>): nat {
    if numSources == 0 || prices == [] then 0
    else CombinedScore(numSources, minSources, AgreementScore(prices))
  }

  /** Ten points a source up to five, plus agreement, less a penalty at the bare minimum. */
  function CombinedScore(numSources: nat, minSources: nat, agreement: nat): nat {
    var sourceScore := Min(Min(numSources, 5) * 10, 50);
    var penalty := if numSources <= minSources then 10 else 0;
    Min(SatSub(sourceScore + agreement, penalty), 100)
  }

  // ----- the median

  /** How many prices lie in [lo, hi]. */
  function InRange(prices: seq<u256>, lo: int, hi: int): nat {
    if prices == [] then 0
    else (if lo <= prices[0] <= hi then 1 else 0) + InRange(prices[1..], lo, hi)
  }

  /** The two middle prices of an even list add up without wrapping. */
  predicate MedianFits(prices: seq<u256>) {
    SortedFacts(prices);
    var s := Sorted(prices);
    |s| % 2 == 0 && |s| > 0 ==> Plus(s[|s| / 2 - 1], s[|s| / 2]) <= U256_MAX
  }

  lemma MedianOfMiddle(prices: seq<u256>)
    requires prices != [] && MedianFits(prices)
    ensures var s := Sorted(prices); var mid := |s| / 2;
            |s| == |prices| && s[(|s| - 1) / 2] <= Median(prices) <= s[mid]
  {
    SortedFacts(prices);
    var s := Sorted(prices);
    var mid := |s| / 2;
    if |s| % 2 == 0 {
      var both := Plus(s[mid - 1], s[mid]);
      DivModUnique(both, U256_MODULUS, 0, both);
      assert s[mid - 1] <= s[mid];
    }
  }

  lemma MedianOfOverflow(prices: seq<u256>)
    requires prices != [] && !MedianFits(prices)
    ensures var s := Sorted(prices);
            |s| == |prices| && |s| % 2 == 0 && Median(prices) < s[|s| / 2 - 1]
  {
    SortedFacts(prices);
    var s := Sorted(prices);
    var mid := |s| / 2;
    var both := Plus(s[mid - 1], s[mid]);
    DivModUnique(both, U256_MODULUS, 1, both - U256_MODULUS);
  }

  lemma {:induction false} InsertInRange(x: u256, s: seq<u256>, lo: int, hi: int)
    ensures InRange(Insert(x, s, Price), lo, hi) == InRange(s, lo, hi) + if lo <= x <= hi then 1 else 0
  {
    if s == [] || Price(x) <= Price(s[0]) {
      assert ([x] + s)[1..] == s;
    } else {
      InsertInRange(x, s[1..], lo, hi);
      assert ([s[0]] + Insert(x, s[1..], Price))[1..] == Insert(x, s[1..], Price);
    }
  }

  lemma {:induction false} SortedInRange(prices: seq<u256>, lo: int, hi: int)
    ensures InRange(Sorted(prices), lo, hi) == InRange(prices, lo, hi)
  {
    if prices != [] {
      SortedInRange(prices[1..], lo, hi);
      InsertInRange(prices[0], Sorted(prices[1..]), lo, hi);
    }
  }

  /** If every price of a stretch is in range, so many are at least. */
  lemma {:induction false} InRangeAtLeast(s: seq<u256>, lo: int, hi: int, from: nat, to: nat)
    requires from <= to <= |s| && forall i :: from <= i < to ==> lo <= s[i] <= hi
    ensures InRange(s, lo, hi) >= to - from
  {
    if s != [] && to > 0 {
      InRangeAtLeast(s[1..], lo, hi, if from == 0 then 0 else from - 1, to - 1);
    }
  }

  /** If only prices of a stretch are in range, no more are. */
  lemma {:induction false} InRangeAtMost(s: seq<u256>, lo: int, hi: int, from: nat, to: nat)
    requires from <= to <= |s| && forall i :: 0 <= i < |s| && lo <= s[i] <= hi ==> from <= i < to
    ensures InRange(s, lo, hi) <= to - from
  {
    if s != [] {
      if to == 0 {
        InRangeAtMost(s[1..], lo, hi, 0, 0);
      } else {
        InRangeAtMost(s[1..], lo, hi, if from == 0 then 0 else from - 1, to - 1);
      }
    }
  }

  lemma SortedSplit(s: seq<u256>, m: int)
    requires Ascending(s) && s != []
    requires s[(|s| - 1) / 2] <= m <= s[|s| / 2]
    ensures 2 * InRange(s, 0, m) >= |s| && 2 * InRange(s, m, U256_MAX) >= |s|
  {
    InRangeAtLeast(s, 0, m, 0, (|s| - 1) / 2 + 1);
    InRangeAtLeast(s, m, U256_MAX, |s| / 2, |s|);
  }

  /** The median splits the list (at least half the prices on each side) exactly when the sum
      of the two middle ones does not wrap. */
  lemma MedianSplitsIff(prices: seq<u256>)
    requires prices != []
    ensures var m := Median(prices);
            2 * InRange(prices, 0, m) >= |prices| && 2 * InRange(prices, m, U256_MAX) >= |prices|
            <==> MedianFits(prices)
  {
    var s, m := Sorted(prices), Median(prices);
    SortedFacts(prices);
    SortedInRange(prices, 0, m);
    SortedInRange(prices, m, U256_MAX);
    if MedianFits(prices) {
      MedianOfMiddle(prices);
      SortedSplit(s, m);
    } else {
      MedianOfOverflow(prices);
      InRangeAtMost(s, 0, m, 0, |s| / 2 - 1);
    }
  }

  /** The median does not depend on the order of the prices. */
  lemma MedianIgnoresOrder(a: seq<u256>, b: seq<u256>)
    requires multiset(a) == multiset(b) && a != [] && b != []
    ensures Sorted(a) == Sorted(b) && Median(a) == Median(b)
  {
    SortedFacts(a);
    SortedFacts(b);
    SortedIsUnique(Sorted(a), Sorted(b));
  }

  lemma SortedMajority(s: seq<u256>, lo: int, hi: int)
    requires Ascending(s) && 2 * InRange(s, lo, hi) > |s|
    ensures s != [] && lo <= s[(|s| - 1) / 2] && s[|s| / 2] <= hi
  {
    if s[(|s| - 1) / 2] < lo {
      InRangeAtMost(s, lo, hi, (|s| - 1) / 2 + 1, |s|);
    }
    if s[|s| / 2] > hi {
      InRangeAtMost(s, lo, hi, 0, |s| / 2);
    }
  }

  /** Breakdown point: a majority inside an interval holds the median there, whatever the
      other prices are. */
  lemma MajorityHoldsMedian(prices: seq<u256>, lo: int, hi: int)
    requires prices != [] && MedianFits(prices)
    requires 2 * InRange(prices, lo, hi) > |prices|
    ensures lo <= Median(prices) <= hi
  {
    SortedFacts(prices);
    MedianOfMiddle(prices);
    SortedInRange(prices, lo, hi);
    SortedMajority(Sorted(prices), lo, hi);
  }

  /** In particular the median lies between any bounds on all prices. */
  lemma MedianBetween(prices: seq<u256>, lo: int, hi: int)
    requires prices != [] && MedianFits(prices)
    requires forall i :: 0 <= i < |prices| ==> lo <= prices[i] <= hi
    ensures lo <= Median(prices) <= hi
  {
    InRangeAtLeast(prices, lo, hi, 0, |prices|);
    MajorityHoldsMedian(prices, lo, hi);
  }

  // ----- the mean

  lemma {:induction false} FoldWrapsSum(acc: u256, prices: seq<u256>)
    ensures FoldSum(acc, prices) == Wrap256(acc + Sum(prices))
    decreases |prices|
  {
    if prices == [] {
      DivModUnique(acc, U256_MODULUS, 0, acc);
    } else {
      FoldWrapsSum(Wrap256(acc + prices[0]), prices[1..]);
      ModStep(acc + prices[0], Sum(prices[1..]), U256_MODULUS);
    }
  }

  lemma OneMore(x: int, n: nat)
    ensures x * (n + 1) == x * n + x
  {
  }

  lemma {:induction false} SumBetween(prices: seq<u256>, lo: int, hi: int)
    requires forall i :: 0 <= i < |prices| ==> lo <= prices[i] <= hi
    ensures lo * |prices| <= Sum(prices) <= hi * |prices|
  {
    if prices != [] {
      SumBetween(prices[1..], lo, hi);
      OneMore(lo, |prices| - 1);
      OneMore(hi, |prices| - 1);
    }
  }

  /** Without wrap-around the mean, rounded down, lies between any bounds on all prices. */
  lemma MeanBetween(prices: seq<u256>, lo: int, hi: int)
    requires prices != [] && Sum(prices) <= U256_MAX
    requires forall i :: 0 <= i < |prices| ==> lo <= prices[i] <= hi
    ensures lo <= Mean(prices) <= hi
  {
    FoldWrapsSum(0, prices);
    DivModUnique(Sum(prices), U256_MODULUS, 0, Sum(prices));
    SumBetween(prices, lo, hi);
    var n := |prices|;
    DivMonotone(lo * n, Sum(prices), n);
    DivMonotone(Sum(prices), hi * n, n);
    DivModUnique(lo * n, n, lo, 0);
    DivModUnique(hi * n, n, hi, 0);
  }

  lemma {:induction false} SumInsert(x: u256, s: seq<u256>)
    ensures Sum(Insert(x, s, Price)) == x + Sum(s)
  {
    if s == [] || Price(x) <= Price(s[0]) {
      assert ([x] + s)[1..] == s;
    } else {
      SumInsert(x, s[1..]);
      assert ([s[0]] + Insert(x, s[1..], Price))[1..] == Insert(x, s[1..], Price);
    }
  }

  lemma {:induction false} SumSorted(prices: seq<u256>)
    ensures Sum(Sorted(prices)) == Sum(prices)
  {
    if prices != [] {
      SumSorted(prices[1..]);
      SumInsert(prices[0], Sorted(prices[1..]));
    }
  }

  lemma {:induction false} SumCoversPair(s: seq<u256>, i: nat)
    requires i + 1 < |s|
    ensures Plus(s[i], s[i + 1]) <= Sum(s)
  {
    if i > 0 {
      SumCoversPair(s[1..], i - 1);
    } else {
      assert s[1..][0] == s[1];
    }
  }

  /** Nor does the mean, wrapping included. */
  lemma MeanIgnoresOrder(a: seq<u256>, b: seq<u256>)
    requires multiset(a) == multiset(b) && a != [] && b != []
    ensures Mean(a) == Mean(b)
  {
    assert |multiset(a)| == |a| && |multiset(b)| == |b|;
    MedianIgnoresOrder(a, b);
    SumSorted(a);
    SumSorted(b);
    FoldWrapsSum(0, a);
    FoldWrapsSum(0, b);
  }

  /** Prices whose total fits 256 bits have a median that does not wrap either. */
  lemma SumFitsMedian(prices: seq<u256>)
    requires Sum(prices) <= U256_MAX
    ensures MedianFits(prices)
  {
    SortedFacts(prices);
    var s := Sorted(prices);
    if |s| % 2 == 0 && |s| > 0 {
      SumSorted(prices);
      SumCoversPair(s, |s| / 2 - 1);
    }
  }

  // ----- the confidence score

  lemma PctLowersScore(pct: nat, more: nat)
    requires pct <= more
    ensures PctScore(more) <= PctScore(pct) <= 50
  {
    var a, b := Min(Min(pct, U64_MAX) * 50, U64_MAX), Min(Min(more, U64_MAX) * 50, U64_MAX);
    DivMonotone(a, b, 20);
  }

  lemma SpreadLowersScore(spread: u256, wider: u256, median: u256)
    requires spread <= wider && wider * 100 <= U256_MAX
    ensures SpreadScore(wider, median) <= SpreadScore(spread, median)
  {
    if median != 0 {
      DivModUnique(spread * 100, U256_MODULUS, 0, spread * 100);
      DivModUnique(wider * 100, U256_MODULUS, 0, wider * 100);
      DivMonotone(spread * 100, wider * 100, median);
      PctLowersScore(spread * 100 / median, wider * 100 / median);
    }
  }

  function Spread(prices: seq<u256>): u256
    requires prices != []
  {
    SortedFacts(prices);
    Sorted(prices)[|prices| - 1] - Sorted(prices)[0]
  }

  lemma AgreementFallsWithSpread(a: seq<u256>, b: seq<u256>)
    requires a != [] && |a| == |b| && Median(a) == Median(b)
    requires Spread(a) <= Spread(b) && Spread(b) * 100 <= U256_MAX
    ensures AgreementScore(b) <= AgreementScore(a)
  {
    if |a| >= 2 {
      SortedFacts(a);
      SortedFacts(b);
      SpreadLowersScore(Spread(a), Spread(b), Median(a));
    }
  }

  /** The score is at most 100, and for the same number of sources and the same median a wider
      spread never scores higher. */
  lemma ConfidenceFallsWithSpread(numSources: nat, minSources: nat, a: seq<u256>, b: seq<u256>)
    requires a != [] && |a| == |b| && Median(a) == Median(b)
    requires Spread(a) <= Spread(b) && Spread(b) * 100 <= U256_MAX
    ensures Confidence(numSources, minSources, b) <= Confidence(numSources, minSources, a) <= 100
  {
    AgreementFallsWithSpread(a, b);
  }

  lemma PctScoreEnds(pct: nat)
    ensures PctScore(pct) == 50 <==> pct == 0
    ensures PctScore(pct) == 0 <==> pct >= 20
  {
  }

  lemma CombinedScoreIs(numSources: nat, minSources: nat, agreement: nat)
    requires numSources >= 1 && agreement <= 50
    ensures CombinedScore(numSources, minSources, agreement)
            == Min(numSources, 5) * 10 + agreement - if numSources <= minSources then 10 else 0
  {
  }

  /** What the score makes of the spread, in products. */
  lemma SpreadScoreIs(scaled: nat, median: u256)
    requires median > 0
    ensures 0 <= scaled / median
    ensures PctScore(scaled / median) == 50 <==> scaled < median
    ensures scaled >= 20 * median ==> PctScore(scaled / median) == 0
  {
    QuotientAtLeast(scaled, median, 0);
    QuotientAtLeast(scaled, median, 1);
    QuotientAtLeast(scaled, median, 20);
    PctScoreEnds(scaled / median);
  }

  lemma SpreadScoreEnds(spread: u256, median: u256)
    requires median > 0
    ensures SpreadScore(spread, median) <= 50
    ensures SpreadScore(spread, median) == 50 <==> Wrap256(spread * 100) < median
    ensures Wrap256(spread * 100) >= 20 * median ==> SpreadScore(spread, median) == 0
  {
    SpreadScoreIs(Wrap256(spread * 100), median);
  }

  /** The score of two or more prices. */
  lemma ConfidenceIs(numSources: nat, minSources: nat, prices: seq<u256>, spread: u256, median: u256)
    requires |prices| >= 2 && numSources >= 1
    requires spread == Spread(prices) && median == Median(prices) > 0
    ensures Confidence(numSources, minSources, prices)
            == Min(numSources, 5) * 10 + SpreadScore(spread, median) - if numSources <= minSources then 10 else 0
  {
    SortedFacts(prices);
    SpreadScoreEnds(spread, median);
    assert AgreementScore(prices) == SpreadScore(spread, median);
    CombinedScoreIs(numSources, minSources, SpreadScore(spread, median));
  }

  /** Two or more prices get the full score exactly when five sources, and more than the minimum,
      agree to within one percent of the median, as the code computes it; a spread that it takes for
      a fifth of the median or more leaves nothing but ten points a source, less the penalty. */
  lemma ConfidenceEnds(numSources: nat, minSources: nat, prices: seq<u256>)
    requires |prices| >= 2 && numSources > 0
    ensures var m, c := Median(prices), Confidence(numSources, minSources, prices);
            var scaled := Wrap256(Spread(prices) * 100);
            m > 0 ==>
            && (c == 100 <==> numSources >= 5 && numSources > minSources && scaled < m)
            && (scaled >= 20 * m ==> c == Min(numSources, 5) * 10 - if numSources <= minSources then 10 else 0)
  {
    var m, spread := Median(prices), Spread(prices);
    if m > 0 {
      ConfidenceIs(numSources, minSources, prices, spread, m);
      SpreadScoreEnds(spread, m);
    }
  }

  /** With the true spread in place of the wrapped one, the full score is given exactly when it should
      be if and only if a hundred times the spread fits, or nothing hangs on it. */
  lemma FullScoreIsDueIff(numSources: nat, minSources: nat, prices: seq<u256>)
    requires |prices| >= 2 && numSources > 0
    ensures var m, c := Median(prices), Confidence(numSources, minSources, prices);
            m > 0 ==>
            ((c == 100 <==> numSources >= 5 && numSources > minSources && Spread(prices) * 100 < m)
             <==> Spread(prices) * 100 <= U256_MAX || numSources < 5 || numSources <= minSources
                  || Wrap256(Spread(prices) * 100) >= m)
  {
    ConfidenceEnds(numSources, minSources, prices);
    if Spread(prices) * 100 <= U256_MAX {
      NoWrap(Spread(prices) * 100);
    }
  }

  // ----- how wide a spread may get before the score rises again

  /** The largest spread whose hundredfold fits 256 bits. */
  const WidestSpread: nat := U256_MAX / 100

  /** Three prices with the given median and spread. */
  function Triple(median: u256, spread: u256): seq<u256> {
    if spread <= median then var low: u256 := Minus(median, spread); [low, median, median] else [0, median, spread]
  }

  function Minus(a: u256, b: u256): u256
    requires b <= a
  {
    var x: int := a;
    x - b
  }

  lemma TripleIs(median: u256, spread: u256)
    ensures var t := Triple(median, spread); |t| == 3 && Median(t) == median && Spread(t) == spread
  {
    var t := Triple(median, spread);
    assert t[1..] == [t[1], t[2]] && t[1..][1..] == [t[2]] && t[1..][1..][1..] == [];
    assert SortBy(t[1..][1..], Price) == [t[2]];
    assert SortBy(t[1..], Price) == [t[1], t[2]];
    assert Sorted(t) == t;
  }

  lemma PctScoreStrict(pct: nat, more: nat)
    requires pct < more && pct < 20
    ensures PctScore(more) < PctScore(pct)
  {
    PctLowersScore(pct + 1, more);
  }

  lemma QuotientsAtWidest(median: u256)
    requires 4 <= median <= WidestSpread * 100
    ensures 64 / median < WidestSpread * 100 / median && 64 / median < 20
  {
    QuotientAtLeast(WidestSpread * 100, median, 1);
    QuotientAtLeast(WidestSpread * 100, median, 20);
    QuotientAtLeast(64, median, 1);
    QuotientAtLeast(64, median, 20);
  }

  /** One more than the widest spread wraps to 64. */
  lemma ScaledAtWidest()
    ensures Wrap256(WidestSpread * 100) == WidestSpread * 100 && Wrap256((WidestSpread + 1) * 100) == 64
  {
    NoWrap(WidestSpread * 100);
    DivModUnique((WidestSpread + 1) * 100, U256_MODULUS, 1, 64);
  }

  lemma ScoreRises(spread: u256, wider: u256, x: nat, y: nat, median: u256)
    requires median > 0 && x == Wrap256(spread * 100) && y == Wrap256(wider * 100)
    requires y / median < x / median && y / median < 20
    ensures SpreadScore(spread, median) < SpreadScore(wider, median)
  {
    QuotientAtLeast(y, median, 0);
    PctScoreStrict(y / median, x / median);
  }

  lemma ScoreRisesAfterWidest(median: u256)
    requires 4 <= median <= WidestSpread * 100
    ensures SpreadScore(WidestSpread, median) < SpreadScore(WidestSpread + 1, median)
  {
    ScaledAtWidest();
    QuotientsAtWidest(median);
    ScoreRises(WidestSpread, WidestSpread + 1, WidestSpread * 100, 64, median);
  }

  /** For lists of this median, the wider spread never scores higher, up to this spread. */
  ghost predicate FallsUpTo(numSources: nat, minSources: nat, median: u256, widest: u256) {
    forall a: seq<u256>, b: seq<u256> ::
      a != [] && |a| == |b| && Median(a) == median && Median(b) == median && Spread(a) <= Spread(b) <= widest ==>
        Confidence(numSources, minSources, b) <= Confidence(numSources, minSources, a)
  }

  /** For every median but the three smallest and those that no hundredfold spread reaches, the score
      falls with the spread exactly up to the widest one whose hundredfold fits 256 bits. */
  lemma ConfidenceFallsUpToIff(numSources: nat, minSources: nat, median: u256, widest: u256)
    requires numSources >= 1 && 4 <= median <= WidestSpread * 100
    ensures FallsUpTo(numSources, minSources, median, widest) <==> widest <= WidestSpread
  {
    if widest <= WidestSpread {
      forall a: seq<u256>, b: seq<u256> |
        a != [] && |a| == |b| && Median(a) == median && Median(b) == median && Spread(a) <= Spread(b) <= widest
        ensures Confidence(numSources, minSources, b) <= Confidence(numSources, minSources, a)
      {
        ConfidenceFallsWithSpread(numSources, minSources, a, b);
      }
    } else {
      var a, b := Triple(median, WidestSpread), Triple(median, WidestSpread + 1);
      TripleIs(median, WidestSpread);
      TripleIs(median, WidestSpread + 1);
      ConfidenceIs(numSources, minSources, a, WidestSpread, median);
      ConfidenceIs(numSources, minSources, b, WidestSpread + 1, median);
      ScoreRisesAfterWidest(median);
      assert Confidence(numSources, minSources, a) < Confidence(numSources, minSources, b);
    }
  }

  lemma ConfidenceIgnoresOrder(numSources: nat, minSources: nat, a: seq<u256>, b: seq<u256>)
    requires multiset(a) == multiset(b)
    ensures Confidence(numSources, minSources, a) == Confidence(numSources, minSources, b)
  {
    assert |multiset(a)| == |a| && |multiset(b)| == |b|;
    if a != [] && b != [] {
      MedianIgnoresOrder(a, b);
    }
  }
}
