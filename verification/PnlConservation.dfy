/** What is recorded is conserved: summed over all days or all tokens, the aggregates add up to
    the totals of the history. */
module PnlConservation {
  import opened Machine
  import opened Sums
  import opened Pnl
  import opened PnlWindow
  import opened PnlAggregates
  import opened PnlTokens
  import opened PnlRuns

  // ----- over the days

  function RealizedOn(daily: map<int, DailyPnl>): int -> int {
    day => DayEntry(daily, day).realizedPnlWei
  }

  lemma DaysCover(s: Books, h: seq<Entry>, e: Entry)
    requires DaysAgree(s, h) && e in h && I64_MIN <= e.record.pnlWei <= I64_MAX
    ensures SetSum(s.daily.Keys, Contribution(DayPnl, e)) == Realized()(e)
  {
    var at :| 0 <= at < |h| && h[at] == e;
    var day := DayOf(e.record.timestamp);
    DayHasEntry(h, at);
    assert DayMatches(s.daily, h, day);
    forall k | k in s.daily.Keys
      ensures Contribution(DayPnl, e)(k) == If(k == day, Realized()(e))
    {
      assert Contribution(DayPnl, e)(k) == DayPnl(k)(e);
    }
    SetSumPoint(s.daily.Keys, day, Realized()(e), Contribution(DayPnl, e));
  }

  /** While no P&L clamps and no day saturates, the realized P&L of the days adds up to the
      running total. */
  lemma DaysSumToTotal(config: Config, s: Books, h: seq<Entry>)
    requires Agrees(config, s, h)
    requires forall e :: e in h ==> I64_MIN <= e.record.pnlWei <= I64_MAX
    requires forall day :: day in s.daily ==> SumOver(h, DayVolume(day)) <= I128_MAX
    ensures WrapI64(SetSum(s.daily.Keys, RealizedOn(s.daily))) == s.totalRealizedWei
  {
    var days := s.daily.Keys;
    forall e | e in h ensures SetSum(days, Contribution(DayPnl, e)) == Realized()(e) {
      DaysCover(s, h, e);
    }
    Exchange(h, days, DayPnl, Realized());
    forall day | day in days ensures RealizedOn(s.daily)(day) == Totals(h, DayPnl)(day) {
      assert DayMatches(s.daily, h, day);
    }
    SetSumSame(days, RealizedOn(s.daily), Totals(h, DayPnl));
  }

  // ----- over the tokens

  function CountAt(tokens: map<TokenKey, TokenPnl>): TokenKey -> int { k => TokenEntry(tokens, k).fillCount }

  function BoughtAt(tokens: map<TokenKey, TokenPnl>): TokenKey -> int { k => TokenEntry(tokens, k).totalBought }

  function SoldAt(tokens: map<TokenKey, TokenPnl>): TokenKey -> int { k => TokenEntry(tokens, k).totalSold }

  function GasAt(tokens: map<TokenKey, TokenPnl>): TokenKey -> int { k => TokenEntry(tokens, k).totalGasWei }

  function NetAt(tokens: map<TokenKey, TokenPnl>): TokenKey -> int { k => TokenEntry(tokens, k).netPnlWei }

  function Two(): Entry -> int { (e: Entry) => 2 }

  function AmountOut(): Entry -> int { (e: Entry) => e.record.amountOut }

  function AmountIn(): Entry -> int { (e: Entry) => e.record.amountIn }

  function EvenGas(): Entry -> int { (e: Entry) => HalfGas(e.record) + HalfGas(e.record) }

  function GasCost(): Entry -> int { (e: Entry) => e.record.gasCostWei }

  function OddGas(): Entry -> int { (e: Entry) => e.record.gasCostWei % 2 }

  function TwoShares(): Entry -> int { (e: Entry) => Share(e) + Share(e) }

  /** The P&L of a fill that was confirmed when it was recorded. */
  function ConfirmedPnl(): Entry -> int { (e: Entry) => If(e.record.status.Confirmed?, e.record.pnlWei) }

  /** No token's aggregate has saturated. */
  ghost predicate Unsaturated(h: seq<Entry>, k: TokenKey) {
    && SumOver(h, Legs(k)) <= U32_MAX && SumOver(h, Bought(k)) <= U256_MAX && SumOver(h, Sold(k)) <= U256_MAX
    && SumOver(h, LegGas(k)) <= U128_MAX && SumOver(h, LegVolume(k)) <= I128_MAX
  }

  lemma {:induction false} LegsPresent(h: seq<Entry>, at: nat)
    requires at < |h|
    ensures SumOver(h, Legs(InKey(h[at].record))) > 0 && SumOver(h, Legs(OutKey(h[at].record))) > 0
  {
    var e := h[at];
    LegsNonnegative(h[..|h| - 1], InKey(e.record));
    LegsNonnegative(h[..|h| - 1], OutKey(e.record));
    if at < |h| - 1 {
      LegsPresent(h[..|h| - 1], at);
    }
  }

  lemma KeysCover(s: Books, h: seq<Entry>, e: Entry)
    requires (forall k :: TokenMatches(s.tokens, h, k)) && e in h
    ensures InKey(e.record) in s.tokens && OutKey(e.record) in s.tokens
  {
    var at :| 0 <= at < |h| && h[at] == e;
    LegsPresent(h, at);
    assert TokenMatches(s.tokens, h, InKey(e.record)) && TokenMatches(s.tokens, h, OutKey(e.record));
  }

  /** A per-key quantity that each fill adds to at its two keys sums to what it adds at both. */
  lemma LegsConserve(s: Books, h: seq<Entry>, f: TokenKey -> Entry -> int,
                     onInput: Entry -> int, onOutput: Entry -> int,
                     both: Entry -> int)
    requires forall k :: TokenMatches(s.tokens, h, k)
    requires forall k, e :: f(k)(e) == AtKey(e, k, onInput(e), onOutput(e))
    requires forall e :: both(e) == onInput(e) + onOutput(e)
    ensures SetSum(s.tokens.Keys, Totals(h, f)) == SumOver(h, both)
  {
    var keys := s.tokens.Keys;
    forall e | e in h ensures SetSum(keys, Contribution(f, e)) == both(e) {
      KeysCover(s, h, e);
      forall k | k in keys ensures Contribution(f, e)(k) == AtKey(e, k, onInput(e), onOutput(e)) {
        assert Contribution(f, e)(k) == f(k)(e);
      }
      SetSumTwoPoints(keys, InKey(e.record), onInput(e), OutKey(e.record), onOutput(e), Contribution(f, e));
    }
    Exchange(h, keys, f, both);
  }

  lemma {:induction false} EvenGasIs(h: seq<Entry>)
    ensures SumOver(h, Two()) == 2 * |h|
    ensures SumOver(h, EvenGas()) == SumOver(h, GasCost()) - SumOver(h, OddGas())
  {
    if h != [] {
      EvenGasIs(h[..|h| - 1]);
    }
  }

  /** The count, bought and sold aggregates, summed over the tokens. */
  lemma AmountsConserve(s: Books, h: seq<Entry>)
    requires forall k :: TokenMatches(s.tokens, h, k)
    requires forall k :: k in s.tokens ==> Unsaturated(h, k)
    ensures SetSum(s.tokens.Keys, CountAt(s.tokens)) == SumOver(h, Two())
    ensures SetSum(s.tokens.Keys, BoughtAt(s.tokens)) == SumOver(h, AmountOut())
    ensures SetSum(s.tokens.Keys, SoldAt(s.tokens)) == SumOver(h, AmountIn())
  {
    var keys, tokens := s.tokens.Keys, s.tokens;
    forall k | k in keys
      ensures CountAt(tokens)(k) == Totals(h, Legs)(k)
      ensures BoughtAt(tokens)(k) == Totals(h, Bought)(k)
      ensures SoldAt(tokens)(k) == Totals(h, Sold)(k)
    {
      assert TokenMatches(tokens, h, k) && Unsaturated(h, k);
    }
    SetSumSame(keys, CountAt(tokens), Totals(h, Legs));
    SetSumSame(keys, BoughtAt(tokens), Totals(h, Bought));
    SetSumSame(keys, SoldAt(tokens), Totals(h, Sold));
    LegsConserve(s, h, Legs, e => 1, e => 1, Two());
    LegsConserve(s, h, Bought, e => 0, AmountOut(), AmountOut());
    LegsConserve(s, h, Sold, AmountIn(), e => 0, AmountIn());
  }

  /** The gas and P&L aggregates, summed over the tokens. */
  lemma SharesConserve(s: Books, h: seq<Entry>)
    requires forall k :: TokenMatches(s.tokens, h, k)
    requires forall k :: k in s.tokens ==> Unsaturated(h, k)
    ensures SetSum(s.tokens.Keys, GasAt(s.tokens)) == SumOver(h, EvenGas())
    ensures SetSum(s.tokens.Keys, NetAt(s.tokens)) == SumOver(h, TwoShares())
  {
    var keys, tokens := s.tokens.Keys, s.tokens;
    forall k | k in keys
      ensures GasAt(tokens)(k) == Totals(h, LegGas)(k)
      ensures NetAt(tokens)(k) == Totals(h, LegPnl)(k)
    {
      assert TokenMatches(tokens, h, k) && Unsaturated(h, k);
    }
    SetSumSame(keys, GasAt(tokens), Totals(h, LegGas));
    SetSumSame(keys, NetAt(tokens), Totals(h, LegPnl));
    LegsConserve(s, h, LegGas, (e: Entry) => HalfGas(e.record), (e: Entry) => HalfGas(e.record), EvenGas());
    LegsConserve(s, h, LegPnl, Share, Share, TwoShares());
  }

  lemma SharesAreNearPnl(h: seq<Entry>)
    ensures Abs(SumOver(h, TwoShares()) - SumOver(h, ConfirmedPnl())) <= |h|
  {
    SumWithin(h, ConfirmedPnl(), TwoShares(), 1);
  }

  lemma MatchesConserve(s: Books, h: seq<Entry>)
    requires forall k :: TokenMatches(s.tokens, h, k)
    requires forall k :: k in s.tokens ==> Unsaturated(h, k)
    ensures SetSum(s.tokens.Keys, CountAt(s.tokens)) == 2 * |h|
    ensures SetSum(s.tokens.Keys, BoughtAt(s.tokens)) == SumOver(h, AmountOut())
    ensures SetSum(s.tokens.Keys, SoldAt(s.tokens)) == SumOver(h, AmountIn())
    ensures SetSum(s.tokens.Keys, GasAt(s.tokens)) == SumOver(h, GasCost()) - SumOver(h, OddGas())
    ensures Abs(SetSum(s.tokens.Keys, NetAt(s.tokens)) - SumOver(h, ConfirmedPnl())) <= |h|
  {
    AmountsConserve(s, h);
    SharesConserve(s, h);
    EvenGasIs(h);
    SharesAreNearPnl(h);
  }

  /** Summed over the tokens: the counts are twice the fills, bought and sold are the amounts out
      and in, the gas is the total less one wei per odd-gas fill, and the P&L is within one wei
      per fill of that of the fills recorded as confirmed. */
  lemma TokensConserve(config: Config, s: Books, h: seq<Entry>)
    requires Agrees(config, s, h) && config.trackPerToken
    requires forall k :: k in s.tokens ==> Unsaturated(h, k)
    ensures SetSum(s.tokens.Keys, CountAt(s.tokens)) == 2 * |h|
    ensures SetSum(s.tokens.Keys, BoughtAt(s.tokens)) == SumOver(h, AmountOut())
    ensures SetSum(s.tokens.Keys, SoldAt(s.tokens)) == SumOver(h, AmountIn())
    ensures SetSum(s.tokens.Keys, GasAt(s.tokens)) == SumOver(h, GasCost()) - SumOver(h, OddGas())
    ensures Abs(SetSum(s.tokens.Keys, NetAt(s.tokens)) - SumOver(h, ConfirmedPnl())) <= |h|
  {
    MatchesConserve(s, h);
  }
}
