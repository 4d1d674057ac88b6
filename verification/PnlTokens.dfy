/** The per-token aggregates: each fill is two legs, one for each of its tokens. */
module PnlTokens {
  import opened Machine
  import opened Sums
  import opened Pnl
  import opened PnlWindow
  import opened PnlAggregates

  /** The sum over an entry's legs at key `k` of a value for the input and the output leg. */
  function AtKey(e: Entry, k: TokenKey, onInput: int, onOutput: int): int {
    If(InKey(e.record) == k, onInput) + If(OutKey(e.record) == k, onOutput)
  }

  /** The P&L share of a leg counts if the fill was already confirmed when it was recorded. */
  function Share(e: Entry): int { If(e.record.status.Confirmed?, HalfPnl(e.record)) }

  function Legs(k: TokenKey): Entry -> int { (e: Entry) => AtKey(e, k, 1, 1) }

  function Bought(k: TokenKey): Entry -> int { (e: Entry) => AtKey(e, k, 0, e.record.amountOut) }

  function Sold(k: TokenKey): Entry -> int { (e: Entry) => AtKey(e, k, e.record.amountIn, 0) }

  function LegGas(k: TokenKey): Entry -> int { (e: Entry) => AtKey(e, k, HalfGas(e.record), HalfGas(e.record)) }

  function LegPnl(k: TokenKey): Entry -> int { (e: Entry) => AtKey(e, k, Share(e), Share(e)) }

  function LegVolume(k: TokenKey): Entry -> int { (e: Entry) => AtKey(e, k, Abs(Share(e)), Abs(Share(e))) }

  /** The aggregate of the given exact totals: the unsigned ones saturate, the P&L is exact as
      long as the sum of its shares' sizes fits. */
  ghost predicate Aggregates(t: TokenPnl, legs: int, bought: int, sold: int, gas: int, pnl: int, volume: int) {
    && t.fillCount == Min(legs, U32_MAX)
    && t.totalBought == Min(bought, U256_MAX)
    && t.totalSold == Min(sold, U256_MAX)
    && t.totalGasWei == Min(gas, U128_MAX)
    && Abs(pnl) <= volume
    && (volume <= I128_MAX ==> t.netPnlWei == pnl)
  }

  ghost predicate TokenMatches(tokens: map<TokenKey, TokenPnl>, h: seq<Entry>, k: TokenKey) {
    && (k in tokens <==> SumOver(h, Legs(k)) > 0)
    && Aggregates(TokenEntry(tokens, k), SumOver(h, Legs(k)), SumOver(h, Bought(k)), SumOver(h, Sold(k)),
                  SumOver(h, LegGas(k)), SumOver(h, LegPnl(k)), SumOver(h, LegVolume(k)))
  }

  lemma LegAggregates(t: TokenPnl, legs: int, bought: int, sold: int, gas: int, pnl: int, volume: int,
                      r: FillRecord, bought': u256, sold': u256)
    requires Aggregates(t, legs, bought, sold, gas, pnl, volume)
    ensures var share := If(r.status.Confirmed?, HalfPnl(r));
            Aggregates(TokenAfterLeg(t, bought', sold', HalfGas(r), HalfPnl(r), r.status),
                       legs + 1, bought + bought', sold + sold', gas + HalfGas(r), pnl + share, volume + Abs(share))
  {
  }

  lemma {:induction false} LegsNonnegative(h: seq<Entry>, k: TokenKey)
    ensures 0 <= SumOver(h, Legs(k))
  {
    if h != [] {
      LegsNonnegative(h[..|h| - 1], k);
    }
  }

  lemma TokenSnoc(h: seq<Entry>, e: Entry, k: TokenKey)
    ensures SumOver(h + [e], Legs(k)) == SumOver(h, Legs(k)) + AtKey(e, k, 1, 1)
    ensures SumOver(h + [e], Bought(k)) == SumOver(h, Bought(k)) + AtKey(e, k, 0, e.record.amountOut)
    ensures SumOver(h + [e], Sold(k)) == SumOver(h, Sold(k)) + AtKey(e, k, e.record.amountIn, 0)
    ensures SumOver(h + [e], LegGas(k)) == SumOver(h, LegGas(k)) + AtKey(e, k, HalfGas(e.record), HalfGas(e.record))
    ensures SumOver(h + [e], LegPnl(k)) == SumOver(h, LegPnl(k)) + AtKey(e, k, Share(e), Share(e))
    ensures SumOver(h + [e], LegVolume(k)) == SumOver(h, LegVolume(k)) + AtKey(e, k, Abs(Share(e)), Abs(Share(e)))
  {
    SumSnoc(h, e, Legs(k));
    SumSnoc(h, e, Bought(k));
    SumSnoc(h, e, Sold(k));
    SumSnoc(h, e, LegGas(k));
    SumSnoc(h, e, LegPnl(k));
    SumSnoc(h, e, LegVolume(k));
  }

  /** One key's entry after the legs of a fill that are at that key. */
  function AfterLegs(t: TokenPnl, r: FillRecord, k: TokenKey): TokenPnl {
    var first := if InKey(r) == k then TokenAfterLeg(t, 0, r.amountIn, HalfGas(r), HalfPnl(r), r.status) else t;
    if OutKey(r) == k then TokenAfterLeg(first, r.amountOut, 0, HalfGas(r), HalfPnl(r), r.status) else first
  }

  lemma EntryAfterRecord(config: Config, tokens: map<TokenKey, TokenPnl>, r: FillRecord, k: TokenKey)
    requires config.trackPerToken
    ensures var after := TokensAfterRecord(config, tokens, r);
            && TokenEntry(after, k) == AfterLegs(TokenEntry(tokens, k), r, k)
            && (k in after <==> k in tokens || InKey(r) == k || OutKey(r) == k)
  {
  }

  lemma LegsAggregate(t: TokenPnl, legs: int, bought: int, sold: int, gas: int, pnl: int, volume: int, e: Entry,
                      k: TokenKey)
    requires Aggregates(t, legs, bought, sold, gas, pnl, volume)
    ensures Aggregates(AfterLegs(t, e.record, k), legs + AtKey(e, k, 1, 1), bought + AtKey(e, k, 0, e.record.amountOut),
                       sold + AtKey(e, k, e.record.amountIn, 0),
                       gas + AtKey(e, k, HalfGas(e.record), HalfGas(e.record)),
                       pnl + AtKey(e, k, Share(e), Share(e)), volume + AtKey(e, k, Abs(Share(e)), Abs(Share(e))))
  {
    var r := e.record;
    var first := TokenAfterLeg(t, 0, r.amountIn, HalfGas(r), HalfPnl(r), r.status);
    if InKey(r) == k {
      LegAggregates(t, legs, bought, sold, gas, pnl, volume, r, 0, r.amountIn);
      if OutKey(r) == k {
        LegAggregates(first, legs + 1, bought, sold + r.amountIn, gas + HalfGas(r), pnl + Share(e),
                      volume + Abs(Share(e)), r, r.amountOut, 0);
      }
    } else if OutKey(r) == k {
      LegAggregates(t, legs, bought, sold, gas, pnl, volume, r, r.amountOut, 0);
    }
  }

  lemma TokensAfterRecordMatch(config: Config, tokens: map<TokenKey, TokenPnl>, h: seq<Entry>, r: FillRecord,
                               k: TokenKey)
    requires config.trackPerToken && TokenMatches(tokens, h, k)
    ensures TokenMatches(TokensAfterRecord(config, tokens, r), h + [Entry(r, r.status)], k)
  {
    var e := Entry(r, r.status);
    TokenSnoc(h, e, k);
    LegsNonnegative(h, k);
    EntryAfterRecord(config, tokens, r, k);
    LegsAggregate(TokenEntry(tokens, k), SumOver(h, Legs(k)), SumOver(h, Bought(k)), SumOver(h, Sold(k)),
                  SumOver(h, LegGas(k)), SumOver(h, LegPnl(k)), SumOver(h, LegVolume(k)), e, k);
  }

  /** Status changes do not touch the token aggregates, nor what they should be. */
  lemma TokensUnmovedByChange(tokens: map<TokenKey, TokenPnl>, h: seq<Entry>, at: nat, to: FillStatus, k: TokenKey)
    requires at < |h| && TokenMatches(tokens, h, k)
    ensures TokenMatches(tokens, h[at := h[at].(now := to)], k)
  {
    var e := h[at].(now := to);
    SumUpdate(h, at, e, Legs(k));
    SumUpdate(h, at, e, Bought(k));
    SumUpdate(h, at, e, Sold(k));
    SumUpdate(h, at, e, LegGas(k));
    SumUpdate(h, at, e, LegPnl(k));
    SumUpdate(h, at, e, LegVolume(k));
  }
}
