/** What the P&L tracker's aggregates are in terms of the recorded fields alone. */
module PnlFields {
  import opened Machine
  import opened Sums
  import opened Pnl
  import opened PnlWindow
  import opened PnlAggregates
  import opened PnlTokens
  import opened PnlRuns

  // ----- tokens

  predicate PaidWith(e: Entry, token: Address, chainId: u64) {
    e.record.tokenIn == token && e.record.chainId == chainId
  }

  predicate PaidOut(e: Entry, token: Address, chainId: u64) {
    e.record.tokenOut == token && e.record.chainId == chainId
  }

  /** The value, once for each side of the fill that the token is on. */
  function PerSide(e: Entry, token: Address, chainId: u64, value: int): int {
    (if PaidWith(e, token, chainId) then value else 0) + if PaidOut(e, token, chainId) then value else 0
  }

  function InAmounts(token: Address, chainId: u64): Entry -> int {
    (e: Entry) => if PaidWith(e, token, chainId) then e.record.amountIn else 0
  }

  function OutAmounts(token: Address, chainId: u64): Entry -> int {
    (e: Entry) => if PaidOut(e, token, chainId) then e.record.amountOut else 0
  }

  function Sides(token: Address, chainId: u64): Entry -> int { (e: Entry) => PerSide(e, token, chainId, 1) }

  function GasHalves(token: Address, chainId: u64): Entry -> int {
    (e: Entry) => PerSide(e, token, chainId, e.record.gasCostWei / 2)
  }

  /** Half of the P&L, rounded toward zero, of a fill that was confirmed when it was recorded. */
  function PnlHalf(e: Entry): int {
    if e.record.status != Confirmed then 0
    else if e.record.pnlWei >= 0 then e.record.pnlWei / 2
    else 0 - (0 - e.record.pnlWei) / 2
  }

  function PnlHalves(token: Address, chainId: u64): Entry -> int {
    (e: Entry) => PerSide(e, token, chainId, PnlHalf(e))
  }

  function PnlSizes(token: Address, chainId: u64): Entry -> int {
    (e: Entry) => PerSide(e, token, chainId, if PnlHalf(e) >= 0 then PnlHalf(e) else 0 - PnlHalf(e))
  }

  /** A token's entry is there once the token was on either side of a fill. It sums the amounts paid
      with it as sold and those paid out in it as bought, and counts a fill and half its gas and P&L
      for each side. */
  ghost predicate TokenIs(tokens: map<TokenKey, TokenPnl>, h: seq<Entry>, token: Address, chainId: u64) {
    var key := TokenKey(token, chainId);
    && (key in tokens <==> exists e :: e in h && (PaidWith(e, token, chainId) || PaidOut(e, token, chainId)))
    && (key in tokens ==>
          && tokens[key].totalSold == Min(SumOver(h, InAmounts(token, chainId)), U256_MAX)
          && tokens[key].totalBought == Min(SumOver(h, OutAmounts(token, chainId)), U256_MAX)
          && tokens[key].fillCount == Min(SumOver(h, Sides(token, chainId)), U32_MAX)
          && tokens[key].totalGasWei == Min(SumOver(h, GasHalves(token, chainId)), U128_MAX)
          && (SumOver(h, PnlSizes(token, chainId)) <= I128_MAX ==>
                tokens[key].netPnlWei == SumOver(h, PnlHalves(token, chainId))))
  }

  lemma {:induction false} SidesPositiveIff(h: seq<Entry>, token: Address, chainId: u64)
    ensures SumOver(h, Sides(token, chainId)) >= 0
    ensures SumOver(h, Sides(token, chainId)) > 0
            <==> exists e :: e in h && (PaidWith(e, token, chainId) || PaidOut(e, token, chainId))
  {
    if h != [] {
      var init, last := h[..|h| - 1], h[|h| - 1];
      SidesPositiveIff(init, token, chainId);
      assert h == init + [last];
    }
  }

  lemma AmountsByField(h: seq<Entry>, token: Address, chainId: u64)
    ensures var k := TokenKey(token, chainId);
            && SumOver(h, Sold(k)) == SumOver(h, InAmounts(token, chainId))
            && SumOver(h, Bought(k)) == SumOver(h, OutAmounts(token, chainId))
            && SumOver(h, Legs(k)) == SumOver(h, Sides(token, chainId))
  {
    var k := TokenKey(token, chainId);
    SumSame(h, Sold(k), InAmounts(token, chainId));
    SumSame(h, Bought(k), OutAmounts(token, chainId));
    SumSame(h, Legs(k), Sides(token, chainId));
  }

  lemma SharesByField(h: seq<Entry>, token: Address, chainId: u64)
    ensures var k := TokenKey(token, chainId);
            && SumOver(h, LegGas(k)) == SumOver(h, GasHalves(token, chainId))
            && SumOver(h, LegPnl(k)) == SumOver(h, PnlHalves(token, chainId))
            && SumOver(h, LegVolume(k)) == SumOver(h, PnlSizes(token, chainId))
  {
    var k := TokenKey(token, chainId);
    SumSame(h, LegGas(k), GasHalves(token, chainId));
    SumSame(h, LegPnl(k), PnlHalves(token, chainId));
    SumSame(h, LegVolume(k), PnlSizes(token, chainId));
  }

  lemma TokenByField(tokens: map<TokenKey, TokenPnl>, h: seq<Entry>, token: Address, chainId: u64)
    requires TokenMatches(tokens, h, TokenKey(token, chainId))
    ensures TokenIs(tokens, h, token, chainId)
  {
    AmountsByField(h, token, chainId);
    SharesByField(h, token, chainId);
    SidesPositiveIff(h, token, chainId);
  }

  // ----- days

  /** The fill is on UTC day `day`, counted from the epoch. */
  predicate OnUtcDay(e: Entry, day: int) { 86_400 * day <= e.record.timestamp < 86_400 * (day + 1) }

  function GasOn(day: int): Entry -> int { (e: Entry) => if OnUtcDay(e, day) then e.record.gasCostWei else 0 }

  function PnlOn(day: int): Entry -> int {
    (e: Entry) => if OnUtcDay(e, day) && e.now == Confirmed then e.record.pnlWei else 0
  }

  function SizeOn(day: int): Entry -> int {
    (e: Entry) => if !OnUtcDay(e, day) || e.now != Confirmed then 0
                  else if e.record.pnlWei >= 0 then e.record.pnlWei else 0 - e.record.pnlWei
  }

  function LiveOn(day: int): Entry -> int {
    (e: Entry) => if OnUtcDay(e, day) && e.now != Reverted then 1 else 0
  }

  function RevertedOn(day: int): Entry -> int {
    (e: Entry) => if OnUtcDay(e, day) && e.now == Reverted then 1 else 0
  }

  /** A day's entry is there once a fill was recorded on it. It sums the gas of the day's fills and the
      P&L of those that are confirmed now, and counts the reverted ones and the others. */
  ghost predicate DayEntryIs(daily: map<int, DailyPnl>, h: seq<Entry>, day: int) {
    && (day in daily <==> exists e :: e in h && OnUtcDay(e, day))
    && (day in daily ==>
          && daily[day].gasSpentWei == Min(SumOver(h, GasOn(day)), U128_MAX)
          && (SumOver(h, LiveOn(day)) + SumOver(h, RevertedOn(day)) <= U32_MAX ==>
                && daily[day].fillCount == SumOver(h, LiveOn(day))
                && daily[day].revertedCount == SumOver(h, RevertedOn(day)))
          && (SumOver(h, SizeOn(day)) <= I128_MAX ==> daily[day].realizedPnlWei == SumOver(h, PnlOn(day))))
  }

  lemma DayIsUtc(e: Entry, day: int)
    ensures IsOn(e, day) <==> OnUtcDay(e, day)
  {
    if OnUtcDay(e, day) {
      DivModUnique(e.record.timestamp, 86_400, day, e.record.timestamp - 86_400 * day);
    }
  }

  lemma {:induction false} DayPositiveIff(h: seq<Entry>, day: int)
    ensures SumOver(h, OnDay(day)) >= 0
    ensures SumOver(h, OnDay(day)) > 0 <==> exists e :: e in h && OnUtcDay(e, day)
  {
    if h != [] {
      var init, last := h[..|h| - 1], h[|h| - 1];
      DayPositiveIff(init, day);
      DayIsUtc(last, day);
      assert h == init + [last];
    }
  }

  lemma DaySumsByField(h: seq<Entry>, day: int)
    ensures SumOver(h, DayGas(day)) == SumOver(h, GasOn(day))
    ensures SumOver(h, DayPnl(day)) == SumOver(h, PnlOn(day))
    ensures SumOver(h, DayVolume(day)) == SumOver(h, SizeOn(day))
    ensures SumOver(h, DayLive(day)) == SumOver(h, LiveOn(day))
    ensures SumOver(h, DayReverted(day)) == SumOver(h, RevertedOn(day))
  {
    forall e: Entry ensures IsOn(e, day) <==> OnUtcDay(e, day) {
      DayIsUtc(e, day);
    }
    SumSame(h, DayGas(day), GasOn(day));
    SumSame(h, DayPnl(day), PnlOn(day));
    SumSame(h, DayVolume(day), SizeOn(day));
    SumSame(h, DayLive(day), LiveOn(day));
    SumSame(h, DayReverted(day), RevertedOn(day));
  }

  lemma DayByField(daily: map<int, DailyPnl>, h: seq<Entry>, day: int)
    requires DayMatches(daily, h, day)
    ensures DayEntryIs(daily, h, day)
  {
    DaySumsByField(h, day);
    DayPositiveIff(h, day);
    DayBounds(h, day);
  }

  // ----- the totals

  /** The P&L of a fill that is confirmed now, cut to the range of a 64-bit integer. */
  function Cut(): Entry -> int {
    (e: Entry) =>
      if e.now != Confirmed then 0
      else if e.record.pnlWei > 0x7FFF_FFFF_FFFF_FFFF then 0x7FFF_FFFF_FFFF_FFFF
      else if e.record.pnlWei < -0x8000_0000_0000_0000 then -0x8000_0000_0000_0000
      else e.record.pnlWei
  }

  /** The total is the sum of the cut P&L, modulo 2^64. */
  ghost predicate TotalsAre(s: Books, h: seq<Entry>) {
    s.totalFills == |h| && (SumOver(h, Cut()) - s.totalRealizedWei) % U64_MODULUS == 0
  }

  lemma TotalByField(s: Books, h: seq<Entry>)
    requires TotalsAgree(s, h)
    ensures TotalsAre(s, h)
  {
    SumSame(h, Realized(), Cut());
    var x := SumOver(h, Cut());
    var q := (x - I64_MIN) / U64_MODULUS;
    DivModUnique(x - WrapI64(x), U64_MODULUS, q, 0);
  }

  lemma DaysByField(s: Books, h: seq<Entry>)
    requires DaysAgree(s, h)
    ensures forall day :: DayEntryIs(s.daily, h, day)
  {
    forall day ensures DayEntryIs(s.daily, h, day) {
      assert DayMatches(s.daily, h, day);
      DayByField(s.daily, h, day);
    }
  }

  lemma TokensByField(s: Books, h: seq<Entry>)
    requires forall k :: TokenMatches(s.tokens, h, k)
    ensures forall token, chainId :: TokenIs(s.tokens, h, token, chainId)
  {
    forall token, chainId ensures TokenIs(s.tokens, h, token, chainId) {
      assert TokenMatches(s.tokens, h, TokenKey(token, chainId));
      TokenByField(s.tokens, h, token, chainId);
    }
  }

  /** After any legal run of records and status changes, pruning included, the totals, every day and
      every token are what the recorded fields and the current statuses say. */
  lemma RunsAgreeByField(config: Config, events: seq<Event>)
    requires LegalRun(config, events)
    ensures var s, h := RunAll(config, events), HistoryOf(config, events);
            && TotalsAre(s, h)
            && (forall day :: DayEntryIs(s.daily, h, day))
            && (config.trackPerToken ==> forall token, chainId :: TokenIs(s.tokens, h, token, chainId))
  {
    RunsAgree(config, events);
    var s, h := RunAll(config, events), HistoryOf(config, events);
    TotalByField(s, h);
    DaysByField(s, h);
    if config.trackPerToken {
      TokensByField(s, h);
    }
  }

  function Midnight(n: int): int { 86_400 * n }

  /** Two fills share a day's entry exactly when no midnight lies after the earlier and up to the
      later of them. */
  lemma SameDayIff(earlier: Timestamp, later: Timestamp)
    requires earlier <= later
    ensures DayOf(earlier) == DayOf(later) <==> forall n :: !(earlier < Midnight(n) <= later)
  {
    if DayOf(earlier) == DayOf(later) {
      forall n ensures !(earlier < Midnight(n) <= later) {
        if earlier < Midnight(n) <= later {
          QuotientAtLeast(later, 86_400, n);
        }
      }
    } else {
      DivMonotone(earlier, later, 86_400);
      assert earlier < Midnight(DayOf(later)) <= later;
    }
  }
}
