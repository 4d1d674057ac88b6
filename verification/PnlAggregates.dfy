/** The running totals and the daily and per-token aggregates against the history. */
module PnlAggregates {
  import opened Machine
  import opened Sums
  import opened Pnl
  import opened PnlWindow

  function If(condition: bool, value: int): int { if condition then value else 0 }

  // ----- what an entry contributes, now

  function Realized(): Entry -> int {
    (e: Entry) => If(e.now.Confirmed?, ClampI64(e.record.pnlWei))
  }

  function IsOn(e: Entry, day: int): bool { DayOf(e.record.timestamp) == day }

  function OnDay(day: int): Entry -> int { e => If(IsOn(e, day), 1) }

  function DayGas(day: int): Entry -> int { e => If(IsOn(e, day), e.record.gasCostWei) }

  function DayPnl(day: int): Entry -> int { e => If(IsOn(e, day) && e.now.Confirmed?, e.record.pnlWei) }

  function DayVolume(day: int): Entry -> int { e => If(IsOn(e, day) && e.now.Confirmed?, Abs(e.record.pnlWei)) }

  function DayLive(day: int): Entry -> int { e => If(IsOn(e, day) && !e.now.Reverted?, 1) }

  function DayReverted(day: int): Entry -> int { e => If(IsOn(e, day) && e.now.Reverted?, 1) }

  // ----- the running total

  /** A `Pending` fill may become anything; any other status may only be repeated. */
  predicate Documented(from: FillStatus, to: FillStatus) { from.Pending? || from == to }

  lemma TotalAfterRecord(h: seq<Entry>, r: FillRecord, total: i64)
    requires total == WrapI64(SumOver(h, Realized()))
    ensures (if r.status.Confirmed? then Realize(total, r.pnlWei) else total)
            == WrapI64(SumOver(h + [Entry(r, r.status)], Realized()))
  {
    SumSnoc(h, Entry(r, r.status), Realized());
    WrapI64Step(SumOver(h, Realized()), ClampI64(r.pnlWei));
  }

  /** The total after a status change: only Pending to Confirmed adds the P&L. */
  function TotalAfterChange(total: i64, pnl: i128, from: FillStatus, to: FillStatus): i64 {
    if from.Pending? && to.Confirmed? then Realize(total, pnl) else total
  }

  lemma RealizedAfterChange(h: seq<Entry>, at: nat, to: FillStatus)
    requires at < |h|
    ensures SumOver(h[at := h[at].(now := to)], Realized())
            == SumOver(h, Realized()) + (if to.Confirmed? then ClampI64(h[at].record.pnlWei) else 0)
               - (if h[at].now.Confirmed? then ClampI64(h[at].record.pnlWei) else 0)
  {
    SumUpdate(h, at, h[at].(now := to), Realized());
  }

  lemma WrapI64Moves(x: int, d: i64)
    ensures WrapI64(x + d) == WrapI64(x) <==> d == 0
    ensures WrapI64(x - d) == WrapI64(x) <==> d == 0
  {
    var y := x - I64_MIN;
    var q, r := y / U64_MODULUS, y % U64_MODULUS;
    ShiftedRemainder(y, d);
    ShiftedRemainder(y, 0 - d);
  }

  lemma ShiftedRemainder(y: int, d: int)
    requires I64_MIN <= d <= 0 - I64_MIN
    ensures (y + d) % U64_MODULUS == y % U64_MODULUS <==> d == 0
  {
    var dq := (y + d) / U64_MODULUS - y / U64_MODULUS;
    assert d == dq * U64_MODULUS + ((y + d) % U64_MODULUS - y % U64_MODULUS);
    MulMonotone(dq, U64_MODULUS);
    MulMonotone(0 - dq, U64_MODULUS);
  }

  /** The running total stays the sum over the confirmed fills across a status change exactly
      when the change is documented, or leads neither into nor out of Confirmed, or the fill
      has no P&L. (A Confirmed fill set back to Pending and confirmed again counts twice.) */
  lemma TotalFollowsChangeIff(h: seq<Entry>, at: nat, to: FillStatus, total: i64)
    requires at < |h| && total == WrapI64(SumOver(h, Realized()))
    ensures var pnl, from := h[at].record.pnlWei, h[at].now;
            TotalAfterChange(total, pnl, from, to) == WrapI64(SumOver(h[at := h[at].(now := to)], Realized()))
            <==> Documented(from, to) || !(from.Confirmed? || to.Confirmed?) || pnl == 0
  {
    var pnl, from, sum := h[at].record.pnlWei, h[at].now, SumOver(h, Realized());
    RealizedAfterChange(h, at, to);
    WrapI64Step(sum, ClampI64(pnl));
    WrapI64Moves(sum, ClampI64(pnl));
  }

  // ----- the days

  /** Both saturate: the day's gas always, its counts and P&L only past what the guards allow. */
  ghost predicate DayIs(d: DailyPnl, h: seq<Entry>, day: int) {
    && d.gasSpentWei == Min(SumOver(h, DayGas(day)), U128_MAX)
    && (SumOver(h, OnDay(day)) <= U32_MAX ==>
          d.fillCount == SumOver(h, DayLive(day)) && d.revertedCount == SumOver(h, DayReverted(day)))
    && (SumOver(h, DayVolume(day)) <= I128_MAX ==> d.realizedPnlWei == SumOver(h, DayPnl(day)))
  }

  ghost predicate DayMatches(daily: map<int, DailyPnl>, h: seq<Entry>, day: int) {
    (day in daily <==> SumOver(h, OnDay(day)) > 0) && DayIs(DayEntry(daily, day), h, day)
  }

  lemma {:induction false} DayBounds(h: seq<Entry>, day: int)
    ensures 0 <= SumOver(h, DayLive(day)) && 0 <= SumOver(h, DayReverted(day)) && 0 <= SumOver(h, DayGas(day))
    ensures SumOver(h, DayLive(day)) + SumOver(h, DayReverted(day)) == SumOver(h, OnDay(day))
    ensures Abs(SumOver(h, DayPnl(day))) <= SumOver(h, DayVolume(day))
  {
    if h != [] {
      DayBounds(h[..|h| - 1], day);
    }
  }

  lemma DaySnoc(h: seq<Entry>, e: Entry, day: int)
    ensures SumOver(h + [e], OnDay(day)) == SumOver(h, OnDay(day)) + If(IsOn(e, day), 1)
    ensures SumOver(h + [e], DayGas(day)) == SumOver(h, DayGas(day)) + If(IsOn(e, day), e.record.gasCostWei)
    ensures SumOver(h + [e], DayPnl(day))
            == SumOver(h, DayPnl(day)) + If(IsOn(e, day) && e.now.Confirmed?, e.record.pnlWei)
    ensures SumOver(h + [e], DayVolume(day))
            == SumOver(h, DayVolume(day)) + If(IsOn(e, day) && e.now.Confirmed?, Abs(e.record.pnlWei))
    ensures SumOver(h + [e], DayLive(day)) == SumOver(h, DayLive(day)) + If(IsOn(e, day) && !e.now.Reverted?, 1)
    ensures SumOver(h + [e], DayReverted(day)) == SumOver(h, DayReverted(day)) + If(IsOn(e, day) && e.now.Reverted?, 1)
  {
    SumSnoc(h, e, OnDay(day));
    SumSnoc(h, e, DayGas(day));
    SumSnoc(h, e, DayPnl(day));
    SumSnoc(h, e, DayVolume(day));
    SumSnoc(h, e, DayLive(day));
    SumSnoc(h, e, DayReverted(day));
  }

  lemma DayRecordIs(d: DailyPnl, h: seq<Entry>, r: FillRecord)
    requires DayIs(d, h, DayOf(r.timestamp))
    ensures DayIs(DayAfterRecord(d, r), h + [Entry(r, r.status)], DayOf(r.timestamp))
  {
    var day, e := DayOf(r.timestamp), Entry(r, r.status);
    DaySnoc(h, e, day);
    DayBounds(h, day);
    DayBounds(h + [e], day);
  }

  lemma DayAfterRecordMatches(daily: map<int, DailyPnl>, h: seq<Entry>, r: FillRecord, day: int)
    requires DayMatches(daily, h, day)
    ensures var on := DayOf(r.timestamp);
            DayMatches(daily[on := DayAfterRecord(DayEntry(daily, on), r)], h + [Entry(r, r.status)], day)
  {
    DaySnoc(h, Entry(r, r.status), day);
    DayBounds(h, day);
    if DayOf(r.timestamp) == day {
      DayRecordIs(DayEntry(daily, day), h, r);
    }
  }

  /** A pending fill changes status. */
  lemma DayChange(h: seq<Entry>, at: nat, to: FillStatus, day: int)
    requires at < |h| && h[at].now.Pending?
    ensures var h', on := h[at := h[at].(now := to)], IsOn(h[at], day);
            && SumOver(h', OnDay(day)) == SumOver(h, OnDay(day))
            && SumOver(h', DayGas(day)) == SumOver(h, DayGas(day))
            && SumOver(h', DayPnl(day)) == SumOver(h, DayPnl(day)) + If(on && to.Confirmed?, h[at].record.pnlWei)
            && SumOver(h', DayVolume(day))
               == SumOver(h, DayVolume(day)) + If(on && to.Confirmed?, Abs(h[at].record.pnlWei))
            && SumOver(h', DayLive(day)) == SumOver(h, DayLive(day)) - If(on && to.Reverted?, 1)
            && SumOver(h', DayReverted(day)) == SumOver(h, DayReverted(day)) + If(on && to.Reverted?, 1)
  {
    var e := h[at].(now := to);
    SumUpdate(h, at, e, OnDay(day));
    SumUpdate(h, at, e, DayGas(day));
    SumUpdate(h, at, e, DayPnl(day));
    SumUpdate(h, at, e, DayVolume(day));
    SumUpdate(h, at, e, DayLive(day));
    SumUpdate(h, at, e, DayReverted(day));
  }

  lemma {:induction false} DayHasEntry(h: seq<Entry>, at: nat)
    requires at < |h|
    ensures SumOver(h, OnDay(DayOf(h[at].record.timestamp))) > 0
  {
    var day := DayOf(h[at].record.timestamp);
    DayBounds(h[..|h| - 1], day);
    if at < |h| - 1 {
      DayHasEntry(h[..|h| - 1], at);
    }
  }

  lemma DayChangeIs(d: DailyPnl, h: seq<Entry>, at: nat, to: FillStatus)
    requires at < |h| && h[at].now.Pending? && DayIs(d, h, DayOf(h[at].record.timestamp))
    ensures DayIs(DayAfterUpdate(d, h[at].record.pnlWei, Pending, to), h[at := h[at].(now := to)],
                  DayOf(h[at].record.timestamp))
  {
    var day := DayOf(h[at].record.timestamp);
    DayChange(h, at, to, day);
    DayBounds(h, day);
    DayBounds(h[at := h[at].(now := to)], day);
  }

  lemma DayAfterUpdateMatches(daily: map<int, DailyPnl>, h: seq<Entry>, at: nat, to: FillStatus, day: int)
    requires at < |h| && h[at].now.Pending? && DayMatches(daily, h, day)
    ensures var on := DayOf(h[at].record.timestamp);
            && (on == day ==> on in daily)
            && DayMatches(if on in daily then daily[on := DayAfterUpdate(daily[on], h[at].record.pnlWei, Pending, to)]
                          else daily,
                          h[at := h[at].(now := to)], day)
  {
    DayChange(h, at, to, day);
    DayHasEntry(h, at);
    if DayOf(h[at].record.timestamp) == day {
      DayChangeIs(daily[day], h, at, to);
    }
  }
}
