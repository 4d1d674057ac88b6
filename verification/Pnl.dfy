/** The P&L tracker: fill records, daily and per-token aggregates, running totals, and the
    bounded fill history. */
module Pnl {
  import opened Machine

  type Address = nat

  /** A Unix time in seconds that the calendar library can represent. */
  type Timestamp = t: int | 0 <= t <= 8_210_266_876_799

  datatype FillStatus = Pending | Confirmed | Reverted

  datatype FillRecord = FillRecord(
    fillId: string,
    chainId: u64,
    tokenIn: Address,
    tokenOut: Address,
    amountIn: u256,
    amountOut: u256,
    gasCostWei: u128,
    pnlWei: i128,
    txHash: nat,
    timestamp: Timestamp,
    status: FillStatus)

  datatype TokenKey = TokenKey(token: Address, chainId: u64)

  datatype DailyPnl = DailyPnl(realizedPnlWei: i128, gasSpentWei: u128, fillCount: u32, revertedCount: u32)

  datatype TokenPnl = TokenPnl(totalBought: u256, totalSold: u256, totalGasWei: u128, netPnlWei: i128, fillCount: u32)

  datatype Config = Config(maxFillHistory: u64, trackPerToken: bool)

  datatype Books = Books(
    fills: map<string, FillRecord>,
    daily: map<int, DailyPnl>,
    tokens: map<TokenKey, TokenPnl>,
    totalRealizedWei: i64,
    totalFills: u64,
    fillOrder: map<u64, string>,
    nextSeq: u64)

  const Empty := Books(map[], map[], map[], 0, 0, map[], 0)

  /** The UTC day of a timestamp, counted from the epoch. */
  function DayOf(timestamp: Timestamp): int { timestamp / 86_400 }

  function ClampI64(pnl: i128): i64 { Clamp(pnl, I64_MIN, I64_MAX) }

  /** An entry of the daily map, or the zero entry that is inserted if there is none. */
  function DayEntry(daily: map<int, DailyPnl>, day: int): DailyPnl {
    if day in daily then daily[day] else DailyPnl(0, 0, 0, 0)
  }

  function DayAfterRecord(d: DailyPnl, r: FillRecord): DailyPnl {
    var spent := d.(gasSpentWei := SatAdd(d.gasSpentWei, r.gasCostWei, U128_MAX));
    match r.status
    case Confirmed =>
      spent.(realizedPnlWei := SatAddI128(d.realizedPnlWei, r.pnlWei), fillCount := SatAdd(d.fillCount, 1, U32_MAX))
    case Reverted => spent.(revertedCount := SatAdd(d.revertedCount, 1, U32_MAX))
    case Pending => spent.(fillCount := SatAdd(d.fillCount, 1, U32_MAX))
  }

  function DayAfterUpdate(d: DailyPnl, pnl: i128, from: FillStatus, to: FillStatus): DailyPnl {
    match to
    case Confirmed => if from.Pending? then d.(realizedPnlWei := SatAddI128(d.realizedPnlWei, pnl)) else d
    case Reverted =>
      d.(revertedCount := SatAdd(d.revertedCount, 1, U32_MAX),
         fillCount := if from.Pending? then SatSub(d.fillCount, 1) else d.fillCount)
    case Pending => d
  }

  function TokenEntry(tokens: map<TokenKey, TokenPnl>, key: TokenKey): TokenPnl {
    if key in tokens then tokens[key] else TokenPnl(0, 0, 0, 0, 0)
  }

  function TokenAfterLeg(t: TokenPnl, bought: u256, sold: u256, gas: u128, pnlShare: i128,
                         status: FillStatus): TokenPnl {
    TokenPnl(SatAdd(t.totalBought, bought, U256_MAX), SatAdd(t.totalSold, sold, U256_MAX),
             SatAdd(t.totalGasWei, gas, U128_MAX),
             if status.Confirmed? then SatAddI128(t.netPnlWei, pnlShare) else t.netPnlWei,
             SatAdd(t.fillCount, 1, U32_MAX))
  }

  function AddLeg(tokens: map<TokenKey, TokenPnl>, key: TokenKey, bought: u256, sold: u256, gas: u128, pnlShare: i128,
                  status: FillStatus)
    : map<TokenKey, TokenPnl>
  {
    tokens[key := TokenAfterLeg(TokenEntry(tokens, key), bought, sold, gas, pnlShare, status)]
  }

  function InKey(r: FillRecord): TokenKey { TokenKey(r.tokenIn, r.chainId) }

  function OutKey(r: FillRecord): TokenKey { TokenKey(r.tokenOut, r.chainId) }

  function HalfGas(r: FillRecord): u128 { r.gasCostWei / 2 }

  function HalfPnl(r: FillRecord): i128 { TruncDiv(r.pnlWei, 2) }

  function TokensAfterRecord(config: Config, tokens: map<TokenKey, TokenPnl>, r: FillRecord): map<TokenKey, TokenPnl> {
    if !config.trackPerToken then tokens
    else
      AddLeg(AddLeg(tokens, InKey(r), 0, r.amountIn, HalfGas(r), HalfPnl(r), r.status),
             OutKey(r), r.amountOut, 0, HalfGas(r), HalfPnl(r), r.status)
  }

  /** The total after a fill of this P&L is realized. */
  function Realize(total: i64, pnl: i128): i64 { WrapI64(total + ClampI64(pnl)) }

  /** Everything `record_fill` does before it prunes. */
  function Recorded(config: Config, s: Books, r: FillRecord): Books {
    Books(s.fills[r.fillId := r],
          s.daily[DayOf(r.timestamp) := DayAfterRecord(DayEntry(s.daily, DayOf(r.timestamp)), r)],
          TokensAfterRecord(config, s.tokens, r),
          if r.status.Confirmed? then Realize(s.totalRealizedWei, r.pnlWei) else s.totalRealizedWei,
          Next64(s.totalFills),
          s.fillOrder[s.nextSeq := r.fillId],
          Next64(s.nextSeq))
  }

  /** The history after the prune loop has removed sequence numbers 0 up to `count`. */
  function PrunedBelow(s: Books, count: nat): Books {
    if count == 0 then s
    else
      var before := PrunedBelow(s, count - 1);
      var seqNo := count - 1;
      if seqNo <= U64_MAX && seqNo in before.fillOrder
      then before.(fillOrder := before.fillOrder - {seqNo}, fills := before.fills - {before.fillOrder[seqNo]})
      else before
  }

  function AfterRecordFill(config: Config, s: Books, r: FillRecord): Books {
    var recorded := Recorded(config, s, r);
    PrunedBelow(recorded, SatSub(recorded.nextSeq, config.maxFillHistory))
  }

  function AfterUpdateStatus(s: Books, fillId: string, to: FillStatus): Books {
    if fillId !in s.fills || s.fills[fillId].status == to then s
    else
      var r := s.fills[fillId];
      var day := DayOf(r.timestamp);
      s.(fills := s.fills[fillId := r.(status := to)],
         totalRealizedWei :=
           if r.status.Pending? && to.Confirmed? then Realize(s.totalRealizedWei, r.pnlWei) else s.totalRealizedWei,
         daily :=
           if day in s.daily then s.daily[day := DayAfterUpdate(s.daily[day], r.pnlWei, r.status, to)] else s.daily)
  }

  /** The retained records with sequence numbers in [start, end), newest first. */
  function NewestFirst(s: Books, start: nat, end: nat): seq<FillRecord> {
    if end <= start then []
    else
      var rest := NewestFirst(s, start, end - 1);
      if end - 1 <= U64_MAX && end - 1 in s.fillOrder && s.fillOrder[end - 1] in s.fills
      then [s.fills[s.fillOrder[end - 1]]] + rest else rest
  }

  /** One step of the loop that collects the newest fills. */
  lemma NewestFirstStep(s: Books, start: nat, at: nat, before: seq<FillRecord>, after: seq<FillRecord>)
    requires start <= at <= U64_MAX
    requires after ==
               if at in s.fillOrder && s.fillOrder[at] in s.fills then before + [s.fills[s.fillOrder[at]]] else before
    ensures after + NewestFirst(s, start, at) == before + NewestFirst(s, start, at + 1)
  {
  }

  class PnlTracker {
    const config: Config
    var fills: map<string, FillRecord>
    var daily: map<int, DailyPnl>
    var tokens: map<TokenKey, TokenPnl>
    var totalRealizedWei: i64
    var totalFills: u64
    var fillOrder: map<u64, string>
    var nextSeq: u64

    ghost function State(): Books
      reads this
    {
      Books(fills, daily, tokens, totalRealizedWei, totalFills, fillOrder, nextSeq)
    }

    constructor (config: Config)
      ensures this.config == config && State() == Empty
    {
      this.config := config;
      fills, daily, tokens := map[], map[], map[];
      totalRealizedWei, totalFills := 0, 0;
      fillOrder, nextSeq := map[], 0;
    }

    method RecordFill(record: FillRecord)
      modifies this
      ensures State() == AfterRecordFill(config, old(State()), record)
    {
      fills := fills[record.fillId := record];
      fillOrder := fillOrder[nextSeq := record.fillId];
      nextSeq := Next64(nextSeq);
      totalFills := Next64(totalFills);
      if record.status == Confirmed {
        totalRealizedWei := Realize(totalRealizedWei, record.pnlWei);
      }
      var day := DayOf(record.timestamp);
      daily := daily[day := DayAfterRecord(DayEntry(daily, day), record)];
      if config.trackPerToken {
        UpdateTokenPnl(InKey(record), 0, record.amountIn, HalfGas(record), HalfPnl(record), record.status);
        UpdateTokenPnl(OutKey(record), record.amountOut, 0, HalfGas(record), HalfPnl(record), record.status);
      }
      PruneIfNeeded();
    }

    method UpdateTokenPnl(key: TokenKey, bought: u256, sold: u256, gasWei: u128, pnlShare: i128, status: FillStatus)
      modifies this`tokens
      ensures tokens == AddLeg(old(tokens), key, bought, sold, gasWei, pnlShare, status)
    {
      var entry := if key in tokens then tokens[key] else TokenPnl(0, 0, 0, 0, 0);
      entry := entry.(totalBought := SatAdd(entry.totalBought, bought, U256_MAX));
      entry := entry.(totalSold := SatAdd(entry.totalSold, sold, U256_MAX));
      entry := entry.(totalGasWei := SatAdd(entry.totalGasWei, gasWei, U128_MAX));
      entry := entry.(fillCount := SatAdd(entry.fillCount, 1, U32_MAX));
      if status == Confirmed {
        entry := entry.(netPnlWei := SatAddI128(entry.netPnlWei, pnlShare));
      }
      tokens := tokens[key := entry];
    }

    method UpdateFillStatus(fillId: string, newStatus: FillStatus) returns (found: bool)
      modifies this
      ensures State() == AfterUpdateStatus(old(State()), fillId, newStatus)
      ensures found <==> fillId in old(fills)
    {
      if fillId !in fills {
        return false;
      }
      var entry := fills[fillId];
      var oldStatus := entry.status;
      if oldStatus == newStatus {
        return true;
      }
      fills := fills[fillId := entry.(status := newStatus)];
      if oldStatus == Pending && newStatus == Confirmed {
        totalRealizedWei := Realize(totalRealizedWei, entry.pnlWei);
      }
      var day := DayOf(entry.timestamp);
      if day in daily {
        daily := daily[day := DayAfterUpdate(daily[day], entry.pnlWei, oldStatus, newStatus)];
      }
      return true;
    }

    /** The loop always restarts at sequence number 0. */
    method PruneIfNeeded()
      modifies this
      ensures State() == PrunedBelow(old(State()), SatSub(old(nextSeq), config.maxFillHistory))
    {
      var total := nextSeq;
      if total <= config.maxFillHistory {
        return;
      }
      var toRemove := total - config.maxFillHistory;
      for seqNo: nat := 0 to toRemove
        invariant State() == PrunedBelow(old(State()), seqNo)
      {
        if seqNo in fillOrder {
          fills := fills - {fillOrder[seqNo]};
          fillOrder := fillOrder - {seqNo};
        }
      }
    }

    method RecentFills(limit: u64) returns (recent: seq<FillRecord>)
      ensures recent == NewestFirst(State(), SatSub(nextSeq, limit), nextSeq)
    {
      var total := nextSeq;
      var start := SatSub(total, limit);
      recent := [];
      var seqNo: nat := total;
      while seqNo > start
        invariant start <= seqNo <= total
        invariant recent + NewestFirst(State(), start, seqNo) == NewestFirst(State(), start, total)
        invariant |recent| <= total - seqNo
      {
        seqNo := seqNo - 1;
        ghost var before := recent;
        if seqNo in fillOrder && fillOrder[seqNo] in fills {
          recent := recent + [fills[fillOrder[seqNo]]];
        }
        NewestFirstStep(State(), start, seqNo, before, recent);
        if |recent| >= limit {
          break;
        }
      }
    }
  }
}
