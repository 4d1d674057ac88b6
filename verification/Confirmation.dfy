/** The confirmation monitor. Provider answers and the clock are inputs. `check_status` holds its
    record's lock throughout; the other methods are two regions each, which are methods of their
    own here. Their interleavings are in ConfirmationRaces; a call here is not interrupted. */
module Confirmation {
  import opened Machine
  import opened Results

  type TxHash = nat
  type Address = nat

  datatype Config = Config(requiredConfirmations: u64, timeoutMs: u64, maxTracked: nat)

  datatype TxStatus = Pending | Included | Confirmed | Reverted | Dropped

  datatype TxRecord = TxRecord(
    txHash: TxHash,
    chainId: u64,
    from: Address,
    status: TxStatus,
    blockNumber: Option<u64>,
    confirmations: u64,
    submittedAt: u64,
    updatedAt: u64,
    gasUsed: Option<u64>,
    executionSuccess: Option<bool>)
  {
    predicate IsFinal() {
      status.Confirmed? || status.Reverted? || status.Dropped?
    }
  }

  datatype Receipt = Receipt(blockNumber: Option<u64>, success: bool, gasUsed: u64)

  /** What the provider would say if asked: a receipt, no receipt yet or an error, and the
      current block number or an error. */
  datatype Answers = Answers(receipt: Result<Option<Receipt>, string>, currentBlock: Result<u64, string>)

  datatype Failure = TrackingLimitReached | NotTracked | ReceiptFetchFailed | BlockFetchFailed

  function NewRecord(txHash: TxHash, chainId: u64, from: Address, now: u64): TxRecord {
    TxRecord(txHash, chainId, from, Pending, None, 0, now, now, None, None)
  }

  function ElapsedMs(r: TxRecord, now: u64): u64 {
    Wrap64(SatSub(now, r.submittedAt) * 1000)
  }

  /** The record after a check, and whether the check itself failed. */
  function CheckRecord(config: Config, r: TxRecord, now: u64, answers: Answers): (TxRecord, Option<Failure>) {
    if r.IsFinal() then (r, None)
    else if ElapsedMs(r, now) > config.timeoutMs then (r.(status := Dropped, updatedAt := now), None)
    else
      match answers.receipt
      case Err(_) => (r, Some(ReceiptFetchFailed))
      case Ok(None) => (r.(updatedAt := now), None)
      case Ok(Some(receipt)) =>
        var block := if receipt.blockNumber.Some? then receipt.blockNumber.value else 0;
        var seen := r.(blockNumber := Some(block), gasUsed := Some(receipt.gasUsed),
                       executionSuccess := Some(receipt.success), updatedAt := now);
        if !receipt.success then (seen.(status := Reverted), None)
        else
          match answers.currentBlock
          case Err(_) => (seen, Some(BlockFetchFailed))
          case Ok(current) =>
            var confirmations := SatSub(current, block);
            (seen.(confirmations := confirmations,
                   status := if confirmations >= config.requiredConfirmations then Confirmed else Included), None)
  }

  function FinalHashes(records: map<TxHash, TxRecord>): set<TxHash> {
    set h | h in records && records[h].IsFinal()
  }

  class Monitor {
    const config: Config
    var records: map<TxHash, TxRecord>

    constructor (config: Config)
      ensures this.config == config && records == map[]
    {
      this.config := config;
      records := map[];
    }

    /** The first region of `track_transaction`. */
    method HasRoom() returns (room: bool)
      ensures room <==> |records| < config.maxTracked
    {
      room := |records| < config.maxTracked;
    }

    /** The second, which does not look again. */
    method InsertPending(txHash: TxHash, chainId: u64, from: Address, now: u64)
      modifies this
      ensures records == old(records)[txHash := NewRecord(txHash, chainId, from, now)]
    {
      records := records[txHash := TxRecord(txHash, chainId, from, Pending, None, 0, now, now, None, None)];
    }

    method TrackTransaction(txHash: TxHash, chainId: u64, from: Address, now: u64) returns (failure: Option<Failure>)
      modifies this
      ensures failure == if |old(records)| >= config.maxTracked then Some(TrackingLimitReached) else None
      ensures records ==
                if failure == None then old(records)[txHash := NewRecord(txHash, chainId, from, now)] else old(records)
    {
      var room := HasRoom();
      if !room {
        return Some(TrackingLimitReached);
      }
      InsertPending(txHash, chainId, from, now);
      return None;
    }

    method CheckStatus(txHash: TxHash, now: u64, answers: Answers) returns (r: Result<TxRecord, Failure>)
      modifies this
      ensures txHash !in old(records) ==> r == Err(NotTracked) && records == old(records)
      ensures txHash in old(records) ==>
                var (record, failure) := CheckRecord(config, old(records)[txHash], now, answers);
                records == old(records)[txHash := record]
                && r == if failure == None then Ok(record) else Err(failure.value)
    {
      if txHash !in records {
        return Err(NotTracked);
      }
      var record := records[txHash];
      if record.IsFinal() {
        return Ok(record);
      }
      if ElapsedMs(record, now) > config.timeoutMs {
        record := record.(status := Dropped, updatedAt := now);
        records := records[txHash := record];
        return Ok(record);
      }
      if answers.receipt.Err? {
        return Err(ReceiptFetchFailed);
      }
      if answers.receipt.value == None {
        record := record.(updatedAt := now);
        records := records[txHash := record];
        return Ok(record);
      }
      var receipt := answers.receipt.value.value;
      var block := if receipt.blockNumber.Some? then receipt.blockNumber.value else 0;
      record := record.(blockNumber := Some(block), gasUsed := Some(receipt.gasUsed),
                        executionSuccess := Some(receipt.success), updatedAt := now);
      records := records[txHash := record];
      if !receipt.success {
        record := record.(status := Reverted);
        records := records[txHash := record];
        return Ok(record);
      }
      if answers.currentBlock.Err? {
        return Err(BlockFetchFailed);
      }
      var confirmations := SatSub(answers.currentBlock.value, block);
      record := record.(confirmations := confirmations,
                        status := if confirmations >= config.requiredConfirmations then Confirmed else Included);
      records := records[txHash := record];
      return Ok(record);
    }

    /** The first region of `remove_finalized`, and one look of the scan of `prune_finalized`. */
    method SeesFinal(txHash: TxHash) returns (final: bool)
      ensures final <==> txHash in FinalHashes(records)
    {
      final := txHash in records && records[txHash].IsFinal();
    }

    /** The second, which removes whatever is there by then. */
    method RemoveRecord(txHash: TxHash) returns (removed: Option<TxRecord>)
      modifies this
      ensures removed == if txHash in old(records) then Some(old(records)[txHash]) else None
      ensures records == old(records) - {txHash}
    {
      removed := if txHash in records then Some(records[txHash]) else None;
      records := records - {txHash};
    }

    method RemoveFinalized(txHash: TxHash) returns (removed: Option<TxRecord>)
      modifies this
      ensures if txHash in FinalHashes(old(records))
              then removed == Some(old(records)[txHash]) && records == old(records) - {txHash}
              else removed == None && records == old(records)
    {
      var final := SeesFinal(txHash);
      if final {
        removed := RemoveRecord(txHash);
      } else {
        removed := None;
      }
    }

    /** Removes the final records one by one, in whatever order the map yields them. */
    method PruneFinalized() returns (count: nat)
      modifies this
      ensures records == old(records) - FinalHashes(old(records))
      ensures count == |FinalHashes(old(records))|
    {
      var toRemove := set h | h in records && records[h].IsFinal();
      count := |toRemove|;
      ghost var before, all := records, toRemove;
      while toRemove != {}
        invariant toRemove <= all
        invariant records == before - (all - toRemove)
        decreases |toRemove|
      {
        var h :| h in toRemove;
        toRemove := toRemove - {h};
        var _ := RemoveRecord(h);
      }
    }
  }

  // ----- runs of calls that do not overlap

  datatype Call =
    | Track(txHash: TxHash, chainId: u64, from: Address, now: u64)
    | Check(txHash: TxHash, now: u64, answers: Answers)
    | Remove(txHash: TxHash)
    | Prune

  function Perform(config: Config, records: map<TxHash, TxRecord>, call: Call): map<TxHash, TxRecord> {
    match call
    case Track(h, chainId, from, now) =>
      if |records| >= config.maxTracked then records else records[h := NewRecord(h, chainId, from, now)]
    case Check(h, now, answers) =>
      if h in records then records[h := CheckRecord(config, records[h], now, answers).0] else records
    case Remove(h) => if h in FinalHashes(records) then records - {h} else records
    case Prune => records - FinalHashes(records)
  }

  function PerformAll(config: Config, from: map<TxHash, TxRecord>, calls: seq<Call>): map<TxHash, TxRecord> {
    if calls == [] then from else Perform(config, PerformAll(config, from, calls[..|calls| - 1]), calls[|calls| - 1])
  }

  /** What each status says about the record. A pending or dropped record may already carry a
      block: an error after the receipt leaves it behind. */
  ghost predicate Truthful(config: Config, r: TxRecord) {
    && (r.blockNumber.Some? <==> r.executionSuccess.Some?) && (r.blockNumber.Some? <==> r.gasUsed.Some?)
    && (r.executionSuccess == Some(false) <==> r.status.Reverted?)
    && match r.status
       case Confirmed => r.executionSuccess == Some(true) && r.confirmations >= config.requiredConfirmations
       case Included => r.executionSuccess == Some(true) && r.confirmations < config.requiredConfirmations
       case _ => true
  }

  ghost predicate Sound(config: Config, records: map<TxHash, TxRecord>) {
    && |records| <= config.maxTracked
    && forall h :: h in records ==> records[h].txHash == h && Truthful(config, records[h])
  }

  lemma CheckTruthful(config: Config, r: TxRecord, now: u64, answers: Answers)
    requires Truthful(config, r)
    ensures Truthful(config, CheckRecord(config, r, now, answers).0)
  {
  }

  lemma InsertSize(records: map<TxHash, TxRecord>, h: TxHash, r: TxRecord)
    ensures |records[h := r]| == if h in records then |records| else |records| + 1
  {
    assert records[h := r].Keys == records.Keys + {h};
    assert |records[h := r]| == |records[h := r].Keys| && |records| == |records.Keys|;
  }

  lemma RemoveSize(records: map<TxHash, TxRecord>, hs: set<TxHash>)
    ensures |records - hs| <= |records|
  {
    var kept := (records - hs).Keys;
    assert records.Keys == kept + (records.Keys * hs) && kept !! (records.Keys * hs);
    assert |records - hs| == |kept| && |records| == |records.Keys|;
  }

  lemma UpdateSound(config: Config, records: map<TxHash, TxRecord>, h: TxHash, r: TxRecord)
    requires Sound(config, records) && r.txHash == h && Truthful(config, r)
    requires h in records || |records| < config.maxTracked
    ensures Sound(config, records[h := r])
  {
    InsertSize(records, h, r);
  }

  lemma RemovalSound(config: Config, records: map<TxHash, TxRecord>, hs: set<TxHash>)
    requires Sound(config, records)
    ensures Sound(config, records - hs)
  {
    RemoveSize(records, hs);
  }

  lemma PerformSound(config: Config, records: map<TxHash, TxRecord>, call: Call)
    requires Sound(config, records)
    ensures Sound(config, Perform(config, records, call))
  {
    match call
    case Track(h, chainId, from, now) =>
      if |records| < config.maxTracked {
        UpdateSound(config, records, h, NewRecord(h, chainId, from, now));
      }
    case Check(h, now, answers) =>
      if h in records {
        CheckTruthful(config, records[h], now, answers);
        UpdateSound(config, records, h, CheckRecord(config, records[h], now, answers).0);
      }
    case Remove(h) => RemovalSound(config, records, {h});
    case Prune => RemovalSound(config, records, FinalHashes(records));
  }

  /** Over any calls and any provider answers and errors: at most `maxTracked` records, and
      every status is backed by what was seen on chain. */
  lemma {:induction false} RunsAreSound(config: Config, calls: seq<Call>)
    ensures Sound(config, PerformAll(config, map[], calls))
  {
    if calls != [] {
      RunsAreSound(config, calls[..|calls| - 1]);
      PerformSound(config, PerformAll(config, map[], calls[..|calls| - 1]), calls[|calls| - 1]);
    }
  }

  /** Pruning leaves no final record, and what it removes and what it leaves are the whole. */
  lemma PruneConserves(records: map<TxHash, TxRecord>)
    ensures var after := records - FinalHashes(records);
            && FinalHashes(after) == {} && after - FinalHashes(after) == after
            && |FinalHashes(records)| + |after| == |records|
  {
    var after := records - FinalHashes(records);
    assert records.Keys == after.Keys + FinalHashes(records) && after.Keys !! FinalHashes(records);
    assert |records| == |records.Keys| && |after| == |after.Keys|;
  }

  /** The elapsed milliseconds as the code computes them, modulo 2^64: then, and only then, does
      a check end a record whatever the provider answers. */
  lemma AlwaysFinalIff(config: Config, r: TxRecord, now: u64)
    ensures (forall answers :: CheckRecord(config, r, now, answers).0.IsFinal())
            <==> r.IsFinal() || ElapsedMs(r, now) > config.timeoutMs
    ensures (SatSub(now, r.submittedAt) * 1000) < U64_MODULUS ==> ElapsedMs(r, now) == SatSub(now, r.submittedAt) * 1000
  {
    if !r.IsFinal() && ElapsedMs(r, now) <= config.timeoutMs {
      assert !CheckRecord(config, r, now, Answers(Ok(None), Ok(0))).0.IsFinal();
    }
    var ms := SatSub(now, r.submittedAt) * 1000;
    if ms < U64_MODULUS {
      DivModUnique(ms, U64_MODULUS, 0, ms);
    }
  }

  /** A transaction tracked at one time is dropped by a check at a later one exactly when that is more
      than the timeout later, in milliseconds. */
  lemma DroppedExactlyWhenLate(config: Config, h: TxHash, chainId: u64, from: Address, tracked: u64, now: u64,
                               answers: Answers)
    requires tracked <= now && (now - tracked) * 1000 < U64_MODULUS
    ensures var r := NewRecord(h, chainId, from, tracked);
            r.status.Pending?
            && (CheckRecord(config, r, now, answers).0.status.Dropped? <==> (now - tracked) * 1000 > config.timeoutMs)
  {
    AlwaysFinalIff(config, NewRecord(h, chainId, from, tracked), now);
  }

  /** What a check in time of a record that is not final makes of a receipt: its data is stored; it ends
      reverted if the receipt says failure, and otherwise, once the current block is known, confirmed
      exactly when that is at least the receipt's block plus the required confirmations (or none are
      required), and included if not. */
  lemma ReceiptDecides(config: Config, r: TxRecord, now: u64, receipt: Receipt, current: Result<u64, string>)
    requires !r.IsFinal() && ElapsedMs(r, now) <= config.timeoutMs
    ensures var (after, failure) := CheckRecord(config, r, now, Answers(Ok(Some(receipt)), current));
            var block: int := if receipt.blockNumber.Some? then receipt.blockNumber.value else 0;
            && after.blockNumber == Some(block) && after.gasUsed == Some(receipt.gasUsed)
            && after.executionSuccess == Some(receipt.success) && after.updatedAt == now
            && after.submittedAt == r.submittedAt && after.txHash == r.txHash
            && (failure == None <==> !receipt.success || current.Ok?)
            && (after.status.Reverted? <==> !receipt.success)
            && (receipt.success && current.Err? ==> after.status == r.status && failure == Some(BlockFetchFailed))
            && (receipt.success && current.Ok? ==>
                  && after.confirmations == Max(current.value - block, 0)
                  && (after.status.Confirmed? <==>
                        current.value >= block + config.requiredConfirmations || config.requiredConfirmations == 0)
                  && (!after.status.Confirmed? ==> after.status.Included?))
  {
  }

  /** Without a receipt a check in time changes nothing, but for the time of the look if the provider
      answered. */
  lemma NoReceiptKeeps(config: Config, r: TxRecord, now: u64, answers: Answers)
    requires !r.IsFinal() && ElapsedMs(r, now) <= config.timeoutMs
    requires answers.receipt.Err? || answers.receipt.value == None
    ensures var (after, failure) := CheckRecord(config, r, now, answers);
            if answers.receipt.Err? then after == r && failure == Some(ReceiptFetchFailed)
            else after == r.(updatedAt := now) && failure == None
  {
  }
}
