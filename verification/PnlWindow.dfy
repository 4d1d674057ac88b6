/** The history of everything recorded, and the window of it that the tracker retains. */
module PnlWindow {
  import opened Machine
  import opened Results
  import opened Pnl

  /** A fill as it was recorded, and its status now. */
  datatype Entry = Entry(record: FillRecord, now: FillStatus) {
    function Current(): FillRecord { record.(status := now) }
  }

  datatype Event = Record(record: FillRecord) | Update(fillId: string, status: FillStatus)

  function After(config: Config, s: Books, e: Event): Books {
    match e
    case Record(r) => AfterRecordFill(config, s, r)
    case Update(fillId, status) => AfterUpdateStatus(s, fillId, status)
  }

  /** The oldest sequence number that is still retained after `n` fills. */
  function Oldest(config: Config, n: nat): nat { SatSub(n, config.maxFillHistory) }

  /** The position of the last fill recorded under an id. */
  function LastUnder(h: seq<Entry>, fillId: string): Option<nat> {
    if h == [] then None
    else if h[|h| - 1].record.fillId == fillId then Some(|h| - 1)
    else LastUnder(h[..|h| - 1], fillId)
  }

  /** An update reaches the last fill of that id, unless it has left the window. */
  function HistoryAfter(config: Config, h: seq<Entry>, e: Event): seq<Entry> {
    match e
    case Record(r) => h + [Entry(r, r.status)]
    case Update(fillId, status) =>
      var at := LastUnder(h, fillId);
      if at.Some? && at.value < |h| && at.value >= Oldest(config, |h|)
      then h[at.value := h[at.value].(now := status)] else h
  }

  ghost predicate DistinctFrom(h: seq<Entry>, lo: nat) {
    forall i, j :: lo <= i < j < |h| ==> h[i].record.fillId != h[j].record.fillId
  }

  ghost predicate OrderIs(order: map<u64, string>, h: seq<Entry>, lo: nat) {
    && (forall i: u64 :: i in order <==> lo <= i < |h|)
    && (forall i: u64 :: lo <= i < |h| ==> order[i] == h[i].record.fillId)
  }

  ghost predicate HoldsExactly(fills: map<string, FillRecord>, h: seq<Entry>, lo: nat) {
    && (forall i :: lo <= i < |h| ==> h[i].record.fillId in fills && fills[h[i].record.fillId] == h[i].Current())
    && (forall id :: id in fills ==> exists i :: lo <= i < |h| && h[i].record.fillId == id)
  }

  /** The tracker retains the sequence numbers from `lo` on, under distinct ids, with exactly
      their current records. */
  ghost predicate WindowFrom(s: Books, h: seq<Entry>, lo: nat) {
    && |h| <= U64_MAX && s.nextSeq == |h| && lo <= |h|
    && DistinctFrom(h, lo) && OrderIs(s.fillOrder, h, lo) && HoldsExactly(s.fills, h, lo)
  }

  /** That is, the newest `maxFillHistory` of them. */
  ghost predicate Window(config: Config, s: Books, h: seq<Entry>) {
    WindowFrom(s, h, Oldest(config, |h|))
  }

  lemma NextIs(n: u64)
    requires n < U64_MAX
    ensures Next64(n) == n + 1
  {
    DivModUnique(n + 1, U64_MODULUS, 0, n + 1);
  }

  lemma PruneHeld(fills: map<string, FillRecord>, h: seq<Entry>, lo: nat)
    requires HoldsExactly(fills, h, lo) && DistinctFrom(h, lo) && lo < |h|
    ensures HoldsExactly(fills - {h[lo].record.fillId}, h, lo + 1)
  {
    var fills' := fills - {h[lo].record.fillId};
    forall id | id in fills' ensures exists i :: lo + 1 <= i < |h| && h[i].record.fillId == id {
      var i :| lo <= i < |h| && h[i].record.fillId == id;
      assert i != lo;
    }
  }

  lemma PruneOrder(order: map<u64, string>, h: seq<Entry>, lo: nat)
    requires OrderIs(order, h, lo) && lo < |h| <= U64_MAX
    ensures lo in order && order[lo] == h[lo].record.fillId && OrderIs(order - {lo}, h, lo + 1)
  {
  }

  lemma PruneOne(s: Books, h: seq<Entry>, lo: nat)
    requires WindowFrom(s, h, lo) && lo < |h|
    ensures lo in s.fillOrder
    ensures WindowFrom(s.(fillOrder := s.fillOrder - {lo}, fills := s.fills - {s.fillOrder[lo]}), h, lo + 1)
  {
    PruneOrder(s.fillOrder, h, lo);
    PruneHeld(s.fills, h, lo);
  }

  lemma PruneUnfold(s: Books, count: nat)
    requires count < U64_MAX && count in PrunedBelow(s, count).fillOrder
    ensures var before := PrunedBelow(s, count);
            PrunedBelow(s, count + 1) == before.(fillOrder := before.fillOrder - {count},
                                                 fills := before.fills - {before.fillOrder[count]})
  {
  }

  /** Pruning touches nothing but the history. */
  lemma {:induction false} PruneFrame(s: Books, count: nat)
    ensures PrunedBelow(s, count) == s.(fills := PrunedBelow(s, count).fills,
                                        fillOrder := PrunedBelow(s, count).fillOrder)
  {
    if count > 0 {
      PruneFrame(s, count - 1);
    }
  }

  lemma PruneNext(s: Books, h: seq<Entry>, count: nat, next: nat)
    requires WindowFrom(PrunedBelow(s, count), h, count) && next == count + 1 <= |h|
    ensures WindowFrom(PrunedBelow(s, next), h, next)
  {
    PruneOne(PrunedBelow(s, count), h, count);
    PruneUnfold(s, count);
  }

  /** Removing from 0 on, although everything below the window is long gone, removes exactly
      what has become too old. */
  lemma {:induction false} PruneShrinksWindow(s: Books, h: seq<Entry>, lo: nat, count: nat)
    requires WindowFrom(s, h, lo) && lo <= count <= |h|
    ensures WindowFrom(PrunedBelow(s, count), h, count)
    decreases count
  {
    if count == lo {
      PruneBelowWindow(s, count);
      assert PrunedBelow(s, count) == s;
    } else {
      PruneShrinksWindow(s, h, lo, count - 1);
      PruneNext(s, h, count - 1, count);
    }
  }

  lemma {:induction false} PruneBelowWindow(s: Books, count: nat)
    requires forall i: u64 :: i in s.fillOrder ==> i >= count
    ensures PrunedBelow(s, count) == s
  {
    if count > 0 {
      PruneBelowWindow(s, count - 1);
    }
  }

  lemma RecordDistinct(fills: map<string, FillRecord>, h: seq<Entry>, lo: nat, r: FillRecord)
    requires DistinctFrom(h, lo) && HoldsExactly(fills, h, lo) && r.fillId !in fills
    ensures DistinctFrom(h + [Entry(r, r.status)], lo)
  {
    forall i | lo <= i < |h| ensures h[i].record.fillId != r.fillId {
      assert h[i].record.fillId in fills;
    }
  }

  lemma RecordHeld(fills: map<string, FillRecord>, h: seq<Entry>, lo: nat, r: FillRecord)
    requires HoldsExactly(fills, h, lo) && lo <= |h| && r.fillId !in fills
    ensures HoldsExactly(fills[r.fillId := r], h + [Entry(r, r.status)], lo)
  {
    var fills', h' := fills[r.fillId := r], h + [Entry(r, r.status)];
    forall id | id in fills' ensures exists i :: lo <= i < |h'| && h'[i].record.fillId == id {
      if id == r.fillId {
        assert h'[|h|].record.fillId == id;
      } else {
        var i :| lo <= i < |h| && h[i].record.fillId == id;
        assert h'[i].record.fillId == id;
      }
    }
  }

  lemma RecordOrder(order: map<u64, string>, h: seq<Entry>, lo: nat, r: FillRecord)
    requires OrderIs(order, h, lo) && lo <= |h| < U64_MAX
    ensures OrderIs(order[|h| := r.fillId], h + [Entry(r, r.status)], lo)
  {
  }

  lemma RecordedWindow(config: Config, s: Books, h: seq<Entry>, lo: nat, r: FillRecord)
    requires WindowFrom(s, h, lo) && |h| < U64_MAX && r.fillId !in s.fills
    ensures WindowFrom(Recorded(config, s, r), h + [Entry(r, r.status)], lo)
  {
    NextIs(s.nextSeq);
    RecordDistinct(s.fills, h, lo, r);
    RecordHeld(s.fills, h, lo, r);
    RecordOrder(s.fillOrder, h, lo, r);
  }

  /** Recording a fill whose id is not retained keeps the window exact. */
  lemma RecordKeepsWindow(config: Config, s: Books, h: seq<Entry>, r: FillRecord)
    requires Window(config, s, h) && |h| < U64_MAX && r.fillId !in s.fills
    ensures Window(config, AfterRecordFill(config, s, r), h + [Entry(r, r.status)])
  {
    var lo, h' := Oldest(config, |h|), h + [Entry(r, r.status)];
    RecordedWindow(config, s, h, lo, r);
    NextIs(s.nextSeq);
    PruneShrinksWindow(Recorded(config, s, r), h', lo, Oldest(config, |h'|));
  }

  /** If the fill that has the id is the one to be pruned, the new record goes with it. */
  lemma PruneTakesNewRecord(config: Config, s: Books, h: seq<Entry>, lo: nat, r: FillRecord)
    requires WindowFrom(s, h, lo) && lo < |h| < U64_MAX && h[lo].record.fillId == r.fillId
    ensures r.fillId !in PrunedBelow(Recorded(config, s, r), lo + 1).fills
  {
    var recorded := Recorded(config, s, r);
    PruneBelowWindow(recorded, lo);
    assert lo in recorded.fillOrder && recorded.fillOrder[lo] == r.fillId;
    PruneUnfold(recorded, lo);
  }

  lemma RetainedIdClashes(config: Config, s: Books, h: seq<Entry>, lo: nat, i: nat, r: FillRecord)
    requires WindowFrom(s, h, lo) && |h| < U64_MAX && lo == Oldest(config, |h|)
    requires lo <= i < |h| && h[i].record.fillId == r.fillId
    ensures var h', lo' := h + [Entry(r, r.status)], Oldest(config, |h| + 1);
            !HoldsExactly(AfterRecordFill(config, s, r).fills, h', lo') || !DistinctFrom(h', lo')
  {
    var h', lo' := h + [Entry(r, r.status)], Oldest(config, |h| + 1);
    NextIs(s.nextSeq);
    if i < lo' {
      PruneTakesNewRecord(config, s, h, lo, r);
      NotHeld(AfterRecordFill(config, s, r).fills, h', lo', |h|);
    } else {
      NotDistinct(h', lo', i, |h|);
    }
  }

  /** Recording a fill whose id is retained breaks it: the new record is either shadowed by a
      duplicate id, or removed along with the old fill of that id. */
  lemma RetainedIdBreaksWindow(config: Config, s: Books, h: seq<Entry>, r: FillRecord)
    requires Window(config, s, h) && |h| < U64_MAX && r.fillId in s.fills
    ensures !Window(config, AfterRecordFill(config, s, r), h + [Entry(r, r.status)])
  {
    var i := RetainedUnder(s, h, Oldest(config, |h|), r.fillId);
    RetainedIdClashes(config, s, h, Oldest(config, |h|), i, r);
    assert |h + [Entry(r, r.status)]| == |h| + 1;
  }

  lemma RetainedUnder(s: Books, h: seq<Entry>, lo: nat, fillId: string) returns (i: nat)
    requires WindowFrom(s, h, lo) && fillId in s.fills
    ensures lo <= i < |h| && h[i].record.fillId == fillId
  {
    i :| lo <= i < |h| && h[i].record.fillId == fillId;
  }

  lemma NotHeld(fills: map<string, FillRecord>, h: seq<Entry>, lo: nat, i: nat)
    requires lo <= i < |h| && h[i].record.fillId !in fills
    ensures !HoldsExactly(fills, h, lo)
  {
  }

  lemma NotDistinct(h: seq<Entry>, lo: nat, i: nat, j: nat)
    requires lo <= i < j < |h| && h[i].record.fillId == h[j].record.fillId
    ensures !DistinctFrom(h, lo)
  {
  }

  /** The window stays exact across a recording exactly when the new id is not one of the
      retained ones, which the caller can check first. */
  lemma RecordKeepsWindowIff(config: Config, s: Books, h: seq<Entry>, r: FillRecord)
    requires Window(config, s, h) && |h| < U64_MAX
    ensures Window(config, AfterRecordFill(config, s, r), h + [Entry(r, r.status)]) <==> r.fillId !in s.fills
  {
    if r.fillId in s.fills {
      RetainedIdBreaksWindow(config, s, h, r);
    } else {
      RecordKeepsWindow(config, s, h, r);
    }
  }

  lemma {:induction false} LastUnderIs(h: seq<Entry>, fillId: string, at: nat)
    requires at < |h| && h[at].record.fillId == fillId
    requires forall j :: at < j < |h| ==> h[j].record.fillId != fillId
    ensures LastUnder(h, fillId) == Some(at)
  {
    if at < |h| - 1 {
      LastUnderIs(h[..|h| - 1], fillId, at);
    }
  }

  lemma {:induction false} LastUnderFound(h: seq<Entry>, fillId: string)
    ensures LastUnder(h, fillId).Some? ==>
              LastUnder(h, fillId).value < |h| && h[LastUnder(h, fillId).value].record.fillId == fillId
  {
    if h != [] {
      LastUnderFound(h[..|h| - 1], fillId);
    }
  }

  /** An update finds a fill in the tracker exactly when the history says it is retained, and
      then it is the same fill. */
  lemma UpdateFinds(config: Config, s: Books, h: seq<Entry>, fillId: string)
    requires Window(config, s, h)
    ensures var at, lo := LastUnder(h, fillId), Oldest(config, |h|);
            && (fillId in s.fills <==> at.Some? && lo <= at.value)
            && (at.Some? ==> at.value < |h| && h[at.value].record.fillId == fillId)
            && (fillId in s.fills ==> s.fills[fillId] == h[at.value].Current())
  {
    var lo := Oldest(config, |h|);
    LastUnderFound(h, fillId);
    if fillId in s.fills {
      var i :| lo <= i < |h| && h[i].record.fillId == fillId;
      LastUnderIs(h, fillId, i);
    }
  }

  lemma UpdateHeld(fills: map<string, FillRecord>, h: seq<Entry>, lo: nat, at: nat, status: FillStatus)
    requires HoldsExactly(fills, h, lo) && DistinctFrom(h, lo) && lo <= at < |h|
    ensures HoldsExactly(fills[h[at].record.fillId := h[at].(now := status).Current()],
                         h[at := h[at].(now := status)], lo)
  {
    var h' := h[at := h[at].(now := status)];
    var fills' := fills[h[at].record.fillId := h[at].(now := status).Current()];
    forall id | id in fills' ensures exists i :: lo <= i < |h'| && h'[i].record.fillId == id {
      var i :| lo <= i < |h| && h[i].record.fillId == id;
      assert h'[i].record.fillId == id;
    }
  }

  lemma UpdateKeepsWindow(config: Config, s: Books, h: seq<Entry>, fillId: string, status: FillStatus)
    requires Window(config, s, h)
    ensures Window(config, AfterUpdateStatus(s, fillId, status), HistoryAfter(config, h, Update(fillId, status)))
  {
    UpdateFinds(config, s, h, fillId);
    if fillId in s.fills {
      var at := LastUnder(h, fillId).value;
      var h' := h[at := h[at].(now := status)];
      if h[at].now == status {
        assert h' == h;
      }
      UpdateHeld(s.fills, h, Oldest(config, |h|), at, status);
    }
  }

  lemma RetainedAt(s: Books, h: seq<Entry>, lo: nat, i: u64)
    requires WindowFrom(s, h, lo) && i < |h|
    ensures i in s.fillOrder <==> lo <= i
    ensures lo <= i ==> s.fillOrder[i] in s.fills && s.fills[s.fillOrder[i]] == h[i].Current()
  {
    if lo <= i {
      assert h[i].record.fillId in s.fills;
    }
  }

  lemma {:induction false} RecentIsNewest(s: Books, h: seq<Entry>, lo: nat, start: nat, end: nat)
    requires WindowFrom(s, h, lo) && end <= |h|
    ensures var from := Max(start, lo);
            && |NewestFirst(s, start, end)| == SatSub(end, from)
            && forall i :: 0 <= i < |NewestFirst(s, start, end)| ==>
                 NewestFirst(s, start, end)[i] == h[end - 1 - i].Current()
  {
    if end > start {
      RecentIsNewest(s, h, lo, start, end - 1);
      RetainedAt(s, h, lo, end - 1);
    }
  }

  /** `recent_fills` returns the newest min(limit, retained) records, newest first. */
  lemma RecentFillsAreNewest(config: Config, s: Books, h: seq<Entry>, limit: u64)
    requires Window(config, s, h)
    ensures var recent := NewestFirst(s, SatSub(s.nextSeq, limit), s.nextSeq);
            && |recent| == Min(limit, Min(config.maxFillHistory, |h|))
            && forall i :: 0 <= i < |recent| ==> recent[i] == h[|h| - 1 - i].Current()
  {
    RecentIsNewest(s, h, Oldest(config, |h|), SatSub(|h|, limit), |h|);
  }
}
