/** The confirmed baseline, and that confirming lets callers go on: over calls that do not overlap
    and over every interleaving. */
module NonceBaseline {
  import opened Machine
  import opened Results
  import opened Tasks
  import opened NonceManager
  import opened NonceProtocol
  import opened NoncePending

  /** The stored baseline of a key is the largest of the offered values; none is stored if none was. */
  ghost predicate IsLargest(confirmed: map<NonceKey, u64>, k: NonceKey, offered: seq<u64>) {
    && (k in confirmed <==> offered != [])
    && (k in confirmed ==> confirmed[k] in offered && forall v :: v in offered ==> v <= confirmed[k])
  }

  // ----- calls that do not overlap

  /** The baselines offered for a key since its last resync or reset: what the resync stored or, if
      there is no baseline yet, what a first fetch found, and one more than each nonce confirmed. */
  function Offered(limit: u64, calls: seq<Call>, k: NonceKey): seq<u64> {
    if calls == [] then []
    else
      var init, last := calls[..|calls| - 1], calls[|calls| - 1];
      var before := Offered(limit, init, k);
      if last.key != k then before
      else
        match last
        case Sync(_, onChain) => [onChain]
        case Reset(_) => []
        case ConfirmUpTo(_, nonce) => before + [Next64(nonce)]
        case GetNext(_, fetched) =>
          if fetched.Some? && before == [] && k !in PerformAll(limit, init).nonces then [fetched.value] else before
  }

  /** Over every run of calls the baseline of a key is exactly the largest value offered since its
      last resync or reset. */
  lemma {:induction false} BaselineIsLargest(limit: u64, calls: seq<Call>, k: NonceKey)
    ensures IsLargest(PerformAll(limit, calls).confirmed, k, Offered(limit, calls, k))
    ensures k in PerformAll(limit, calls).nonces ==> k in PerformAll(limit, calls).confirmed
  {
    if calls != [] {
      BaselineIsLargest(limit, calls[..|calls| - 1], k);
      BaselineAfterCall(limit, PerformAll(limit, calls[..|calls| - 1]), calls[|calls| - 1], k,
                        Offered(limit, calls[..|calls| - 1], k), Offered(limit, calls, k));
    }
  }

  lemma BaselineAfterCall(limit: u64, m: Maps, call: Call, k: NonceKey, before: seq<u64>, after: seq<u64>)
    requires IsLargest(m.confirmed, k, before) && (k in m.nonces ==> k in m.confirmed)
    requires after ==
               if call.key != k then before
               else if call.Sync? then [call.onChain]
               else if call.Reset? then []
               else if call.ConfirmUpTo? then before + [Next64(call.nonce)]
               else if call.fetched.Some? && before == [] && k !in m.nonces then [call.fetched.value] else before
    ensures var m' := Perform(limit, m, call);
            IsLargest(m'.confirmed, k, after) && (k in m'.nonces ==> k in m'.confirmed)
  {
    var m' := Perform(limit, m, call);
    if call.key == k && call.ConfirmUpTo? {
      assert m'.nonces == m.nonces;
      LargestOfMore(before, Next64(call.nonce));
    }
  }

  lemma LargestOfMore(s: seq<u64>, v: u64)
    ensures forall x :: x in s + [v] <==> x in s || x == v
  {
  }

  // ----- every interleaving

  /** The same, by the regions that store: the second of a resync or reset, and the second of a slow
      call that finds its entry. */
  function OfferedIn(limit: u64, run: seq<Move>, k: NonceKey): seq<u64> {
    if run == [] then []
    else
      var init, move := run[..|run| - 1], run[|run| - 1];
      var before := OfferedIn(limit, init, k);
      var s := Exec(limit, Start, init);
      if s == None then before else OfferedAfter(s.value, move, k, before)
  }

  function OfferedAfter(s: System, move: Move, k: NonceKey, before: seq<u64>): seq<u64> {
    match (PcOf(s, move.task), move.action)
    case (NonceSynced(k', onChain), FinishSync) => if k' == k then [onChain] else before
    case (NonceRemoved(k'), FinishReset) => if k' == k then [] else before
    case (Idle, CallConfirm(k', nonce)) => if k' == k then before + [Next64(nonce)] else before
    case (Inserted(k', onChain), RunAssign) =>
      if k' == k && before == [] && k in s.maps.nonces then [onChain] else before
    case _ => before
  }

  lemma BaselineAfterMove(limit: u64, s: System, move: Move, k: NonceKey, before: seq<u64>)
    requires Step(limit, s, move).Some? && IsLargest(s.maps.confirmed, k, before)
    ensures IsLargest(Step(limit, s, move).value.maps.confirmed, k, OfferedAfter(s, move, k, before))
  {
    if move.action.CallConfirm? {
      LargestOfMore(before, Next64(move.action.nonce));
    }
  }

  /** In every interleaving of any number of tasks the baseline of a key is exactly the largest value
      offered since the last resync or reset of the key finished. */
  lemma {:induction false} BaselineIsLargestUnderRaces(limit: u64, run: seq<Move>, k: NonceKey)
    requires Exec(limit, Start, run).Some?
    ensures IsLargest(Exec(limit, Start, run).value.maps.confirmed, k, OfferedIn(limit, run, k))
  {
    if run != [] {
      var init := run[..|run| - 1];
      BaselineIsLargestUnderRaces(limit, init, k);
      BaselineAfterMove(limit, Exec(limit, Start, init).value, run[|run| - 1], k, OfferedIn(limit, init, k));
    }
  }

  // ----- going on

  /** What an uninterrupted call answers: a tracked key's entry exactly while it is less than the
      limit ahead of the baseline (0 if there is none), and the fetched count for an untracked key. */
  lemma CallAnswers(limit: u64, m: Maps, k: NonceKey, fetched: Option<u64>)
    ensures k in m.nonces ==>
              var entry: int := m.nonces[k];
              var ahead := Max(entry - if k in m.confirmed then m.confirmed[k] else 0, 0);
              var (m', r) := GetNextNonce(limit, m, k, fetched);
              && (r == Ok(entry) <==> ahead < limit)
              && (r.Err? ==> m' == m && r == Err(PendingLimit(ahead)))
    ensures k !in m.nonces ==>
              var (m', r) := GetNextNonce(limit, m, k, fetched);
              if fetched == None then m' == m && r == Err(FetchFailed)
              else r == Ok(fetched.value) && k in m'.nonces && m'.nonces[k] == Next64(fetched.value)
  {
  }

  lemma EntryFollowsLast(limit: u64, s: System, k: NonceKey)
    requires Reachable(limit, s) && IssuedInEpoch(s.log, k) != []
    ensures var issued := IssuedInEpoch(s.log, k);
            k in s.maps.nonces && s.maps.nonces[k] == Next64(issued[|issued| - 1])
  {
    ReachableConsistent(limit, s, k);
    var base, issued := Base(s.log, k), IssuedInEpoch(s.log, k);
    NextOfWrapped(base.value + (|issued| - 1));
  }

  /** In any reachable state, whatever the other tasks are at: once the last nonce issued of a key is
      confirmed nothing is pending, and the next call is issued the entry. */
  lemma ConfirmingLetsCallersGoOn(limit: u64, s: System, t: TaskId, k: NonceKey, fetched: Option<u64>)
    requires Reachable(limit, s) && PcOf(s, t) == Idle && IssuedInEpoch(s.log, k) != []
    ensures var issued := IssuedInEpoch(s.log, k);
            var last := issued[|issued| - 1];
            var confirmed := Step(limit, s, Move(t, CallConfirm(k, last)));
            && confirmed.Some? && PendingCount(confirmed.value.maps, k) == 0
            && k in s.maps.nonces && s.maps.nonces[k] == Next64(last)
            && (limit >= 1 ==>
                  var next := Step(limit, confirmed.value, Move(t, CallGetNext(k, fetched)));
                  next.Some? && next.value.log == s.log + [Issued(k, Next64(last), false)])
  {
    EntryFollowsLast(limit, s, k);
    var issued := IssuedInEpoch(s.log, k);
    var s' := Step(limit, s, Move(t, CallConfirm(k, issued[|issued| - 1]))).value;
    assert k in s'.maps.confirmed && s'.maps.confirmed[k] >= s'.maps.nonces[k];
  }
}
