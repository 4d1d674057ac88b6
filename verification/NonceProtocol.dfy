/** Any number of tasks calling the nonce manager at once: every interleaving of their
    regions, the nonces it issues, and how far it runs ahead of the confirmed baseline. */
module NonceProtocol {
  import opened Machine
  import opened Results
  import opened Tasks
  import opened NonceManager

  /** Where a task stands between two regions. A task at `Fetched` missed the fast path and
      has its on-chain count; the fetch itself touches no shared state. */
  datatype Pc =
    | Idle
    | Fetched(key: NonceKey, onChain: u64)
    | Inserted(key: NonceKey, onChain: u64)
    | NonceSynced(key: NonceKey, onChain: u64)
    | NonceRemoved(key: NonceKey)

  datatype Action =
    | CallGetNext(key: NonceKey, fetched: Option<u64>)
    | RunInsert
    | RunAssign
    | CallSync(key: NonceKey, onChain: u64)
    | FinishSync
    | CallReset(key: NonceKey)
    | FinishReset
    | CallConfirm(key: NonceKey, nonce: u64)

  /** What a run did to the `nonces` map, in order. */
  datatype Event =
    | Installed(key: NonceKey, value: u64)
    | Issued(key: NonceKey, nonce: u64, slow: bool)
    | Removed(key: NonceKey)

  datatype System = System(maps: Maps, pcs: map<TaskId, Pc>, log: seq<Event>)

  datatype Move = Move(task: TaskId, action: Action)

  const Start := System(Maps(map[], map[]), map[], [])

  function PcOf(s: System, t: TaskId): Pc {
    if t in s.pcs then s.pcs[t] else Idle
  }

  /** One region of one task; None when the task is not at the region's entry. */
  function Step(limit: u64, s: System, move: Move): Option<System> {
    var t := move.task;
    match (PcOf(s, t), move.action)
    case (Idle, CallGetNext(k, fetched)) =>
      var (maps, r) := FastPath(limit, s.maps, k);
      (match r
       case Assigned(nonce) => Some(s.(maps := maps, log := s.log + [Issued(k, nonce, false)]))
       case LimitReached(_) => Some(s)
       case Untracked => Some(if fetched == None then s else s.(pcs := s.pcs[t := Fetched(k, fetched.value)])))
    case (Fetched(k, onChain), RunInsert) =>
      Some(System(InsertIfAbsent(s.maps, k, onChain), s.pcs[t := Inserted(k, onChain)],
                  if k in s.maps.nonces then s.log else s.log + [Installed(k, onChain)]))
    case (Inserted(k, onChain), RunAssign) =>
      var (maps, issued) := AssignNext(s.maps, k, onChain);
      Some(System(maps, s.pcs[t := Idle],
                  if issued == None then s.log else s.log + [Issued(k, issued.value, true)]))
    case (Idle, CallSync(k, onChain)) =>
      Some(System(SetNonce(s.maps, k, onChain), s.pcs[t := NonceSynced(k, onChain)], s.log + [Installed(k, onChain)]))
    case (NonceSynced(k, onChain), FinishSync) =>
      Some(s.(maps := SetConfirmed(s.maps, k, onChain), pcs := s.pcs[t := Idle]))
    case (Idle, CallReset(k)) =>
      Some(System(RemoveNonce(s.maps, k), s.pcs[t := NonceRemoved(k)], s.log + [Removed(k)]))
    case (NonceRemoved(k), FinishReset) =>
      Some(s.(maps := RemoveConfirmed(s.maps, k), pcs := s.pcs[t := Idle]))
    case (Idle, CallConfirm(k, nonce)) =>
      Some(s.(maps := Confirm(s.maps, k, nonce)))
    case _ => None
  }

  /** The system after a run of moves, or None if some move was not possible. */
  function Exec(limit: u64, from: System, run: seq<Move>): Option<System> {
    if run == [] then Some(from)
    else
      var before := Exec(limit, from, run[..|run| - 1]);
      if before == None then None else Step(limit, before.value, run[|run| - 1])
  }

  ghost predicate Reachable(limit: u64, s: System) {
    exists run :: Exec(limit, Start, run) == Some(s)
  }

  // ----- what the log says about a key's current epoch: the time since its entry was
  // ----- last installed or removed

  function Base(log: seq<Event>, k: NonceKey): Option<u64> {
    if log == [] then None
    else
      match log[|log| - 1]
      case Installed(k', value) => if k' == k then Some(value) else Base(log[..|log| - 1], k)
      case Removed(k') => if k' == k then None else Base(log[..|log| - 1], k)
      case Issued(_, _, _) => Base(log[..|log| - 1], k)
  }

  function IssuedInEpoch(log: seq<Event>, k: NonceKey): seq<u64> {
    if log == [] then []
    else
      var before := IssuedInEpoch(log[..|log| - 1], k);
      match log[|log| - 1]
      case Issued(k', nonce, _) => if k' == k then before + [nonce] else before
      case Installed(k', _) => if k' == k then [] else before
      case Removed(k') => if k' == k then [] else before
  }

  function SlowCallsInEpoch(log: seq<Event>, k: NonceKey): nat {
    if log == [] then 0
    else
      var before := SlowCallsInEpoch(log[..|log| - 1], k);
      match log[|log| - 1]
      case Issued(k', _, slow) => if k' == k && slow then before + 1 else before
      case Installed(k', _) => if k' == k then 0 else before
      case Removed(k') => if k' == k then 0 else before
  }

  // ----- uniqueness, order and no gaps

  ghost predicate Counts(issued: seq<u64>, base: u64) {
    forall i :: 0 <= i < |issued| ==> issued[i] == Wrap64(base + i)
  }

  /** The manager's entry for a key is exactly what the log of its epoch says. */
  ghost predicate Consistent(s: System, k: NonceKey) {
    var base, issued := Base(s.log, k), IssuedInEpoch(s.log, k);
    && (k in s.maps.nonces <==> base.Some?)
    && (base.None? ==> issued == [])
    && (base.Some? ==> s.maps.nonces[k] == Wrap64(base.value + |issued|) && Counts(issued, base.value))
  }

  lemma LogExtends(log: seq<Event>, e: Event)
    ensures (log + [e])[..|log + [e]| - 1] == log && (log + [e])[|log + [e]| - 1] == e
  {
  }

  lemma NextOfWrapped(x: nat)
    ensures Next64(Wrap64(x)) == Wrap64(x + 1)
  {
    ModStep(x, 1, U64_MODULUS);
  }

  /** The change one logged event stands for. */
  ghost predicate Effect(before: map<NonceKey, u64>, e: Event, after: map<NonceKey, u64>) {
    match e
    case Installed(k, value) => after == before[k := value]
    case Issued(k, nonce, _) => k in before && nonce == before[k] && after == before[k := Next64(nonce)]
    case Removed(k) => after == before - {k}
  }

  /** Every step logs exactly what it does to `nonces`. */
  lemma StepEffect(limit: u64, s: System, move: Move)
    requires Step(limit, s, move).Some?
    ensures var s' := Step(limit, s, move).value;
            || (s'.log == s.log && s'.maps.nonces == s.maps.nonces)
            || (|s'.log| == |s.log| + 1 && s'.log[..|s.log|] == s.log
                && Effect(s.maps.nonces, s'.log[|s.log|], s'.maps.nonces)
                && (s'.log[|s.log|].Issued? && !s'.log[|s.log|].slow ==>
                      PendingCount(s.maps, s'.log[|s.log|].key) < limit))
  {
  }

  lemma EffectConsistent(s: System, s': System, e: Event, k: NonceKey)
    requires Consistent(s, k) && s'.log == s.log + [e] && Effect(s.maps.nonces, e, s'.maps.nonces)
    ensures Consistent(s', k)
  {
    LogExtends(s.log, e);
    var base := Base(s.log, k);
    if base.Some? {
      NextOfWrapped(base.value + |IssuedInEpoch(s.log, k)|);
    }
  }

  lemma StepConsistent(limit: u64, s: System, move: Move, k: NonceKey)
    requires Step(limit, s, move).Some? && Consistent(s, k)
    ensures Consistent(Step(limit, s, move).value, k)
  {
    var s' := Step(limit, s, move).value;
    StepEffect(limit, s, move);
    if |s'.log| == |s.log| + 1 {
      assert s'.log == s.log + [s'.log[|s.log|]];
      EffectConsistent(s, s', s'.log[|s.log|], k);
    }
  }

  lemma EffectLogConsistent(s: System, e: Event, k: NonceKey)
    requires Consistent(s, k) && LogConsistent(s.log, k)
    requires e.Issued? && e.key == k ==> k in s.maps.nonces && e.nonce == s.maps.nonces[k]
    ensures LogConsistent(s.log + [e], k)
  {
    var log := s.log + [e];
    assert log[..|s.log|] == s.log;
    forall i | 0 <= i < |log| && log[i].Issued? && log[i].key == k ensures ContinuesEpoch(log, i) {
      if i < |s.log| {
        assert log[..i] == s.log[..i] && ContinuesEpoch(s.log, i);
      }
    }
  }

  lemma StepLogConsistent(limit: u64, s: System, move: Move, k: NonceKey)
    requires Step(limit, s, move).Some? && Consistent(s, k) && LogConsistent(s.log, k)
    ensures LogConsistent(Step(limit, s, move).value.log, k)
  {
    var s' := Step(limit, s, move).value;
    StepEffect(limit, s, move);
    if |s'.log| == |s.log| + 1 {
      assert s'.log == s.log + [s'.log[|s.log|]];
      EffectLogConsistent(s, s'.log[|s.log|], k);
    }
  }

  lemma {:induction false} ExecConsistent(limit: u64, run: seq<Move>, k: NonceKey)
    requires Exec(limit, Start, run).Some?
    ensures Consistent(Exec(limit, Start, run).value, k)
    ensures LogConsistent(Exec(limit, Start, run).value.log, k)
  {
    if run != [] {
      ExecConsistent(limit, run[..|run| - 1], k);
      StepConsistent(limit, Exec(limit, Start, run[..|run| - 1]).value, run[|run| - 1], k);
      StepLogConsistent(limit, Exec(limit, Start, run[..|run| - 1]).value, run[|run| - 1], k);
    }
  }

  lemma ReachableConsistent(limit: u64, s: System, k: NonceKey)
    requires Reachable(limit, s)
    ensures Consistent(s, k) && LogConsistent(s.log, k)
  {
    var run :| Exec(limit, Start, run) == Some(s);
    ExecConsistent(limit, run, k);
  }

  /** Every nonce in the log continues the count of its epoch. */
  ghost predicate LogConsistent(log: seq<Event>, k: NonceKey) {
    forall i :: 0 <= i < |log| && log[i].Issued? && log[i].key == k ==> ContinuesEpoch(log, i)
  }

  ghost predicate ContinuesEpoch(log: seq<Event>, i: nat)
    requires i < |log| && log[i].Issued?
  {
    var base := Base(log[..i], log[i].key);
    base.Some? && log[i].nonce == Wrap64(base.value + |IssuedInEpoch(log[..i], log[i].key)|)
  }

  /** The nonces are consecutive from `base` and leave no gap. */
  ghost predicate GapFree(issued: seq<u64>, base: u64) {
    && (forall i :: 0 <= i < |issued| ==> issued[i] == base + i)
    && (forall v: u64 :: v in issued <==> base <= v < base + |issued|)
  }

  lemma CountsIsGapFree(issued: seq<u64>, base: u64)
    requires Counts(issued, base) && base + |issued| <= U64_MODULUS
    ensures GapFree(issued, base)
  {
    forall i | 0 <= i < |issued| ensures issued[i] == base + i {
    }
    forall v: u64 | base <= v < base + |issued| ensures v in issued {
      assert issued[v - base] == v;
    }
  }

  /** Until the 64-bit counter wraps, the nonces of an epoch are consecutive: in issue order
      they count up from the installed value, leave no gap, and end just below the entry. */
  lemma EpochIsGapFree(limit: u64, s: System, k: NonceKey)
    requires Reachable(limit, s)
    ensures var base, issued := Base(s.log, k), IssuedInEpoch(s.log, k);
            base.Some? && base.value + |issued| < U64_MODULUS ==>
              && GapFree(issued, base.value)
              && k in s.maps.nonces && s.maps.nonces[k] == base.value + |issued|
  {
    ReachableConsistent(limit, s, k);
    var base, issued := Base(s.log, k), IssuedInEpoch(s.log, k);
    if base.Some? && base.value + |issued| < U64_MODULUS {
      CountsIsGapFree(issued, base.value);
    }
  }

  /** No two callers of one epoch get the same nonce, exactly as long as the epoch issues no
      more than 2^64 of them. */
  lemma EpochIsDistinct(limit: u64, s: System, k: NonceKey)
    requires Reachable(limit, s)
    ensures var issued := IssuedInEpoch(s.log, k);
            (forall i, j :: 0 <= i < j < |issued| ==> issued[i] != issued[j]) <==> |issued| <= U64_MODULUS
  {
    ReachableConsistent(limit, s, k);
    var base, issued := Base(s.log, k), IssuedInEpoch(s.log, k);
    forall i, j | 0 <= i < j < |issued| && j - i < U64_MODULUS ensures issued[i] != issued[j] {
      WrapDiffers(base.value + i, base.value + j);
    }
    if |issued| > U64_MODULUS {
      assert issued[0] == issued[U64_MODULUS];
    }
  }

  lemma WrapDiffers(x: nat, y: nat)
    requires 0 < y - x < U64_MODULUS
    ensures Wrap64(x) != Wrap64(y)
  {
    var dq := y / U64_MODULUS - x / U64_MODULUS;
    assert y - x == dq * U64_MODULUS + (y % U64_MODULUS - x % U64_MODULUS);
  }

  // ----- across epochs

  ghost predicate IssuedAt(log: seq<Event>, i: nat, k: NonceKey)
    requires i < |log|
  {
    log[i].Issued? && log[i].key == k
  }

  ghost predicate Increasing(log: seq<Event>, k: NonceKey) {
    forall i, j :: 0 <= i < j < |log| && IssuedAt(log, i, k) && IssuedAt(log, j, k)
      ==> log[i].nonce < log[j].nonce
  }

  ghost predicate AllBelow(log: seq<Event>, k: NonceKey, bound: int) {
    forall i :: 0 <= i < |log| && IssuedAt(log, i, k) ==> log[i].nonce < bound
  }

  /** The epoch that `log[j]` opens was installed above all nonces issued before it. */
  ghost predicate OpensAbove(log: seq<Event>, j: nat, k: NonceKey)
    requires j < |log|
  {
    IssuedAt(log, j, k) && IssuedInEpoch(log[..j], k) == [] ==>
      Base(log[..j], k).Some? && AllBelow(log[..j], k, Base(log[..j], k).value)
  }

  ghost predicate NeverRewinds(log: seq<Event>, k: NonceKey) {
    forall j :: 0 <= j < |log| ==> OpensAbove(log, j, k)
  }

  /** Over a whole run, resyncs and resets included, later callers always get larger nonces
      exactly when no resync, and no first fetch after a reset, rewinds the entry to or below
      a nonce already issued. */
  lemma IncreasingIffNeverRewinds(limit: u64, s: System, k: NonceKey)
    requires Reachable(limit, s) && AllBelow(s.log, k, U64_MAX)
    ensures Increasing(s.log, k) <==> NeverRewinds(s.log, k)
  {
    ReachableConsistent(limit, s, k);
    if NeverRewinds(s.log, k) {
      ForwardIncreases(s.log, k);
    }
    if Increasing(s.log, k) {
      IncreasingForward(s.log, k);
    }
  }

  lemma IncreasingForward(log: seq<Event>, k: NonceKey)
    requires LogConsistent(log, k) && Increasing(log, k)
    ensures NeverRewinds(log, k)
  {
    forall j | 0 <= j < |log| ensures OpensAbove(log, j, k) {
      if IssuedAt(log, j, k) && IssuedInEpoch(log[..j], k) == [] {
        assert ContinuesEpoch(log, j);
        forall i | 0 <= i < j && IssuedAt(log[..j], i, k) ensures log[..j][i].nonce < log[j].nonce {
          assert IssuedAt(log, i, k);
        }
      }
    }
  }

  /** The entry's value, as the log has it. */
  ghost function Next(log: seq<Event>, k: NonceKey): int {
    if Base(log, k).None? then -1 else Wrap64(Base(log, k).value + |IssuedInEpoch(log, k)|)
  }

  lemma NextAfterIssue(log: seq<Event>, k: NonceKey)
    requires log != [] && IssuedAt(log, |log| - 1, k)
    requires log[|log| - 1].nonce == Next(log[..|log| - 1], k) < U64_MAX
    ensures Next(log, k) == log[|log| - 1].nonce + 1
  {
    var init := log[..|log| - 1];
    NextOfWrapped(Base(init, k).value + |IssuedInEpoch(init, k)|);
  }

  lemma NextAfterOther(log: seq<Event>, k: NonceKey)
    requires log != [] && !IssuedAt(log, |log| - 1, k) && IssuedInEpoch(log, k) != []
    ensures IssuedInEpoch(log[..|log| - 1], k) != [] && Next(log, k) == Next(log[..|log| - 1], k)
  {
  }

  lemma {:induction false} ForwardIncreases(log: seq<Event>, k: NonceKey)
    requires LogConsistent(log, k) && NeverRewinds(log, k) && AllBelow(log, k, U64_MAX)
    ensures Increasing(log, k)
    ensures IssuedInEpoch(log, k) != [] ==> AllBelow(log, k, Next(log, k))
  {
    if log != [] {
      var n := |log| - 1;
      var init := log[..n];
      PrefixKeeps(log, n, k);
      ForwardIncreases(init, k);
      if IssuedAt(log, n, k) {
        LastContinues(log, k);
        ExtendIncreasing(log, k);
        NextAfterIssue(log, k);
      } else {
        ExtendIncreasing(log, k);
        if IssuedInEpoch(log, k) != [] {
          NextAfterOther(log, k);
        }
      }
    }
  }

  lemma LastContinues(log: seq<Event>, k: NonceKey)
    requires LogConsistent(log, k) && NeverRewinds(log, k) && AllBelow(log, k, U64_MAX)
    requires log != [] && IssuedAt(log, |log| - 1, k)
    requires var init := log[..|log| - 1]; IssuedInEpoch(init, k) != [] ==> AllBelow(init, k, Next(init, k))
    ensures log[|log| - 1].nonce == Next(log[..|log| - 1], k) < U64_MAX
    ensures AllBelow(log[..|log| - 1], k, log[|log| - 1].nonce)
  {
    var n := |log| - 1;
    assert ContinuesEpoch(log, n) && OpensAbove(log, n, k);
  }

  lemma PrefixKeeps(log: seq<Event>, n: nat, k: NonceKey)
    requires n <= |log| && LogConsistent(log, k) && NeverRewinds(log, k) && AllBelow(log, k, U64_MAX)
    ensures LogConsistent(log[..n], k) && NeverRewinds(log[..n], k) && AllBelow(log[..n], k, U64_MAX)
  {
    forall i | 0 <= i < n ensures log[..n][i] == log[i] && log[..n][..i] == log[..i] {
    }
    forall i | 0 <= i < n && log[..n][i].Issued? && log[..n][i].key == k ensures ContinuesEpoch(log[..n], i) {
      assert ContinuesEpoch(log, i);
    }
    forall j | 0 <= j < n ensures OpensAbove(log[..n], j, k) {
      assert OpensAbove(log, j, k);
    }
    forall i | 0 <= i < n && IssuedAt(log[..n], i, k) ensures log[..n][i].nonce < U64_MAX {
      assert IssuedAt(log, i, k);
    }
  }

  lemma ExtendIncreasing(log: seq<Event>, k: NonceKey)
    requires log != [] && Increasing(log[..|log| - 1], k)
    requires IssuedAt(log, |log| - 1, k) ==> AllBelow(log[..|log| - 1], k, log[|log| - 1].nonce)
    ensures Increasing(log, k)
    ensures IssuedAt(log, |log| - 1, k) ==> AllBelow(log, k, log[|log| - 1].nonce + 1)
    ensures !IssuedAt(log, |log| - 1, k) ==> forall b :: AllBelow(log[..|log| - 1], k, b) ==> AllBelow(log, k, b)
  {
    var init := log[..|log| - 1];
    forall i | 0 <= i < |init| ensures init[i] == log[i] && IssuedAt(log, i, k) == IssuedAt(init, i, k) {
    }
  }
}
