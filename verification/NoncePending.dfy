/** How far the issued nonces of a key can run ahead of its confirmed baseline, with and
    without overlapping calls, and what else one region leaves alone. */
module NoncePending {
  import opened Machine
  import opened Results
  import opened Tasks
  import opened NonceManager
  import opened NonceProtocol

  // ----- one region at a time

  ghost function KeyOf(s: System, move: Move): NonceKey {
    match PcOf(s, move.task)
    case Fetched(k, _) => k
    case Inserted(k, _) => k
    case NonceSynced(k, _) => k
    case NonceRemoved(k) => k
    case Idle =>
      match move.action
      case CallGetNext(k, _) => k
      case CallSync(k, _) => k
      case CallReset(k) => k
      case CallConfirm(k, _) => k
      case _ => NonceKey(0, 0)
  }

  lemma OtherEntriesUntouched(limit: u64, s: System, move: Move, k: NonceKey)
    requires Step(limit, s, move).Some? && k != KeyOf(s, move)
    ensures var s' := Step(limit, s, move).value;
            && (k in s'.maps.nonces <==> k in s.maps.nonces)
            && (k in s.maps.nonces ==> s'.maps.nonces[k] == s.maps.nonces[k])
            && (k in s'.maps.confirmed <==> k in s.maps.confirmed)
            && (k in s.maps.confirmed ==> s'.maps.confirmed[k] == s.maps.confirmed[k])
  {
  }

  lemma OtherEventsOnly(limit: u64, s: System, move: Move, k: NonceKey)
    requires Step(limit, s, move).Some? && k != KeyOf(s, move)
    ensures var s' := Step(limit, s, move).value;
            s'.log == s.log || (|s'.log| == |s.log| + 1 && s'.log[..|s.log|] == s.log && s'.log[|s.log|].key != k)
  {
  }

  /** A region touches the entries and the epoch of one key only. */
  lemma OtherKeysUntouched(limit: u64, s: System, move: Move, k: NonceKey)
    requires Step(limit, s, move).Some? && k != KeyOf(s, move)
    ensures var s' := Step(limit, s, move).value;
            && (k in s'.maps.nonces <==> k in s.maps.nonces)
            && (k in s.maps.nonces ==> s'.maps.nonces[k] == s.maps.nonces[k])
            && (k in s'.maps.confirmed <==> k in s.maps.confirmed)
            && (k in s.maps.confirmed ==> s'.maps.confirmed[k] == s.maps.confirmed[k])
            && Base(s'.log, k) == Base(s.log, k) && IssuedInEpoch(s'.log, k) == IssuedInEpoch(s.log, k)
  {
    OtherEntriesUntouched(limit, s, move, k);
    OtherEventsOnly(limit, s, move, k);
  }

  /** Only the end of a resync or of a reset can move a confirmed baseline back. */
  lemma ConfirmedOnlyAdvances(limit: u64, s: System, move: Move, k: NonceKey)
    requires Step(limit, s, move).Some? && k in s.maps.confirmed
    ensures var s' := Step(limit, s, move).value;
            (k in s'.maps.confirmed && s'.maps.confirmed[k] >= s.maps.confirmed[k])
            || (PcOf(s, move.task).NonceSynced? && KeyOf(s, move) == k)
            || (PcOf(s, move.task).NonceRemoved? && KeyOf(s, move) == k)
  {
  }

  /** A call that nothing interrupts is the three regions of its task in a row. */
  lemma UninterruptedCall(limit: u64, s: System, t: TaskId, k: NonceKey, onChain: u64)
    requires PcOf(s, t) == Idle && k !in s.maps.nonces
    ensures var call := GetNextNonce(limit, s.maps, k, Some(onChain));
            var end := Exec(limit, s, [Move(t, CallGetNext(k, Some(onChain))), Move(t, RunInsert), Move(t, RunAssign)]);
            end.Some? && call.0 == end.value.maps
            && end.value.log == s.log + [Installed(k, onChain), Issued(k, onChain, true)]
            && call.1 == Ok(onChain)
  {
    var a, b, c := Move(t, CallGetNext(k, Some(onChain))), Move(t, RunInsert), Move(t, RunAssign);
    assert [a, b, c][..2] == [a, b] && [a, b][..1] == [a] && [a][..0] == [];
    assert Exec(limit, s, []) == Some(s);
    assert Exec(limit, s, [a]) == Some(s.(pcs := s.pcs[t := Fetched(k, onChain)]));
    var s2 := Exec(limit, s, [a, b]).value;
    assert s2.log == s.log + [Installed(k, onChain)];
  }

  // ----- the error the source calls impossible

  /** The last event in which an entry of the key was installed or removed. */
  function LastChange(log: seq<Event>, k: NonceKey): Option<Event> {
    if log == [] then None
    else if log[|log| - 1].key == k && !log[|log| - 1].Issued? then Some(log[|log| - 1])
    else LastChange(log[..|log| - 1], k)
  }

  /** Task `t` has installed or found its entry in `from`, and has not moved in the run since. */
  ghost predicate WaitsToAssign(limit: u64, from: System, run: seq<Move>, t: TaskId, k: NonceKey, onChain: u64) {
    && PcOf(from, t) == Inserted(k, onChain) && k in from.maps.nonces
    && Exec(limit, from, run).Some? && forall i :: 0 <= i < |run| ==> run[i].task != t
  }

  lemma WaitingPrefix(limit: u64, from: System, run: seq<Move>, t: TaskId, k: NonceKey, onChain: u64)
    requires WaitsToAssign(limit, from, run, t, k, onChain) && run != []
    ensures WaitsToAssign(limit, from, run[..|run| - 1], t, k, onChain) && run[|run| - 1].task != t
  {
  }

  /** Whether the entry is still there can be read off what was logged since. */
  lemma {:induction false} EntrySince(limit: u64, from: System, run: seq<Move>, t: TaskId, k: NonceKey, onChain: u64)
    requires WaitsToAssign(limit, from, run, t, k, onChain)
    ensures var s := Exec(limit, from, run).value;
            && PcOf(s, t) == Inserted(k, onChain) && |s.log| >= |from.log|
            && var last := LastChange(s.log[|from.log|..], k);
               (k in s.maps.nonces <==> last.None? || last.value.Installed?)
  {
    if run == [] {
      assert from.log[|from.log|..] == [];
    } else {
      WaitingPrefix(limit, from, run, t, k, onChain);
      EntrySince(limit, from, run[..|run| - 1], t, k, onChain);
      EntryStep(limit, Exec(limit, from, run[..|run| - 1]).value, run[|run| - 1], k, |from.log|);
    }
  }

  lemma EntryStep(limit: u64, s: System, move: Move, k: NonceKey, start: nat)
    requires Step(limit, s, move).Some? && start <= |s.log|
    requires var last := LastChange(s.log[start..], k); k in s.maps.nonces <==> last.None? || last.value.Installed?
    ensures var s' := Step(limit, s, move).value;
            start <= |s'.log| && var last := LastChange(s'.log[start..], k);
            k in s'.maps.nonces <==> last.None? || last.value.Installed?
  {
    var s' := Step(limit, s, move).value;
    StepEffect(limit, s, move);
    if |s'.log| == |s.log| + 1 {
      var since := s'.log[start..];
      assert since[..|since| - 1] == s.log[start..] && since[|since| - 1] == s'.log[|s.log|];
    }
  }

  /** A task runs its first slow region, others move, and it re-locks: the second region fails
      exactly when the last change of the entry in between was a reset removing it. */
  lemma AssignFailsIff(limit: u64, before: System, run: seq<Move>, t: TaskId, k: NonceKey, onChain: u64)
    requires PcOf(before, t) == Fetched(k, onChain)
    requires var inserted := Step(limit, before, Move(t, RunInsert));
             inserted.Some? && Exec(limit, inserted.value, run).Some?
    requires forall i :: 0 <= i < |run| ==> run[i].task != t
    ensures var from := Step(limit, before, Move(t, RunInsert)).value;
            var s := Exec(limit, from, run).value;
            && PcOf(s, t) == Inserted(k, onChain) && |s.log| >= |from.log|
            && (AssignNext(s.maps, k, onChain).1 == None <==> LastChange(s.log[|from.log|..], k) == Some(Removed(k)))
  {
    var from := Step(limit, before, Move(t, RunInsert)).value;
    EntrySince(limit, from, run, t, k, onChain);
    LastChangeIs(Exec(limit, from, run).value.log[|from.log|..], k);
  }

  lemma {:induction false} LastChangeIs(log: seq<Event>, k: NonceKey)
    ensures LastChange(log, k).Some? ==> LastChange(log, k).value.key == k && !LastChange(log, k).value.Issued?
  {
    if log != [] {
      LastChangeIs(log[..|log| - 1], k);
    }
  }

  /** The error is reachable: a reset between the two slow regions makes the call fail. */
  lemma ResetRacesAssign(k: NonceKey)
    ensures exists run ::
              var end := Exec(16, Start, run);
              end.Some? && PcOf(end.value, 0) == Inserted(k, 5) && AssignNext(end.value.maps, k, 5).1 == None
  {
    var a, b, c := Move(0, CallGetNext(k, Some(5))), Move(0, RunInsert), Move(1, CallReset(k));
    assert [a, b, c][..2] == [a, b] && [a, b][..1] == [a] && [a][..0] == [];
    assert Exec(16, Start, []) == Some(Start);
    assert Exec(16, Start, [a]).Some?;
    assert Exec(16, Start, [a, b]).Some?;
    assert Exec(16, Start, [a, b, c]).Some?;
  }

  // ----- the pending bound under races

  /** No resync or reset of `k` starts, every fetch for `k` saw the on-chain count `c0`, and as
      long as there is no baseline, confirmations of `k` are for transactions at or past it. */
  ghost predicate Disciplined(s: System, action: Action, k: NonceKey, c0: u64) {
    match action
    case CallGetNext(k', fetched) => k' == k && fetched.Some? ==> fetched.value == c0
    case CallConfirm(k', nonce) => k' == k && k !in s.maps.confirmed ==> Next64(nonce) >= c0
    case CallSync(k', _) => k' != k
    case CallReset(k') => k' != k
    case _ => true
  }

  ghost predicate DisciplinedRun(limit: u64, from: System, run: seq<Move>, k: NonceKey, c0: u64) {
    run != [] ==>
      var before := Exec(limit, from, run[..|run| - 1]);
      DisciplinedRun(limit, from, run[..|run| - 1], k, c0)
      && (before.Some? ==> Disciplined(before.value, run[|run| - 1].action, k, c0))
  }

  ghost predicate PcDisciplined(pc: Pc, k: NonceKey, c0: u64) {
    match pc
    case Fetched(k', onChain) => k' == k ==> onChain == c0
    case Inserted(k', onChain) => k' == k ==> onChain == c0
    case NonceSynced(k', _) => k' != k
    case NonceRemoved(k') => k' != k
    case Idle => true
  }

  /** The baseline a bound can be stated against before one is stored. */
  ghost function Baseline(s: System, k: NonceKey, c0: u64): u64 {
    if k in s.maps.confirmed then s.maps.confirmed[k] else c0
  }

  ghost predicate Bounded(limit: u64, s: System, k: NonceKey, c0: u64) {
    && (forall t :: PcDisciplined(PcOf(s, t), k, c0))
    && Baseline(s, k, c0) >= c0
    && (k in s.maps.nonces ==>
          s.maps.nonces[k] - Baseline(s, k, c0) <= limit + SlowCallsInEpoch(s.log, k))
  }

  /** A key nobody tracks and no task is working on: the start of a run, or after a reset. */
  ghost predicate Quiet(s: System, k: NonceKey) {
    && k !in s.maps.nonces && k !in s.maps.confirmed
    && forall t :: PcOf(s, t).Idle? || PcOf(s, t).key != k
  }

  lemma PcsStayDisciplined(limit: u64, s: System, move: Move, k: NonceKey, c0: u64)
    requires Step(limit, s, move).Some? && Disciplined(s, move.action, k, c0)
    requires forall t :: PcDisciplined(PcOf(s, t), k, c0)
    ensures forall t :: PcDisciplined(PcOf(Step(limit, s, move).value, t), k, c0)
  {
    var s' := Step(limit, s, move).value;
    assert PcDisciplined(PcOf(s, move.task), k, c0);
    forall t ensures PcDisciplined(PcOf(s', t), k, c0) {
      assert PcDisciplined(PcOf(s, t), k, c0);
    }
  }

  /** Under discipline the baseline of `k` never falls. */
  lemma BaselineAdvances(limit: u64, s: System, move: Move, k: NonceKey, c0: u64)
    requires Step(limit, s, move).Some? && Disciplined(s, move.action, k, c0)
    requires PcDisciplined(PcOf(s, move.task), k, c0) && Baseline(s, k, c0) >= c0
    ensures Baseline(Step(limit, s, move).value, k, c0) >= Baseline(s, k, c0)
  {
  }

  /** Under discipline an entry of `k` is installed once, at `c0`, and never removed. */
  lemma InstalledAtC0(limit: u64, s: System, move: Move, k: NonceKey, c0: u64)
    requires Step(limit, s, move).Some? && Disciplined(s, move.action, k, c0)
    requires PcDisciplined(PcOf(s, move.task), k, c0)
    ensures var s' := Step(limit, s, move).value;
            |s'.log| == |s.log| + 1 ==>
              var e := s'.log[|s.log|];
              e.key == k ==> !e.Removed? && (e.Installed? ==> e.value == c0 && k !in s.maps.nonces)
  {
  }

  lemma EventBounded(limit: u64, s: System, e: Event, s': System, k: NonceKey, c0: u64)
    requires Bounded(limit, s, k, c0)
    requires s'.log == s.log + [e] && Effect(s.maps.nonces, e, s'.maps.nonces)
    requires e.key == k ==> !e.Removed? && (e.Installed? ==> e.value == c0)
    requires e.Issued? && !e.slow ==> PendingCount(s.maps, e.key) < limit
    requires Baseline(s', k, c0) >= Baseline(s, k, c0)
    ensures k in s'.maps.nonces ==>
              s'.maps.nonces[k] - Baseline(s', k, c0) <= limit + SlowCallsInEpoch(s'.log, k)
  {
    LogExtends(s.log, e);
  }

  lemma BoundedStep(limit: u64, s: System, move: Move, k: NonceKey, c0: u64)
    requires Step(limit, s, move).Some? && Disciplined(s, move.action, k, c0) && Bounded(limit, s, k, c0)
    ensures Bounded(limit, Step(limit, s, move).value, k, c0)
  {
    var s' := Step(limit, s, move).value;
    assert PcDisciplined(PcOf(s, move.task), k, c0);
    PcsStayDisciplined(limit, s, move, k, c0);
    BaselineAdvances(limit, s, move, k, c0);
    StepEffect(limit, s, move);
    if |s'.log| == |s.log| + 1 {
      InstalledAtC0(limit, s, move, k, c0);
      assert s'.log == s.log + [s'.log[|s.log|]];
      EventBounded(limit, s, s'.log[|s.log|], s', k, c0);
    }
  }

  /** From a quiet key on, under any interleaving, the pending count exceeds the configured
      limit by no more than the number of calls that went through the slow path. */
  lemma {:induction false} PendingBoundUnderRaces(limit: u64, from: System, run: seq<Move>, k: NonceKey, c0: u64)
    requires Quiet(from, k) && Exec(limit, from, run).Some?
    requires DisciplinedRun(limit, from, run, k, c0)
    ensures var s := Exec(limit, from, run).value;
            Bounded(limit, s, k, c0)
            && (k in s.maps.confirmed ==> PendingCount(s.maps, k) <= limit + SlowCallsInEpoch(s.log, k))
  {
    if run != [] {
      PendingBoundUnderRaces(limit, from, run[..|run| - 1], k, c0);
      BoundedStep(limit, Exec(limit, from, run[..|run| - 1]).value, run[|run| - 1], k, c0);
    } else {
      forall t ensures PcDisciplined(PcOf(from, t), k, c0) {
        assert PcOf(from, t).Idle? || PcOf(from, t).key != k;
      }
    }
  }

  // ----- the bound is attained

  /** A run from the start, under the discipline that the bound asks for with count 0. */
  ghost predicate RunsTo(limit: u64, run: seq<Move>, s: System, k: NonceKey) {
    Exec(limit, Start, run) == Some(s) && DisciplinedRun(limit, Start, run, k, 0)
  }

  lemma RunsOn(limit: u64, run: seq<Move>, move: Move, s: System, s': System, k: NonceKey)
    requires RunsTo(limit, run, s, k) && Step(limit, s, move) == Some(s') && Disciplined(s, move.action, k, 0)
    ensures RunsTo(limit, run + [move], s', k)
  {
    assert (run + [move])[..|run|] == run;
  }

  /** Tasks 1 up to `n` are in their slow path for `k`, at a stage that `pc` shows. */
  ghost predicate InSlowPath(s: System, n: nat, pc: Pc) {
    forall t: TaskId :: PcOf(s, t) == if 1 <= t <= n then pc else Idle
  }

  /** No baseline yet, `next` nonces issued by fast calls. */
  ghost predicate NoBaseline(s: System, k: NonceKey, next: u64) {
    s.maps == Maps(map[k := next], map[]) && SlowCallsInEpoch(s.log, k) == 0
  }

  lemma {:induction false} AllFetch(limit: u64, k: NonceKey, n: nat) returns (run: seq<Move>, s: System)
    ensures RunsTo(limit, run, s, k) && s.maps == Start.maps && s.log == [] && InSlowPath(s, n, Fetched(k, 0))
  {
    if n == 0 {
      run, s := [], Start;
    } else {
      run, s := AllFetch(limit, k, n - 1);
      var move, s' := Move(n, CallGetNext(k, Some(0))), s.(pcs := s.pcs[n := Fetched(k, 0)]);
      assert PcOf(s, n) == Idle;
      RunsOn(limit, run, move, s, s', k);
      forall t: TaskId ensures PcOf(s', t) == if 1 <= t <= n then Fetched(k, 0) else Idle {
        assert t != n ==> PcOf(s', t) == PcOf(s, t);
      }
      run, s := run + [move], s';
    }
  }

  function InsertPc(k: NonceKey, n: nat, done: nat, t: TaskId): Pc {
    if 1 <= t <= done then Inserted(k, 0) else if done < t <= n then Fetched(k, 0) else Idle
  }

  /** Tasks up to `done` have run their first region. */
  ghost predicate Inserting(s: System, k: NonceKey, n: nat, done: nat) {
    && (forall t: TaskId :: PcOf(s, t) == InsertPc(k, n, done, t))
    && (if done == 0 then s.maps == Start.maps && s.log == [] else NoBaseline(s, k, 0))
  }

  lemma {:induction false} AllInsert(limit: u64, k: NonceKey, n: nat, done: nat) returns (run: seq<Move>, s: System)
    requires done <= n
    ensures RunsTo(limit, run, s, k) && Inserting(s, k, n, done)
  {
    if done == 0 {
      run, s := AllFetch(limit, k, n);
    } else {
      run, s := AllInsert(limit, k, n, done - 1);
      var move := Move(done, RunInsert);
      assert PcOf(s, done) == Fetched(k, 0);
      InsertZero(limit, s, k, n, done);
      var s' := Step(limit, s, move).value;
      RunsOn(limit, run, move, s, s', k);
      run, s := run + [move], s';
    }
  }

  lemma InsertZero(limit: u64, s: System, k: NonceKey, n: nat, done: nat)
    requires 1 <= done <= n && Inserting(s, k, n, done - 1)
    ensures var next := Step(limit, s, Move(done, RunInsert)); next.Some? && Inserting(next.value, k, n, done)
  {
    assert PcOf(s, done) == Fetched(k, 0);
    var s' := Step(limit, s, Move(done, RunInsert)).value;
    LogExtends(s.log, Installed(k, 0));
    forall t: TaskId ensures PcOf(s', t) == InsertPc(k, n, done, t) {
      assert t != done ==> PcOf(s', t) == PcOf(s, t);
    }
  }

  lemma {:induction false} AllFast(limit: u64, k: NonceKey, n: nat, next: u64) returns (run: seq<Move>, s: System)
    requires n >= 1 && next <= limit
    ensures RunsTo(limit, run, s, k) && NoBaseline(s, k, next) && InSlowPath(s, n, Inserted(k, 0))
    decreases next
  {
    if next == 0 {
      run, s := AllInsert(limit, k, n, n);
    } else {
      run, s := AllFast(limit, k, n, next - 1);
      var move := Move(0, CallGetNext(k, None));
      var s' := s.(maps := Maps(map[k := next], map[]), log := s.log + [Issued(k, next - 1, false)]);
      assert PcOf(s, 0) == Idle;
      DivModUnique(next, U64_MODULUS, 0, next);
      assert map[k := next - 1][k := next] == map[k := next];
      RunsOn(limit, run, move, s, s', k);
      LogExtends(s.log, Issued(k, next - 1, false));
      forall t: TaskId ensures PcOf(s', t) == if 1 <= t <= n then Inserted(k, 0) else Idle {
        assert PcOf(s', t) == PcOf(s, t);
      }
      run, s := run + [move], s';
    }
  }

  /** Tasks up to `done` have run their second region as well. */
  ghost predicate Assigning(limit: u64, s: System, k: NonceKey, n: nat, done: nat) {
    && limit + done <= U64_MAX
    && s.maps == Maps(map[k := limit + done], if done == 0 then map[] else map[k := 0])
    && SlowCallsInEpoch(s.log, k) == done
    && forall t: TaskId :: PcOf(s, t) == if done < t <= n then Inserted(k, 0) else Idle
  }

  lemma AssignOne(limit: u64, s: System, k: NonceKey, n: nat, done: nat) returns (s': System)
    requires 1 <= done <= n && limit + done <= U64_MAX && Assigning(limit, s, k, n, done - 1)
    ensures Step(limit, s, Move(done, RunAssign)) == Some(s') && Assigning(limit, s', k, n, done)
  {
    assert PcOf(s, done) == Inserted(k, 0);
    s' := Step(limit, s, Move(done, RunAssign)).value;
    DivModUnique(limit + done, U64_MODULUS, 0, limit + done);
    LogExtends(s.log, Issued(k, limit + done - 1, true));
    forall t: TaskId ensures PcOf(s', t) == if done < t <= n then Inserted(k, 0) else Idle {
      assert t != done ==> PcOf(s', t) == PcOf(s, t);
    }
  }

  lemma {:induction false} AllAssign(limit: u64, k: NonceKey, n: nat, done: nat) returns (run: seq<Move>, s: System)
    requires 1 <= n && done <= n && limit + n <= U64_MAX
    ensures RunsTo(limit, run, s, k) && Assigning(limit, s, k, n, done)
    decreases done
  {
    if done == 0 {
      run, s := AllFast(limit, k, n, limit);
    } else {
      run, s := AllAssign(limit, k, n, done - 1);
      var s' := AssignOne(limit, s, k, n, done);
      RunsOn(limit, run, Move(done, RunAssign), s, s', k);
      run, s := run + [Move(done, RunAssign)], s';
    }
  }

  /** For every limit and every number of slow calls, some interleaving leaves exactly that many
      nonces more than the limit pending: the fast calls slip in before a baseline is stored. */
  lemma RaceBoundIsReached(limit: u64, k: NonceKey, n: nat)
    requires n >= 1 && limit + n <= U64_MAX
    ensures exists run ::
              var end := Exec(limit, Start, run);
              end.Some? && DisciplinedRun(limit, Start, run, k, 0) && k in end.value.maps.confirmed
              && SlowCallsInEpoch(end.value.log, k) == n && PendingCount(end.value.maps, k) == limit + n
  {
    var run, s := AllAssign(limit, k, n, n);
    assert Exec(limit, Start, run) == Some(s) && DisciplinedRun(limit, Start, run, k, 0);
  }

  // ----- calls that do not overlap

  datatype Call =
    | GetNext(key: NonceKey, fetched: Option<u64>)
    | Sync(key: NonceKey, onChain: u64)
    | Reset(key: NonceKey)
    | ConfirmUpTo(key: NonceKey, nonce: u64)

  function Perform(limit: u64, m: Maps, call: Call): Maps {
    match call
    case GetNext(k, fetched) => GetNextNonce(limit, m, k, fetched).0
    case Sync(k, onChain) => SetConfirmed(SetNonce(m, k, onChain), k, onChain)
    case Reset(k) => RemoveConfirmed(RemoveNonce(m, k), k)
    case ConfirmUpTo(k, nonce) => Confirm(m, k, nonce)
  }

  function PerformAll(limit: u64, calls: seq<Call>): Maps {
    if calls == [] then Maps(map[], map[])
    else Perform(limit, PerformAll(limit, calls[..|calls| - 1]), calls[|calls| - 1])
  }

  /** Nonces of `k` are confirmed only while `k` is tracked. */
  ghost predicate ConfirmsTracked(limit: u64, calls: seq<Call>, k: NonceKey) {
    forall i :: 0 <= i < |calls| && calls[i].ConfirmUpTo? && calls[i].key == k ==>
      k in PerformAll(limit, calls[..i]).nonces
  }

  ghost predicate WithinLimit(limit: u64, m: Maps, k: NonceKey) {
    && PendingCount(m, k) <= Max(limit, 1)
    && (k in m.nonces <==> k in m.confirmed)
  }

  lemma PerformWithinLimit(limit: u64, m: Maps, call: Call, k: NonceKey)
    requires WithinLimit(limit, m, k)
    requires call.ConfirmUpTo? && call.key == k ==> k in m.nonces
    ensures WithinLimit(limit, Perform(limit, m, call), k)
  {
  }

  /** Without overlap the pending count stays within the limit (a limit of 0 still lets the
      first call of an epoch through), whatever is synced, reset or fetched in between. */
  lemma {:induction false} SequentialPendingBound(limit: u64, calls: seq<Call>, k: NonceKey)
    requires ConfirmsTracked(limit, calls, k)
    ensures WithinLimit(limit, PerformAll(limit, calls), k)
  {
    if calls != [] {
      var n := |calls| - 1;
      var init := calls[..n];
      forall i | 0 <= i < n ensures init[..i] == calls[..i] && init[i] == calls[i] {
      }
      SequentialPendingBound(limit, init, k);
      PerformWithinLimit(limit, PerformAll(limit, init), calls[n], k);
    }
  }

  /** The call does not open an epoch, or opens it with its baseline near the fetched count. */
  ghost predicate OpensWithin(limit: u64, m: Maps, call: Call, k: NonceKey) {
    call.GetNext? && call.key == k && call.fetched.Some? && k !in m.nonces ==>
      var baseline := if k in m.confirmed then m.confirmed[k] else call.fetched.value;
      SatSub(Next64(call.fetched.value), baseline) <= Max(limit, 1)
  }

  lemma PerformWithinIff(limit: u64, m: Maps, call: Call, k: NonceKey)
    requires PendingCount(m, k) <= Max(limit, 1)
    ensures PendingCount(Perform(limit, m, call), k) <= Max(limit, 1) <==> OpensWithin(limit, m, call, k)
  {
  }

  lemma {:induction false} OpeningsKeepBound(limit: u64, calls: seq<Call>, k: NonceKey, n: nat)
    requires n <= |calls|
    requires forall i :: 0 <= i < n ==> OpensWithin(limit, PerformAll(limit, calls[..i]), calls[i], k)
    ensures PendingCount(PerformAll(limit, calls[..n]), k) <= Max(limit, 1)
  {
    if n > 0 {
      OpeningsKeepBound(limit, calls, k, n - 1);
      assert calls[..n][..n - 1] == calls[..n - 1];
      PerformWithinIff(limit, PerformAll(limit, calls[..n - 1]), calls[n - 1], k);
    }
  }

  /** Exactly which sequential runs stay within the limit throughout: those in which no first
      fetch meets a left-over baseline far below the fetched count. */
  lemma SequentialBoundIff(limit: u64, calls: seq<Call>, k: NonceKey)
    ensures (forall n: nat :: n <= |calls| ==> PendingCount(PerformAll(limit, calls[..n]), k) <= Max(limit, 1))
            <==> (forall i :: 0 <= i < |calls| ==> OpensWithin(limit, PerformAll(limit, calls[..i]), calls[i], k))
  {
    if forall n: nat :: n <= |calls| ==> PendingCount(PerformAll(limit, calls[..n]), k) <= Max(limit, 1) {
      forall i | 0 <= i < |calls| ensures OpensWithin(limit, PerformAll(limit, calls[..i]), calls[i], k) {
        assert calls[..i + 1][..i] == calls[..i];
        PerformWithinIff(limit, PerformAll(limit, calls[..i]), calls[i], k);
      }
    }
    if forall i :: 0 <= i < |calls| ==> OpensWithin(limit, PerformAll(limit, calls[..i]), calls[i], k) {
      forall n: nat | n <= |calls| ensures PendingCount(PerformAll(limit, calls[..n]), k) <= Max(limit, 1) {
        OpeningsKeepBound(limit, calls, k, n);
      }
    }
  }

  /** A confirmation for a key that is not tracked survives the first fetch, and the bound is gone. */
  lemma EarlyConfirmBreaksBound(k: NonceKey, n: u64)
    requires 16 < n < U64_MAX
    ensures PendingCount(PerformAll(16, [ConfirmUpTo(k, 0), GetNext(k, Some(n))]), k) == n
  {
    var a, b := ConfirmUpTo(k, 0), GetNext(k, Some(n));
    assert [a, b][..1] == [a] && [a][..0] == [];
    assert PerformAll(16, [a]) == Maps(map[], map[k := 1]);
  }
}
