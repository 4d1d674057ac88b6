/** The confirmation monitor under overlapping calls: tracking checks the count and inserts
    later, removing and pruning look for final records and remove them later. */
module ConfirmationRaces {
  import opened Machine
  import opened Results
  import opened Tasks
  import opened Confirmation

  /** Task `task` has seen that the record of `txHash` was final, and will remove it. */
  datatype Mark = Mark(task: TaskId, txHash: TxHash)

  /** `armed` holds the tasks that saw room and whose insertion is still to come, `marks` the
      removals still to come, `retracked` those of them whose hash was tracked anew meanwhile. */
  datatype System = System(records: map<TxHash, TxRecord>, armed: set<TaskId>, marks: set<Mark>, retracked: set<Mark>)

  datatype Move =
    | LoadCount(task: TaskId)
    | Insert(task: TaskId, txHash: TxHash, chainId: u64, from: Address, now: u64)
    | Check(txHash: TxHash, now: u64, answers: Answers)
    | Look(task: TaskId, txHash: TxHash)
    | Sweep(task: TaskId, txHash: TxHash)

  const Start := System(map[], {}, {}, {})

  /** The removals to come after `h` is tracked anew. */
  function Anew(s: System, h: TxHash): (retracked: set<Mark>)
    ensures s.marks == {} ==> retracked == {}
  {
    set m | m in s.marks && (m in s.retracked || m.txHash == h)
  }

  /** One region of one task; None when the task is not at it. */
  function Step(config: Config, s: System, move: Move): Option<System> {
    match move
    case LoadCount(t) =>
      if t in s.armed then None
      else Some(if |s.records| < config.maxTracked then s.(armed := s.armed + {t}) else s)
    case Insert(t, h, chainId, from, now) =>
      if t !in s.armed then None
      else Some(System(s.records[h := NewRecord(h, chainId, from, now)], s.armed - {t}, s.marks, Anew(s, h)))
    case Check(h, now, answers) =>
      Some(if h in s.records then s.(records := s.records[h := CheckRecord(config, s.records[h], now, answers).0])
           else s)
    case Look(t, h) =>
      if Mark(t, h) in s.marks then None
      else Some(if h in FinalHashes(s.records) then s.(marks := s.marks + {Mark(t, h)}) else s)
    case Sweep(t, h) =>
      if Mark(t, h) !in s.marks then None
      else Some(System(s.records - {h}, s.armed, s.marks - {Mark(t, h)}, s.retracked - {Mark(t, h)}))
  }

  ghost predicate Links(config: Config, states: seq<System>, run: seq<Move>, i: nat)
    requires i < |run| < |states|
  {
    Step(config, states[i], run[i]) == Some(states[i + 1])
  }

  /** The moves of the run lead from each state to the next. */
  ghost predicate Trace(config: Config, states: seq<System>, run: seq<Move>) {
    |states| == |run| + 1 && forall i :: 0 <= i < |run| ==> Links(config, states, run, i)
  }

  /** Only these tasks track transactions. */
  ghost predicate TrackedBy(run: seq<Move>, tasks: set<TaskId>) {
    forall i :: 0 <= i < |run| && run[i].LoadCount? ==> run[i].task in tasks
  }

  ghost predicate LeadsTo(config: Config, tasks: set<TaskId>, states: seq<System>, run: seq<Move>, s: System) {
    Trace(config, states, run) && TrackedBy(run, tasks) && states[0] == Start && states[|run|] == s
  }

  ghost predicate Reachable(config: Config, tasks: set<TaskId>, s: System) {
    exists states, run :: LeadsTo(config, tasks, states, run, s)
  }

  // ----- what every interleaving keeps

  ghost predicate AllTruthful(config: Config, records: map<TxHash, TxRecord>) {
    forall h :: h in records ==> records[h].txHash == h && Truthful(config, records[h])
  }

  /** A removal to come whose hash was not tracked anew still finds a final record, or none. */
  ghost predicate MarksFinal(s: System) {
    s.retracked <= s.marks &&
    forall m :: m in s.marks && m !in s.retracked && m.txHash in s.records ==> s.records[m.txHash].IsFinal()
  }

  ghost predicate WithinRoom(config: Config, s: System, tasks: set<TaskId>) {
    s.armed <= tasks && |s.records| + |s.armed| <= config.maxTracked + |tasks| - 1
  }

  lemma StepTruthful(config: Config, s: System, move: Move)
    requires AllTruthful(config, s.records) && Step(config, s, move).Some?
    ensures AllTruthful(config, Step(config, s, move).value.records)
  {
    if move.Check? && move.txHash in s.records {
      CheckTruthful(config, s.records[move.txHash], move.now, move.answers);
    }
  }

  lemma StepMarksFinal(config: Config, s: System, move: Move)
    requires MarksFinal(s) && Step(config, s, move).Some?
    ensures MarksFinal(Step(config, s, move).value)
  {
  }

  lemma CountWithinRoom(config: Config, s: System, t: TaskId, tasks: set<TaskId>)
    requires WithinRoom(config, s, tasks) && t in tasks && t !in s.armed && |s.records| < config.maxTracked
    ensures WithinRoom(config, s.(armed := s.armed + {t}), tasks)
  {
    SubsetSize(s.armed + {t}, tasks);
  }

  lemma RecordsWithinRoom(config: Config, s: System, s': System, tasks: set<TaskId>)
    requires WithinRoom(config, s, tasks) && s'.armed <= s.armed
    requires |s'.records| + |s'.armed| <= |s.records| + |s.armed|
    ensures WithinRoom(config, s', tasks)
  {
  }

  lemma StepWithinRoom(config: Config, s: System, move: Move, tasks: set<TaskId>)
    requires WithinRoom(config, s, tasks) && Step(config, s, move).Some?
    requires move.LoadCount? ==> move.task in tasks
    ensures WithinRoom(config, Step(config, s, move).value, tasks)
  {
    var s' := Step(config, s, move).value;
    match move
    case LoadCount(t) =>
      if |s.records| < config.maxTracked {
        CountWithinRoom(config, s, t, tasks);
      }
    case Insert(t, h, chainId, from, now) =>
      InsertSize(s.records, h, NewRecord(h, chainId, from, now));
      RecordsWithinRoom(config, s, s', tasks);
    case Check(h, now, answers) =>
      if h in s.records {
        InsertSize(s.records, h, CheckRecord(config, s.records[h], now, answers).0);
      }
      RecordsWithinRoom(config, s, s', tasks);
    case Look(_, _) => RecordsWithinRoom(config, s, s', tasks);
    case Sweep(_, h) =>
      RemoveSize(s.records, {h});
      RecordsWithinRoom(config, s, s', tasks);
  }

  ghost predicate Kept(config: Config, s: System, tasks: set<TaskId>) {
    AllTruthful(config, s.records) && MarksFinal(s) && WithinRoom(config, s, tasks)
  }

  lemma StepKeeps(config: Config, s: System, move: Move, s': System, tasks: set<TaskId>)
    requires Kept(config, s, tasks)
    requires Step(config, s, move) == Some(s') && (move.LoadCount? ==> move.task in tasks)
    ensures Kept(config, s', tasks)
  {
    StepTruthful(config, s, move);
    StepMarksFinal(config, s, move);
    StepWithinRoom(config, s, move, tasks);
  }

  lemma LinkKeeps(config: Config, states: seq<System>, run: seq<Move>, tasks: set<TaskId>, i: nat)
    requires Trace(config, states, run) && TrackedBy(run, tasks) && i < |run| && Kept(config, states[i], tasks)
    ensures Kept(config, states[i + 1], tasks)
  {
    assert Links(config, states, run, i);
    StepKeeps(config, states[i], run[i], states[i + 1], tasks);
  }

  lemma {:induction false} RunKeeps(config: Config, states: seq<System>, run: seq<Move>, tasks: set<TaskId>, n: nat)
    requires tasks != {} && Trace(config, states, run) && TrackedBy(run, tasks) && states[0] == Start && n <= |run|
    ensures Kept(config, states[n], tasks)
  {
    if n == 0 {
      SubsetSize({}, tasks);
    } else {
      RunKeeps(config, states, run, tasks, n - 1);
      LinkKeeps(config, states, run, tasks, n - 1);
    }
  }

  /** With N tasks tracking, in any interleaving and over any provider answers and errors: at most
      N - 1 records too many, and every status is backed by what was seen on chain. */
  lemma RecordsUnderRaces(config: Config, tasks: set<TaskId>, s: System)
    requires tasks != {} && Reachable(config, tasks, s)
    ensures |s.records| <= config.maxTracked + |tasks| - 1
    ensures forall h :: h in s.records ==> Truthful(config, s.records[h])
  {
    var states, run :| LeadsTo(config, tasks, states, run, s);
    RunKeeps(config, states, run, tasks, |run|);
  }

  /** What a removal deletes is final, unless its hash was tracked anew since the look. */
  lemma SweepsOnlyFinalUnlessRetracked(config: Config, tasks: set<TaskId>, s: System, t: TaskId, h: TxHash)
    requires tasks != {} && Reachable(config, tasks, s) && Mark(t, h) in s.marks && h in s.records
    ensures s.records[h].IsFinal() || Mark(t, h) in s.retracked
  {
    var states, run :| LeadsTo(config, tasks, states, run, s);
    RunKeeps(config, states, run, tasks, |run|);
  }

  // ----- one record over a run

  function Rank(status: TxStatus): nat {
    match status
    case Pending => 0
    case Included => 1
    case _ => 2
  }

  /** Nothing tracks `h` anew or carries out a removal of it. */
  predicate Disturbs(move: Move, h: TxHash) {
    (move.Insert? || move.Sweep?) && move.txHash == h
  }

  ghost predicate Undisturbed(run: seq<Move>, h: TxHash) {
    forall i :: 0 <= i < |run| ==> !Disturbs(run[i], h)
  }

  /** The move checks `h` in time, before it is final, and the provider has a receipt. */
  ghost predicate Sees(config: Config, s: System, move: Move, h: TxHash) {
    && move.Check? && move.txHash == h && h in s.records
    && !s.records[h].IsFinal() && ElapsedMs(s.records[h], move.now) <= config.timeoutMs
    && move.answers.receipt.Ok? && move.answers.receipt.value.Some?
  }

  lemma StepMovesForward(config: Config, s: System, move: Move, h: TxHash)
    requires Step(config, s, move).Some? && h in s.records && !Disturbs(move, h)
    ensures var after := Step(config, s, move).value.records;
            && h in after && Rank(s.records[h].status) <= Rank(after[h].status)
            && (s.records[h].IsFinal() ==> after[h] == s.records[h])
            && (after[h].blockNumber.Some? <==> s.records[h].blockNumber.Some? || Sees(config, s, move, h))
  {
  }

  /** Whatever else happens to the monitor, a record's status only moves forward, and a final
      record does not change at all, until its hash is tracked anew or its removal is carried out. */
  lemma {:induction false} StatusMovesForward(config: Config, states: seq<System>, run: seq<Move>, h: TxHash, n: nat)
    requires Trace(config, states, run) && n <= |run| && h in states[0].records && Undisturbed(run, h)
    ensures var before, after := states[0].records, states[n].records;
            && h in after && Rank(before[h].status) <= Rank(after[h].status)
            && (before[h].IsFinal() ==> after[h] == before[h])
  {
    if n > 0 {
      StatusMovesForward(config, states, run, h, n - 1);
      assert Links(config, states, run, n - 1) && !Disturbs(run[n - 1], h);
      StepMovesForward(config, states[n - 1], run[n - 1], h);
    }
  }

  lemma {:induction false} BlockIffSeen(config: Config, states: seq<System>, run: seq<Move>, h: TxHash, n: nat)
    requires Trace(config, states, run) && n <= |run| && h in states[0].records && Undisturbed(run, h)
    ensures h in states[n].records
    ensures states[n].records[h].blockNumber.Some? <==>
              states[0].records[h].blockNumber.Some? || exists i :: 0 <= i < n && Sees(config, states[i], run[i], h)
  {
    if n > 0 {
      BlockIffSeen(config, states, run, h, n - 1);
      assert Links(config, states, run, n - 1) && !Disturbs(run[n - 1], h);
      StepMovesForward(config, states[n - 1], run[n - 1], h);
    }
  }

  /** `Dropped` is documented as never included, yet the timeout does not look at inclusion. The
      documented meaning holds of a dropped record exactly when no check since it was tracked,
      made in time, had got a receipt. */
  lemma DroppedIsUnseenIff(config: Config, states: seq<System>, run: seq<Move>, h: TxHash)
    requires Trace(config, states, run) && Undisturbed(run, h)
    requires var before := states[0].records; h in before && before[h].status.Pending? && before[h].blockNumber == None
    ensures var after := states[|run|].records;
            h in after && (after[h].status.Dropped? ==>
              (after[h].blockNumber == None <==> forall i :: 0 <= i < |run| ==> !Sees(config, states[i], run[i], h)))
  {
    BlockIffSeen(config, states, run, h, |run|);
  }

  lemma Begin(config: Config, tasks: set<TaskId>)
    ensures Reachable(config, tasks, Start)
  {
    assert LeadsTo(config, tasks, [Start], [], Start);
  }

  lemma Extend(config: Config, tasks: set<TaskId>, s: System, move: Move, s': System)
    requires Reachable(config, tasks, s) && Step(config, s, move) == Some(s')
    requires move.LoadCount? ==> move.task in tasks
    ensures Reachable(config, tasks, s')
  {
    var states, run :| LeadsTo(config, tasks, states, run, s);
    var states', run' := states + [s'], run + [move];
    forall i | 0 <= i < |run'| ensures Links(config, states', run', i) {
      assert i < |run| ==> Links(config, states, run, i);
    }
    assert LeadsTo(config, tasks, states', run', s');
  }

  lemma ExtendLoad(config: Config, tasks: set<TaskId>, s: System, t: TaskId)
    requires Reachable(config, tasks, s) && t in tasks && t !in s.armed && |s.records| < config.maxTracked
    ensures Reachable(config, tasks, s.(armed := s.armed + {t}))
  {
    Extend(config, tasks, s, LoadCount(t), s.(armed := s.armed + {t}));
  }

  lemma ExtendInsert(config: Config, tasks: set<TaskId>, s: System, t: TaskId, record: TxRecord)
    requires Reachable(config, tasks, s) && t in s.armed
    requires record == NewRecord(record.txHash, record.chainId, record.from, record.submittedAt)
    ensures Reachable(config, tasks, System(s.records[record.txHash := record], s.armed - {t}, s.marks,
                                            Anew(s, record.txHash)))
  {
    Extend(config, tasks, s, Insert(t, record.txHash, record.chainId, record.from, record.submittedAt),
           System(s.records[record.txHash := record], s.armed - {t}, s.marks, Anew(s, record.txHash)));
  }

  lemma ExtendCheck(config: Config, tasks: set<TaskId>, s: System, h: TxHash, now: u64, answers: Answers)
    requires Reachable(config, tasks, s) && h in s.records
    ensures Reachable(config, tasks, s.(records := s.records[h := CheckRecord(config, s.records[h], now, answers).0]))
  {
    Extend(config, tasks, s, Move.Check(h, now, answers),
           s.(records := s.records[h := CheckRecord(config, s.records[h], now, answers).0]));
  }

  lemma ExtendLook(config: Config, tasks: set<TaskId>, s: System, t: TaskId, h: TxHash)
    requires Reachable(config, tasks, s) && Mark(t, h) !in s.marks && h in s.records && s.records[h].IsFinal()
    ensures Reachable(config, tasks, s.(marks := s.marks + {Mark(t, h)}))
  {
    Extend(config, tasks, s, Look(t, h), s.(marks := s.marks + {Mark(t, h)}));
  }

  /** Under any such configuration a record that was seen can end dropped: included in a block,
      then checked too late. */
  lemma DroppedAfterInclusion(config: Config, h: TxHash, block: u64)
    requires config.maxTracked >= 1 && config.requiredConfirmations >= 1 && config.timeoutMs + 1000 < U64_MODULUS
    ensures exists s :: Reachable(config, {0}, s) && h in s.records && s.records[h].status.Dropped?
                        && s.records[h].blockNumber == Some(block)
  {
    var included := Answers(Ok(Some(Receipt(Some(block), true, 0))), Ok(block));
    var record := NewRecord(h, 0, 0, 0);
    var seen := CheckRecord(config, record, 0, included).0;
    var late: u64 := config.timeoutMs / 1000 + 1;
    var dropped := CheckRecord(config, seen, late, included).0;
    IncludedThenDropped(config, record, block, included, late);
    Begin(config, {0});
    ExtendLoad(config, {0}, Start, 0);
    var armed := Start.(armed := {} + {0});
    ExtendInsert(config, {0}, armed, 0, record);
    var tracked := System(map[][h := record], armed.armed - {0}, {}, {});
    ExtendCheck(config, {0}, tracked, h, 0, included);
    ExtendCheck(config, {0}, tracked.(records := tracked.records[h := seen]), h, late, included);
    var end := tracked.(records := tracked.records[h := seen][h := dropped]);
    assert Reachable(config, {0}, end) && end.records[h] == dropped;
  }

  lemma IncludedThenDropped(config: Config, record: TxRecord, block: u64, included: Answers, late: u64)
    requires record == NewRecord(record.txHash, 0, 0, 0)
    requires included == Answers(Ok(Some(Receipt(Some(block), true, 0))), Ok(block))
    requires config.requiredConfirmations >= 1 && config.timeoutMs < late * 1000 < U64_MODULUS
    ensures var seen := CheckRecord(config, record, 0, included).0;
            var dropped := CheckRecord(config, seen, late, included).0;
            dropped.status.Dropped? && dropped.blockNumber == Some(block)
  {
    DivModUnique(0, U64_MODULUS, 0, 0);
    DivModUnique(late * 1000, U64_MODULUS, 0, late * 1000);
  }

  // ----- both races happen

  /** Task `t` is about to remove a record that is pending again. */
  ghost predicate WillSweepPending(s: System, t: TaskId, h: TxHash) {
    Mark(t, h) in s.marks && h in s.records && s.records[h].status.Pending?
  }

  /** Some interleaving is about to remove a record that is pending again, exactly when anything
      can be tracked at all. */
  lemma PendingIsSweptIff(config: Config, tasks: set<TaskId>, h: TxHash)
    requires {0, 1} <= tasks
    ensures (exists s, t :: Reachable(config, tasks, s) && WillSweepPending(s, t, h))
            <==> config.maxTracked >= 1
  {
    if config.maxTracked >= 1 {
      RetrackedIsMarked(config, tasks, h);
    } else {
      forall s | Reachable(config, tasks, s) ensures s.records == map[] {
        var states, run :| LeadsTo(config, tasks, states, run, s);
        NothingTracked(config, states, run, |run|);
      }
    }
  }

  lemma {:induction false} NothingTracked(config: Config, states: seq<System>, run: seq<Move>, n: nat)
    requires config.maxTracked == 0 && Trace(config, states, run) && states[0] == Start && n <= |run|
    ensures states[n].records == map[] && states[n].armed == {}
  {
    if n > 0 {
      NothingTracked(config, states, run, n - 1);
      assert Links(config, states, run, n - 1);
    }
  }

  lemma RevertedIsFinal(config: Config, h: TxHash)
    ensures CheckRecord(config, NewRecord(h, 0, 0, 0), 0, Answers(Ok(Some(Receipt(None, false, 0))), Ok(0))).0.IsFinal()
  {
    DivModUnique(0, U64_MODULUS, 0, 0);
  }

  /** Two tasks see room, one inserts and its transaction reverts; a third sees it final; then the
      other tracks the same hash. */
  lemma RetrackedIsMarked(config: Config, tasks: set<TaskId>, h: TxHash)
    requires {0, 1} <= tasks && config.maxTracked >= 1
    ensures exists s, t :: Reachable(config, tasks, s) && WillSweepPending(s, t, h)
  {
    var reverted := Answers(Ok(Some(Receipt(None, false, 0))), Ok(0));
    Begin(config, tasks);
    ExtendLoad(config, tasks, Start, 0);
    var s1 := Start.(armed := {} + {0});
    ExtendLoad(config, tasks, s1, 1);
    var s2 := s1.(armed := s1.armed + {1});
    ExtendInsert(config, tasks, s2, 0, NewRecord(h, 0, 0, 0));
    var s3 := System(s2.records[h := NewRecord(h, 0, 0, 0)], s2.armed - {0}, {}, {});
    ExtendCheck(config, tasks, s3, h, 0, reverted);
    var s4 := s3.(records := s3.records[h := CheckRecord(config, s3.records[h], 0, reverted).0]);
    RevertedIsFinal(config, h);
    ExtendLook(config, tasks, s4, 2, h);
    var s5 := s4.(marks := {} + {Mark(2, h)});
    ExtendInsert(config, tasks, s5, 1, NewRecord(h, 0, 0, 0));
    var s6 := System(s5.records[h := NewRecord(h, 0, 0, 0)], s5.armed - {1}, s5.marks, Anew(s5, h));
    assert Reachable(config, tasks, s6) && WillSweepPending(s6, 2, h);
  }

  /** The records of the hashes 0 up to `n`. */
  function Fresh(n: nat): (records: map<TxHash, TxRecord>)
    ensures |records| == n && forall h :: h in records ==> h < n
  {
    if n == 0 then map[] else Fresh(n - 1)[n - 1 := NewRecord(n - 1, 0, 0, 0)]
  }

  lemma {:induction false} FillRoom(config: Config, tasks: nat, n: nat)
    requires tasks >= 1 && n <= config.maxTracked
    ensures Reachable(config, Ids(tasks), System(Fresh(n), {}, {}, {}))
  {
    if n == 0 {
      Begin(config, Ids(tasks));
    } else {
      FillRoom(config, tasks, n - 1);
      var s := System(Fresh(n - 1), {}, {}, {});
      IdsBelow(tasks);
      assert {} + {0} == {0} && {0} - {0} == {};
      ExtendLoad(config, Ids(tasks), s, 0);
      ExtendInsert(config, Ids(tasks), s.(armed := {0}), 0, NewRecord(n - 1, 0, 0, 0));
    }
  }

  lemma {:induction false} AllSeeRoom(config: Config, tasks: nat, s: System, n: nat)
    requires n <= tasks && |s.records| < config.maxTracked && s.armed == {} && Reachable(config, Ids(tasks), s)
    ensures Reachable(config, Ids(tasks), s.(armed := Ids(n)))
  {
    if n == 0 {
      assert s.(armed := Ids(0)) == s;
    } else {
      AllSeeRoom(config, tasks, s, n - 1);
      IdsNext(n - 1, tasks);
      ExtendLoad(config, Ids(tasks), s.(armed := Ids(n - 1)), n - 1);
    }
  }

  lemma Inserts(config: Config, tasks: nat, k: nat, n: nat)
    requires Reachable(config, Ids(tasks), System(Fresh(k), Ids(n + 1), {}, {}))
    ensures Reachable(config, Ids(tasks), System(Fresh(k + 1), Ids(n), {}, {}))
  {
    IdsNext(n, n + 1);
    var s := System(Fresh(k), Ids(n + 1), {}, {});
    ExtendInsert(config, Ids(tasks), s, n, NewRecord(k, 0, 0, 0));
    assert Ids(n + 1) - {n} == Ids(n) && Fresh(k + 1) == Fresh(k)[k := NewRecord(k, 0, 0, 0)];
  }

  lemma {:induction false} AllInsert(config: Config, tasks: nat, k: nat, n: nat, end: nat)
    requires Reachable(config, Ids(tasks), System(Fresh(k), Ids(n), {}, {})) && end == k + n
    ensures Reachable(config, Ids(tasks), System(Fresh(end), {}, {}, {}))
    decreases n
  {
    if n > 0 {
      Inserts(config, tasks, k, n - 1);
      AllInsert(config, tasks, k + 1, n - 1, end);
    }
  }

  /** The bound on the records is attained, for every limit and number of tasks. */
  lemma RaceBoundIsReached(config: Config, n: nat)
    requires config.maxTracked >= 1 && n >= 1
    ensures |Ids(n)| == n && exists s :: Reachable(config, Ids(n), s) && |s.records| == config.maxTracked + n - 1
  {
    var k := config.maxTracked - 1;
    IdsBelow(n);
    FillRoom(config, n, k);
    AllSeeRoom(config, n, System(Fresh(k), {}, {}, {}), n);
    AllInsert(config, n, k, n, k + n);
    assert |System(Fresh(k + n), {}, {}, {}).records| == k + n;
  }

  // ----- calls that do not overlap are runs of regions

  function Resting(records: map<TxHash, TxRecord>): System { System(records, {}, {}, {}) }

  function MarksOf(hs: set<TxHash>): set<Mark> { set h | h in hs :: Mark(0, h) }

  lemma MarksOfNext(hs: set<TxHash>, h: TxHash)
    requires h in hs
    ensures MarksOf(hs) == MarksOf(hs - {h}) + {Mark(0, h)} && MarksOf(hs) - {Mark(0, h)} == MarksOf(hs - {h})
    ensures Mark(0, h) in MarksOf(hs) && Mark(0, h) !in MarksOf(hs - {h})
  {
  }

  lemma {:induction false} LookAll(config: Config, tasks: set<TaskId>, records: map<TxHash, TxRecord>, hs: set<TxHash>)
    requires Reachable(config, tasks, Resting(records)) && hs <= FinalHashes(records)
    ensures Reachable(config, tasks, System(records, {}, MarksOf(hs), {}))
    decreases |hs|
  {
    if hs == {} {
      assert MarksOf(hs) == {};
    } else {
      var h :| h in hs;
      LookAll(config, tasks, records, hs - {h});
      MarksOfNext(hs, h);
      ExtendLook(config, tasks, System(records, {}, MarksOf(hs - {h}), {}), 0, h);
    }
  }

  lemma SweepOne(config: Config, tasks: set<TaskId>, s: System, h: TxHash, s': System)
    requires Reachable(config, tasks, s) && Mark(0, h) in s.marks
    requires s' == System(s.records - {h}, s.armed, s.marks - {Mark(0, h)}, s.retracked - {Mark(0, h)})
    ensures Reachable(config, tasks, s')
  {
    Extend(config, tasks, s, Sweep(0, h), s');
  }

  lemma {:induction false} SweepAll(config: Config, tasks: set<TaskId>, records: map<TxHash, TxRecord>, hs: set<TxHash>)
    requires Reachable(config, tasks, System(records, {}, MarksOf(hs), {}))
    ensures Reachable(config, tasks, Resting(records - hs))
    decreases |hs|
  {
    if hs == {} {
      assert MarksOf(hs) == {} && records - hs == records;
    } else {
      var h :| h in hs;
      MarksOfNext(hs, h);
      SweepOne(config, tasks, System(records, {}, MarksOf(hs), {}), h,
               System(records - {h}, {}, MarksOf(hs - {h}), {}));
      SweepAll(config, tasks, records - {h}, hs - {h});
      assert records - {h} - (hs - {h}) == records - hs;
    }
  }

  lemma UninterruptedTrack(config: Config, tasks: set<TaskId>, records: map<TxHash, TxRecord>, record: TxRecord)
    requires 0 in tasks && Reachable(config, tasks, Resting(records)) && |records| < config.maxTracked
    requires record == NewRecord(record.txHash, record.chainId, record.from, record.submittedAt)
    ensures Reachable(config, tasks, Resting(records[record.txHash := record]))
  {
    ExtendLoad(config, tasks, Resting(records), 0);
    ExtendInsert(config, tasks, System(records, {} + {0}, {}, {}), 0, record);
    assert {} + {0} - {0} == {};
  }

  /** A call that nothing interrupts is its regions in a row. */
  lemma UninterruptedCall(config: Config, tasks: set<TaskId>, records: map<TxHash, TxRecord>, call: Call)
    requires 0 in tasks && Reachable(config, tasks, Resting(records))
    ensures Reachable(config, tasks, Resting(Perform(config, records, call)))
  {
    match call
    case Track(h, chainId, from, now) =>
      if |records| < config.maxTracked {
        UninterruptedTrack(config, tasks, records, NewRecord(h, chainId, from, now));
      }
    case Check(h, now, answers) =>
      if h in records {
        ExtendCheck(config, tasks, Resting(records), h, now, answers);
      }
    case Remove(h) =>
      if h in FinalHashes(records) {
        LookAll(config, tasks, records, {h});
        SweepAll(config, tasks, records, {h});
      }
    case Prune =>
      LookAll(config, tasks, records, FinalHashes(records));
      SweepAll(config, tasks, records, FinalHashes(records));
  }
}
