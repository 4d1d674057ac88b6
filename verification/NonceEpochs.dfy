/** Whole runs of the nonce manager, resyncs and resets included: exactly when no nonce of a key
    is issued twice. */
module NonceEpochs {
  import opened Machine
  import opened Results
  import opened Tasks
  import opened NonceManager
  import opened NonceProtocol

  /** An installed value and the number of nonces issued from it. */
  datatype Epoch = Epoch(base: u64, issued: nat) {
    function Next(): u64 { Wrap64(base + issued) }
  }

  /** The epochs of a key, in order. */
  function Epochs(log: seq<Event>, k: NonceKey): seq<Epoch> {
    if log == [] then []
    else
      var before := Epochs(log[..|log| - 1], k);
      match log[|log| - 1]
      case Installed(k', value) => if k' == k then before + [Epoch(value, 0)] else before
      case Issued(k', _, _) => if k' == k && before != [] then OneMore(before) else before
      case Removed(_) => before
  }

  function OneMore(es: seq<Epoch>): seq<Epoch>
    requires es != []
  {
    var n := |es| - 1;
    es[n := es[n].(issued := es[n].issued + 1)]
  }

  /** The nonce is in the epoch's range, which wraps around at 2^64. */
  predicate Has(e: Epoch, v: u64) { Wrap64(v - e.base) < e.issued }

  ghost predicate HasAny(es: seq<Epoch>, v: u64) {
    exists a :: 0 <= a < |es| && Has(es[a], v)
  }

  ghost predicate Overlap(e: Epoch, f: Epoch) {
    exists v: u64 :: Has(e, v) && Has(f, v)
  }

  /** No epoch goes all the way round, and no two ranges overlap. */
  ghost predicate Separate(es: seq<Epoch>) {
    && (forall a :: 0 <= a < |es| ==> es[a].issued <= U64_MODULUS)
    && (forall a, b :: 0 <= a < b < |es| ==> !Overlap(es[a], es[b]))
  }

  ghost predicate IssuedIn(log: seq<Event>, k: NonceKey, v: u64) {
    exists i :: 0 <= i < |log| && IssuedAt(log, i, k) && log[i].nonce == v
  }

  ghost predicate Distinct(log: seq<Event>, k: NonceKey) {
    forall i, j :: 0 <= i < j < |log| && IssuedAt(log, i, k) && IssuedAt(log, j, k) ==> log[i].nonce != log[j].nonce
  }

  // ----- one more nonce

  lemma WrapShift(v: u64, base: u64, m: nat)
    requires m < U64_MODULUS
    ensures Wrap64(v - base) == m <==> v == Wrap64(base + m)
  {
    ModStep(base + m, 0 - base, U64_MODULUS);
    ModStep(v - base, base, U64_MODULUS);
    DivModUnique(m, U64_MODULUS, 0, m);
    DivModUnique(v, U64_MODULUS, 0, v);
  }

  lemma HasNext(e: Epoch, v: u64)
    ensures Has(e.(issued := e.issued + 1), v) <==> Has(e, v) || v == e.Next()
    ensures Has(e, e.Next()) <==> e.issued >= U64_MODULUS
  {
    if e.issued < U64_MODULUS {
      WrapShift(v, e.base, e.issued);
      WrapShift(e.Next(), e.base, e.issued);
    }
  }

  lemma HasAnyNext(es: seq<Epoch>, v: u64)
    requires es != []
    ensures HasAny(OneMore(es), v) <==> HasAny(es, v) || v == es[|es| - 1].Next()
  {
    var n := |es| - 1;
    HasNext(es[n], v);
    if HasAny(es, v) {
      var a :| 0 <= a < |es| && Has(es[a], v);
      assert Has(OneMore(es)[a], v);
    }
    if v == es[n].Next() {
      assert Has(OneMore(es)[n], v);
    }
    if HasAny(OneMore(es), v) {
      var a :| 0 <= a < |es| && Has(OneMore(es)[a], v);
      assert a < n ==> Has(es[a], v);
    }
  }

  lemma OverlapNext(e: Epoch, f: Epoch)
    ensures Overlap(e, f.(issued := f.issued + 1)) <==> Overlap(e, f) || Has(e, f.Next())
  {
    var f' := f.(issued := f.issued + 1);
    if Overlap(e, f') {
      var v: u64 :| Has(e, v) && Has(f', v);
      HasNext(f, v);
    }
    if Overlap(e, f) {
      var v: u64 :| Has(e, v) && Has(f, v);
      HasNext(f, v);
    }
    if Has(e, f.Next()) {
      HasNext(f, f.Next());
    }
  }

  lemma SeparateNext(es: seq<Epoch>)
    requires es != []
    ensures Separate(OneMore(es)) <==> Separate(es) && !HasAny(es, es[|es| - 1].Next())
  {
    var n, next, es' := |es| - 1, es[|es| - 1].Next(), OneMore(es);
    HasNext(es[n], next);
    forall a | 0 <= a < n
      ensures es'[a] == es[a] && (Overlap(es'[a], es'[n]) <==> Overlap(es[a], es[n]) || Has(es[a], next))
    {
      OverlapNext(es[a], es[n]);
    }
    if Separate(es') {
      assert es'[n].issued <= U64_MODULUS;
      forall a | 0 <= a < |es| ensures !Has(es[a], next) {
        assert a < n ==> !Overlap(es'[a], es'[n]);
      }
    }
  }

  lemma SeparateOpened(es: seq<Epoch>, base: u64)
    ensures Separate(es + [Epoch(base, 0)]) <==> Separate(es)
    ensures forall v: u64 :: HasAny(es + [Epoch(base, 0)], v) <==> HasAny(es, v)
  {
    var es' := es + [Epoch(base, 0)];
    forall a | 0 <= a < |es| ensures es'[a] == es[a] && !Overlap(es'[a], es'[|es|]) {
    }
    assert Separate(es') ==> forall a, b :: 0 <= a < b < |es| ==> !Overlap(es'[a], es'[b]);
    forall v: u64 ensures HasAny(es', v) <==> HasAny(es, v) {
      if HasAny(es, v) {
        var a :| 0 <= a < |es| && Has(es[a], v);
        assert Has(es'[a], v);
      }
      if HasAny(es', v) {
        var a :| 0 <= a < |es'| && Has(es'[a], v);
        assert a < |es| && Has(es[a], v);
      }
    }
  }

  // ----- the log

  lemma IssuedNext(log: seq<Event>, e: Event, k: NonceKey)
    ensures !(e.Issued? && e.key == k) ==> Distinct(log + [e], k) == Distinct(log, k)
    ensures !(e.Issued? && e.key == k) ==> forall v :: IssuedIn(log + [e], k, v) <==> IssuedIn(log, k, v)
    ensures e.Issued? && e.key == k ==> (Distinct(log + [e], k) <==> Distinct(log, k) && !IssuedIn(log, k, e.nonce))
    ensures e.Issued? && e.key == k ==> forall v :: IssuedIn(log + [e], k, v) <==> IssuedIn(log, k, v) || v == e.nonce
  {
    var log' := log + [e];
    forall i | 0 <= i < |log| ensures log'[i] == log[i] && IssuedAt(log', i, k) == IssuedAt(log, i, k) {
    }
    assert IssuedAt(log', |log|, k) == (e.Issued? && e.key == k);
    forall v: u64 | IssuedIn(log, k, v) ensures IssuedIn(log', k, v) {
      var i :| 0 <= i < |log| && IssuedAt(log, i, k) && log[i].nonce == v;
      assert IssuedAt(log', i, k);
    }
  }

  /** The current epoch is the last one. */
  lemma {:induction false} LastEpoch(log: seq<Event>, k: NonceKey)
    ensures Base(log, k).Some? ==>
              Epochs(log, k) != []
              && Epochs(log, k)[|Epochs(log, k)| - 1] == Epoch(Base(log, k).value, |IssuedInEpoch(log, k)|)
  {
    if log != [] {
      LastEpoch(log[..|log| - 1], k);
    }
  }

  lemma ConsistentPrefix(log: seq<Event>, k: NonceKey)
    requires LogConsistent(log, k) && log != []
    ensures LogConsistent(log[..|log| - 1], k)
  {
    var n := |log| - 1;
    forall i | 0 <= i < n && log[..n][i].Issued? && log[..n][i].key == k ensures ContinuesEpoch(log[..n], i) {
      assert log[..n][..i] == log[..i] && ContinuesEpoch(log, i);
    }
  }

  /** The nonces issued so far are those in the epochs' ranges, and none was issued twice exactly
      when the ranges are separate. */
  lemma {:induction false} EpochsTell(log: seq<Event>, k: NonceKey)
    requires LogConsistent(log, k)
    ensures forall v: u64 :: IssuedIn(log, k, v) <==> HasAny(Epochs(log, k), v)
    ensures Distinct(log, k) <==> Separate(Epochs(log, k))
  {
    if log != [] {
      var n := |log| - 1;
      var init, last := log[..n], log[n];
      var es := Epochs(init, k);
      assert log == init + [last];
      ConsistentPrefix(log, k);
      EpochsTell(init, k);
      IssuedNext(init, last, k);
      if last.Installed? && last.key == k {
        SeparateOpened(es, last.value);
      } else if last.Issued? && last.key == k {
        assert ContinuesEpoch(log, n);
        LastEpoch(init, k);
        assert last.nonce == es[|es| - 1].Next();
        SeparateNext(es);
        forall v: u64 ensures HasAny(OneMore(es), v) <==> HasAny(es, v) || v == last.nonce {
          HasAnyNext(es, v);
        }
      }
    }
  }

  /** Over a whole run of any number of tasks, resyncs and resets included, no two callers get the
      same nonce for a key exactly when no epoch issues more than 2^64 and no epoch's range of
      nonces overlaps another's. */
  lemma RunIsDistinctIff(limit: u64, s: System, k: NonceKey)
    requires Reachable(limit, s)
    ensures Distinct(s.log, k) <==> Separate(Epochs(s.log, k))
  {
    ReachableConsistent(limit, s, k);
    EpochsTell(s.log, k);
  }

  // ----- it does happen

  lemma Extend(limit: u64, s: System, move: Move, s': System)
    requires Reachable(limit, s) && Step(limit, s, move) == Some(s')
    ensures Reachable(limit, s')
  {
    var run :| Exec(limit, Start, run) == Some(s);
    assert (run + [move])[..|run|] == run;
    assert Exec(limit, Start, run + [move]) == Some(s');
  }

  /** A resync to `n` and a call, by one task. */
  lemma ResyncAndIssue(limit: u64, k: NonceKey, n: u64, s: System) returns (s': System)
    requires limit >= 1 && Reachable(limit, s) && PcOf(s, 0) == Idle
    ensures Reachable(limit, s') && PcOf(s', 0) == Idle
    ensures s'.log == s.log + [Installed(k, n)] + [Issued(k, n, false)]
  {
    var s1 := System(SetNonce(s.maps, k, n), s.pcs[0 := NonceSynced(k, n)], s.log + [Installed(k, n)]);
    var s2 := s1.(maps := SetConfirmed(s1.maps, k, n), pcs := s1.pcs[0 := Idle]);
    s' := s2.(maps := s2.maps.(nonces := s2.maps.nonces[k := Next64(n)]), log := s2.log + [Issued(k, n, false)]);
    Extend(limit, s, Move(0, CallSync(k, n)), s1);
    Extend(limit, s1, Move(0, FinishSync), s2);
    Extend(limit, s2, Move(0, CallGetNext(k, None)), s');
  }

  /** Any nonce can be issued twice: a resync while the first transaction is not yet mined finds
      the same count again. */
  lemma ResyncIssuesTwice(limit: u64, k: NonceKey, n: u64)
    requires limit >= 1
    ensures exists s :: Reachable(limit, s) && !Distinct(s.log, k)
                        && s.log == [Installed(k, n), Issued(k, n, false), Installed(k, n), Issued(k, n, false)]
  {
    assert Exec(limit, Start, []) == Some(Start);
    var once := ResyncAndIssue(limit, k, n, Start);
    var twice := ResyncAndIssue(limit, k, n, once);
    assert IssuedAt(twice.log, 1, k) && IssuedAt(twice.log, 3, k);
    assert twice.log == [Installed(k, n), Issued(k, n, false), Installed(k, n), Issued(k, n, false)];
  }
}
