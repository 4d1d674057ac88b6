/** Task identifiers, and sets of them. */
module Tasks {

  type TaskId = nat

  /** The tasks 0 up to `n`. */
  function Ids(n: nat): set<TaskId> {
    if n == 0 then {} else Ids(n - 1) + {n - 1}
  }

  lemma {:induction false} IdsBelow(n: nat)
    ensures forall t: TaskId :: t in Ids(n) <==> t < n
    ensures |Ids(n)| == n
  {
    if n > 0 {
      IdsBelow(n - 1);
    }
  }

  lemma IdsNext(n: nat, m: nat)
    requires n < m
    ensures n in Ids(m) && n !in Ids(n)
  {
    IdsBelow(n);
    IdsBelow(m);
  }

  lemma SubsetSize<K>(a: set<K>, b: set<K>)
    requires a <= b
    ensures |a| <= |b|
  {
    assert b == a + (b - a);
  }
}
