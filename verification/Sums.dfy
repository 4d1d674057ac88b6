/** Sums over sequences and over finite sets, and exchanging the two. */
module Sums {

  function SumOver<E>(h: seq<E>, f: E -> int): int {
    if h == [] then 0 else SumOver(h[..|h| - 1], f) + f(h[|h| - 1])
  }

  lemma SumSnoc<E>(h: seq<E>, e: E, f: E -> int)
    ensures SumOver(h + [e], f) == SumOver(h, f) + f(e)
  {
    assert (h + [e])[..|h|] == h;
  }

  lemma {:induction false} SumUpdate<E>(h: seq<E>, i: nat, e: E, f: E -> int)
    requires i < |h|
    ensures SumOver(h[i := e], f) == SumOver(h, f) - f(h[i]) + f(e)
  {
    var n := |h| - 1;
    if i < n {
      SumUpdate(h[..n], i, e, f);
      assert h[i := e][..n] == h[..n][i := e];
    } else {
      assert h[i := e][..n] == h[..n];
    }
  }

  lemma {:induction false} SumSame<E>(h: seq<E>, f: E -> int, g: E -> int)
    requires forall e :: e in h ==> f(e) == g(e)
    ensures SumOver(h, f) == SumOver(h, g)
  {
    if h != [] {
      SumSame(h[..|h| - 1], f, g);
    }
  }

  /** Termwise close sums are close. */
  lemma {:induction false} SumWithin<E>(h: seq<E>, f: E -> int, g: E -> int, slack: nat)
    requires forall e :: e in h ==> f(e) - slack <= g(e) <= f(e) + slack
    ensures SumOver(h, f) - slack * |h| <= SumOver(h, g) <= SumOver(h, f) + slack * |h|
  {
    if h != [] {
      SumWithin(h[..|h| - 1], f, g, slack);
      assert slack * |h| == slack * (|h| - 1) + slack;
    }
  }

  ghost function SetSum<K>(s: set<K>, g: K -> int): int {
    if s == {} then 0
    else
      var k :| k in s;
      g(k) + SetSum(s - {k}, g)
  }

  /** The sum can be taken apart at any element. */
  lemma {:induction false} SetSumSplit<K>(s: set<K>, k: K, g: K -> int)
    requires k in s
    ensures SetSum(s, g) == g(k) + SetSum(s - {k}, g)
    decreases |s|
  {
    var first :| first in s && SetSum(s, g) == g(first) + SetSum(s - {first}, g);
    if first != k {
      SetSumSplit(s - {first}, k, g);
      SetSumSplit(s - {k}, first, g);
      assert s - {first} - {k} == s - {k} - {first};
    }
  }

  lemma {:induction false} SetSumSame<K>(s: set<K>, f: K -> int, g: K -> int)
    requires forall k :: k in s ==> f(k) == g(k)
    ensures SetSum(s, f) == SetSum(s, g)
    decreases |s|
  {
    if s != {} {
      var k :| k in s;
      SetSumSplit(s, k, f);
      SetSumSplit(s, k, g);
      SetSumSame(s - {k}, f, g);
    }
  }

  lemma {:induction false} SetSumAdds<K>(s: set<K>, f: K -> int, g: K -> int, both: K -> int)
    requires forall k :: k in s ==> both(k) == f(k) + g(k)
    ensures SetSum(s, both) == SetSum(s, f) + SetSum(s, g)
    decreases |s|
  {
    if s != {} {
      var k :| k in s;
      SetSumSplit(s, k, f);
      SetSumSplit(s, k, g);
      SetSumSplit(s, k, both);
      SetSumAdds(s - {k}, f, g, both);
    }
  }

  /** A sum with a single nonzero term. */
  lemma {:induction false} SetSumPoint<K>(s: set<K>, at: K, value: int, g: K -> int)
    requires at in s && g(at) == value
    requires forall k :: k in s && k != at ==> g(k) == 0
    ensures SetSum(s, g) == value
  {
    SetSumSplit(s, at, g);
    SetSumZero(s - {at}, g);
  }

  lemma {:induction false} SetSumZero<K>(s: set<K>, g: K -> int)
    requires forall k :: k in s ==> g(k) == 0
    ensures SetSum(s, g) == 0
    decreases |s|
  {
    if s != {} {
      var k :| k in s;
      SetSumSplit(s, k, g);
      SetSumZero(s - {k}, g);
    }
  }

  /** A sum with two nonzero terms, which may be at the same key. */
  lemma {:induction false} SetSumTwoPoints<K>(s: set<K>, a: K, x: int, b: K, y: int, g: K -> int)
    requires a in s && b in s
    requires forall k :: k in s ==> g(k) == (if k == a then x else 0) + (if k == b then y else 0)
    ensures SetSum(s, g) == x + y
  {
    var atA: K -> int, atB: K -> int := k => if k == a then x else 0, k => if k == b then y else 0;
    SetSumPoint(s, a, x, atA);
    SetSumPoint(s, b, y, atB);
    SetSumAdds(s, atA, atB, g);
  }

  /** What one element contributes to each key, and each key's total over a sequence. */
  function Contribution<E, K>(f: K -> E -> int, e: E): K -> int { k => f(k)(e) }

  function Totals<E, K>(h: seq<E>, f: K -> E -> int): K -> int { k => SumOver(h, f(k)) }

  /** Summing each key's total over the sequence is summing each element's total over the keys. */
  lemma {:induction false} Exchange<E, K>(h: seq<E>, s: set<K>, f: K -> E -> int, total: E -> int)
    requires forall e :: e in h ==> SetSum(s, Contribution(f, e)) == total(e)
    ensures SetSum(s, Totals(h, f)) == SumOver(h, total)
  {
    if h == [] {
      SetSumZero(s, Totals(h, f));
    } else {
      var init, last := h[..|h| - 1], h[|h| - 1];
      Exchange(init, s, f, total);
      SetSumAdds(s, Totals(init, f), Contribution(f, last), Totals(h, f));
    }
  }
}
