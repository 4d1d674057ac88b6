/** A stable sort by key. */
module Sorting {

  /** Puts `x` before the first element whose key is not smaller. */
  function Insert<T>(x: T, s: seq<T>, key: T -> int): seq<T> {
    if s == [] || key(x) <= key(s[0]) then [x] + s else [s[0]] + Insert(x, s[1..], key)
  }

  function SortBy<T>(s: seq<T>, key: T -> int): seq<T> {
    if s == [] then [] else Insert(s[0], SortBy(s[1..], key), key)
  }

  ghost predicate SortedBy<T>(s: seq<T>, key: T -> int) {
    forall i, j :: 0 <= i < j < |s| ==> key(s[i]) <= key(s[j])
  }

  function Select<T>(s: seq<T>, p: T -> bool): seq<T> {
    if s == [] then [] else (if p(s[0]) then [s[0]] else []) + Select(s[1..], p)
  }

  function HasKey<T>(key: T -> int, k: int): T -> bool {
    x => key(x) == k
  }

  lemma {:induction false} InsertPermutes<T>(x: T, s: seq<T>, key: T -> int)
    ensures multiset(Insert(x, s, key)) == multiset{x} + multiset(s)
  {
    if s != [] {
      assert s == [s[0]] + s[1..];
      if key(x) > key(s[0]) {
        InsertPermutes(x, s[1..], key);
      }
    }
  }

  ghost predicate KeysFrom<T>(s: seq<T>, key: T -> int, least: int) {
    forall i :: 0 <= i < |s| ==> key(s[i]) >= least
  }

  lemma {:induction false} InsertKeysFrom<T>(x: T, s: seq<T>, key: T -> int, least: int)
    requires KeysFrom(s, key, least) && key(x) >= least
    ensures KeysFrom(Insert(x, s, key), key, least)
  {
    if s != [] && key(x) > key(s[0]) {
      InsertKeysFrom(x, s[1..], key, least);
    }
  }

  lemma {:induction false} InsertSorts<T>(x: T, s: seq<T>, key: T -> int)
    requires SortedBy(s, key)
    ensures SortedBy(Insert(x, s, key), key)
  {
    if s != [] && key(x) > key(s[0]) {
      InsertSorts(x, s[1..], key);
      InsertKeysFrom(x, s[1..], key, key(s[0]));
      PrependSorts(s[0], Insert(x, s[1..], key), key);
    }
  }

  lemma PrependSorts<T>(x: T, s: seq<T>, key: T -> int)
    requires SortedBy(s, key) && KeysFrom(s, key, key(x))
    ensures SortedBy([x] + s, key)
  {
  }

  lemma {:induction false} SortSorts<T>(s: seq<T>, key: T -> int)
    ensures SortedBy(SortBy(s, key), key)
    ensures multiset(SortBy(s, key)) == multiset(s)
    ensures |SortBy(s, key)| == |s|
  {
    if s != [] {
      SortSorts(s[1..], key);
      InsertSorts(s[0], SortBy(s[1..], key), key);
      InsertPermutes(s[0], SortBy(s[1..], key), key);
      assert s == [s[0]] + s[1..];
    }
    assert |SortBy(s, key)| == |multiset(SortBy(s, key))| && |s| == |multiset(s)|;
  }

  lemma {:induction false} InsertIsStable<T>(x: T, s: seq<T>, key: T -> int, k: int)
    requires SortedBy(s, key)
    ensures Select(Insert(x, s, key), HasKey(key, k)) == Select([x] + s, HasKey(key, k))
  {
    var p := HasKey(key, k);
    assert ([x] + s)[1..] == s;
    if s != [] && key(x) > key(s[0]) {
      InsertIsStable(x, s[1..], key, k);
      assert ([x] + s[1..])[1..] == s[1..];
      var t := [s[0]] + Insert(x, s[1..], key);
      assert t[1..] == Insert(x, s[1..], key);
    }
  }

  /** Elements with equal keys keep their order. */
  lemma {:induction false} SortIsStable<T>(s: seq<T>, key: T -> int, k: int)
    ensures Select(SortBy(s, key), HasKey(key, k)) == Select(s, HasKey(key, k))
  {
    if s != [] {
      SortIsStable(s[1..], key, k);
      SortSorts(s[1..], key);
      InsertIsStable(s[0], SortBy(s[1..], key), key, k);
      assert ([s[0]] + SortBy(s[1..], key))[1..] == SortBy(s[1..], key);
    }
  }

  ghost predicate SameGroups<T(!new)>(a: seq<T>, b: seq<T>, key: T -> int) {
    forall k :: Select(a, HasKey(key, k)) == Select(b, HasKey(key, k))
  }

  lemma {:induction false} SelectFinds<T>(s: seq<T>, key: T -> int, x: T)
    requires x in Select(s, HasKey(key, key(x)))
    ensures x in s
  {
    if s[0] != x {
      SelectFinds(s[1..], key, x);
    }
  }

  lemma GroupsShareLeast<T(!new)>(a: seq<T>, b: seq<T>, key: T -> int)
    requires SortedBy(a, key) && SameGroups(a, b, key) && b != []
    ensures a != [] && key(a[0]) <= key(b[0])
  {
    var k := key(b[0]);
    assert b[0] in Select(b, HasKey(key, k));
    assert Select(a, HasKey(key, k)) == Select(b, HasKey(key, k));
    SelectFinds(a, key, b[0]);
    var i :| 0 <= i < |a| && a[i] == b[0];
  }

  /** Two sorted sequences in which equal keys come in the same order are the same. */
  lemma {:induction false} SortedGroupsAreEqual<T(!new)>(a: seq<T>, b: seq<T>, key: T -> int)
    requires SortedBy(a, key) && SortedBy(b, key) && SameGroups(a, b, key)
    ensures a == b
  {
    if b != [] {
      GroupsShareLeast(a, b, key);
    }
    if a != [] {
      GroupsShareLeast(b, a, key);
      var k := key(a[0]);
      assert Select(a, HasKey(key, k)) == Select(b, HasKey(key, k));
      assert Select(a, HasKey(key, k))[0] == a[0] && Select(b, HasKey(key, k))[0] == b[0];
      TailGroups(a, b, key);
      SortedGroupsAreEqual(a[1..], b[1..], key);
      assert a == [a[0]] + a[1..] && b == [b[0]] + b[1..];
    }
  }

  lemma TailGroups<T(!new)>(a: seq<T>, b: seq<T>, key: T -> int)
    requires a != [] && b != [] && a[0] == b[0] && SameGroups(a, b, key)
    ensures SameGroups(a[1..], b[1..], key)
  {
    forall k ensures Select(a[1..], HasKey(key, k)) == Select(b[1..], HasKey(key, k)) {
      assert Select(a, HasKey(key, k)) == Select(b, HasKey(key, k));
      var head := if key(a[0]) == k then [a[0]] else [];
      assert head + Select(a[1..], HasKey(key, k)) == head + Select(b[1..], HasKey(key, k));
      assert (head + Select(a[1..], HasKey(key, k)))[|head|..] == Select(a[1..], HasKey(key, k));
      assert (head + Select(b[1..], HasKey(key, k)))[|head|..] == Select(b[1..], HasKey(key, k));
    }
  }

  /** A stable sort has only one result: whatever is sorted and keeps equal keys in order is it. */
  lemma StableSortIsUnique<T(!new)>(s: seq<T>, sorted: seq<T>, key: T -> int)
    requires SortedBy(sorted, key) && SameGroups(sorted, s, key)
    ensures sorted == SortBy(s, key)
  {
    SortSorts(s, key);
    forall k ensures Select(sorted, HasKey(key, k)) == Select(SortBy(s, key), HasKey(key, k)) {
      SortIsStable(s, key, k);
      assert Select(sorted, HasKey(key, k)) == Select(s, HasKey(key, k));
    }
    SortedGroupsAreEqual(sorted, SortBy(s, key), key);
  }

  ghost predicate Ascending(s: seq<int>) {
    forall i, j :: 0 <= i < j < |s| ==> s[i] <= s[j]
  }

  lemma HeadIsLeast(a: seq<int>, b: seq<int>)
    requires multiset(a) == multiset(b) && Ascending(a) && a != [] && b != []
    ensures a[0] <= b[0]
  {
    assert b[0] in multiset(b);
    var i :| 0 <= i < |a| && a[i] == b[0];
  }

  lemma TailMultiset(s: seq<int>)
    requires s != []
    ensures multiset(s[1..]) == multiset(s) - multiset{s[0]}
  {
    assert s == [s[0]] + s[1..];
  }

  /** A sorted sequence of integers is determined by its elements. */
  lemma {:induction false} SortedIsUnique(a: seq<int>, b: seq<int>)
    requires multiset(a) == multiset(b) && Ascending(a) && Ascending(b)
    ensures a == b
  {
    assert |multiset(a)| == |a| && |multiset(b)| == |b|;
    if a != [] {
      HeadIsLeast(a, b);
      HeadIsLeast(b, a);
      TailMultiset(a);
      TailMultiset(b);
      SortedIsUnique(a[1..], b[1..]);
      assert a == [a[0]] + a[1..] && b == [b[0]] + b[1..];
    }
  }
}
