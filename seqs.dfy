/**
 * The collection operations a Firestore query performs on the documents of
 * one collection: keep the matches (`where`), order by a key (`orderBy`),
 * take a prefix (`limit`) and find the first match (`limit(1)`).
 */
module Seqs {

  /** `a` may come before `b` in ascending (`descending == false`) or descending order. */
  predicate InOrder(a: int, b: int, descending: bool) {
    if descending then a >= b else a <= b
  }

  /** Every earlier element comes before every later one by `key`. */
  predicate Ordered<T>(s: seq<T>, key: T -> int, descending: bool) {
    forall i, j :: 0 <= i < j < |s| ==> InOrder(key(s[i]), key(s[j]), descending)
  }

  /** The elements of `s` that satisfy `p`, in their original order. */
  function Filter<T(!new)>(s: seq<T>, p: T -> bool): (r: seq<T>)
    ensures forall x :: multiset(r)[x] == if p(x) then multiset(s)[x] else 0
    ensures forall i :: 0 <= i < |r| ==> p(r[i]) && r[i] in s
    ensures |r| <= |s|
  {
    if |s| == 0 then []
    else
      var rest := Filter(s[1..], p);
      FilterStep(s, p, rest);
      if p(s[0]) then [s[0]] + rest else rest
  }

  /** The step of `Filter`: deciding on the head keeps its contract. */
  lemma FilterStep<T(!new)>(s: seq<T>, p: T -> bool, rest: seq<T>)
    requires |s| > 0
    requires forall x :: multiset(rest)[x] == if p(x) then multiset(s[1..])[x] else 0
    requires forall i :: 0 <= i < |rest| ==> p(rest[i]) && rest[i] in s[1..]
    requires |rest| <= |s| - 1
    ensures var r := if p(s[0]) then [s[0]] + rest else rest;
      && (forall x :: multiset(r)[x] == if p(x) then multiset(s)[x] else 0)
      && (forall i :: 0 <= i < |r| ==> p(r[i]) && r[i] in s)
      && |r| <= |s|
  {
    assert s == [s[0]] + s[1..];
    assert multiset(s) == multiset{s[0]} + multiset(s[1..]);
    if p(s[0]) {
      assert multiset([s[0]] + rest) == multiset{s[0]} + multiset(rest);
      forall i | 0 <= i < |[s[0]] + rest|
        ensures ([s[0]] + rest)[i] in s
      {
        if i > 0 {
          assert ([s[0]] + rest)[i] == rest[i - 1];
        }
      }
    }
  }

  /** `s.map(f)`. */
  function Map<T, U>(f: T -> U, s: seq<T>): (r: seq<U>)
    ensures |r| == |s|
    ensures forall i :: 0 <= i < |s| ==> r[i] == f(s[i])
  {
    seq(|s|, i requires 0 <= i < |s| => f(s[i]))
  }

  /** Puts `x` into the ordered `s` in front of the first element it may precede. */
  function Insert<T>(x: T, s: seq<T>, key: T -> int, descending: bool): (r: seq<T>)
    ensures multiset(r) == multiset(s) + multiset{x}
    ensures forall i :: 0 <= i < |r| ==> r[i] == x || r[i] in s
    ensures Ordered(s, key, descending) ==> Ordered(r, key, descending)
  {
    if |s| == 0 then [x]
    else if InOrder(key(x), key(s[0]), descending) then
      InsertFront(x, s, key, descending);
      [x] + s
    else
      var rest := Insert(x, s[1..], key, descending);
      InsertStep(x, s, rest);
      InsertStepOrdered(x, s, rest, key, descending);
      [s[0]] + rest
  }

  /** An element that may precede the head of an ordered sequence may precede all of it. */
  lemma InsertFront<T>(x: T, s: seq<T>, key: T -> int, descending: bool)
    requires |s| > 0 && InOrder(key(x), key(s[0]), descending)
    ensures multiset([x] + s) == multiset(s) + multiset{x}
    ensures forall i :: 0 <= i < |[x] + s| ==> ([x] + s)[i] == x || ([x] + s)[i] in s
    ensures Ordered(s, key, descending) ==> Ordered([x] + s, key, descending)
  {
    if Ordered(s, key, descending) {
      forall i, j | 0 <= i < j < |[x] + s|
        ensures InOrder(key(([x] + s)[i]), key(([x] + s)[j]), descending)
      {
        assert ([x] + s)[j] == s[j - 1];
        if i > 0 {
          assert ([x] + s)[i] == s[i - 1];
        }
      }
    }
  }

  /** The step of `Insert` past a head: the contents are the head, `x` and the rest. */
  lemma InsertStep<T>(x: T, s: seq<T>, rest: seq<T>)
    requires |s| > 0
    requires multiset(rest) == multiset(s[1..]) + multiset{x}
    requires forall i :: 0 <= i < |rest| ==> rest[i] == x || rest[i] in s[1..]
    ensures multiset([s[0]] + rest) == multiset(s) + multiset{x}
    ensures forall i :: 0 <= i < |[s[0]] + rest| ==> ([s[0]] + rest)[i] == x || ([s[0]] + rest)[i] in s
  {
    assert s == [s[0]] + s[1..];
    assert multiset([s[0]] + rest) == multiset{s[0]} + multiset(rest);
    forall i | 0 <= i < |[s[0]] + rest|
      ensures ([s[0]] + rest)[i] == x || ([s[0]] + rest)[i] in s
    {
      if i > 0 {
        assert ([s[0]] + rest)[i] == rest[i - 1];
      }
    }
  }

  /** The step of `Insert` past a head that `x` may not precede keeps the order. */
  lemma InsertStepOrdered<T>(x: T, s: seq<T>, rest: seq<T>, key: T -> int, descending: bool)
    requires |s| > 0 && !InOrder(key(x), key(s[0]), descending)
    requires forall i :: 0 <= i < |rest| ==> rest[i] == x || rest[i] in s[1..]
    requires Ordered(s[1..], key, descending) ==> Ordered(rest, key, descending)
    ensures Ordered(s, key, descending) ==> Ordered([s[0]] + rest, key, descending)
  {
    if Ordered(s, key, descending) {
      assert Ordered(s[1..], key, descending);
      forall i, j | 0 <= i < j < |[s[0]] + rest|
        ensures InOrder(key(([s[0]] + rest)[i]), key(([s[0]] + rest)[j]), descending)
      {
        var b := rest[j - 1];
        assert ([s[0]] + rest)[j] == b;
        if i > 0 {
          assert ([s[0]] + rest)[i] == rest[i - 1];
        } else if b != x {
          var k :| 0 <= k < |s[1..]| && s[1..][k] == b;
          assert s[k + 1] == b;
        }
      }
    }
  }

  /** Insertion sort by `key`: a permutation of `s` in the requested order. */
  function Sort<T>(s: seq<T>, key: T -> int, descending: bool): (r: seq<T>)
    ensures multiset(r) == multiset(s)
    ensures Ordered(r, key, descending)
  {
    if |s| == 0 then []
    else
      assert s == [s[0]] + s[1..];
      Insert(s[0], Sort(s[1..], key, descending), key, descending)
  }

  /** The index of the first element satisfying `p`, or `|s|` when there is none. */
  function FindFirst<T>(s: seq<T>, p: T -> bool): (i: nat)
    ensures i <= |s|
    ensures i < |s| ==> p(s[i])
    ensures forall j :: 0 <= j < i ==> !p(s[j])
  {
    if |s| == 0 || p(s[0]) then 0 else 1 + FindFirst(s[1..], p)
  }

  /** When every element passes, `Filter` keeps the sequence as it is. */
  lemma {:induction false} FilterKeepsAll<T(!new)>(s: seq<T>, p: T -> bool)
    requires forall j :: 0 <= j < |s| ==> p(s[j])
    ensures Filter(s, p) == s
  {
    if |s| > 0 {
      FilterKeepsAll(s[1..], p);
      assert s == [s[0]] + s[1..];
    }
  }

  /** When exactly one element fails, `Filter` drops exactly one. */
  lemma {:induction false} FilterDropsOne<T(!new)>(s: seq<T>, p: T -> bool, k: nat)
    requires k < |s| && !p(s[k])
    requires forall j :: 0 <= j < |s| && j != k ==> p(s[j])
    ensures |Filter(s, p)| == |s| - 1
  {
    if k == 0 {
      FilterKeepsAll(s[1..], p);
    } else {
      FilterDropsOne(s[1..], p, k - 1);
    }
  }

}
