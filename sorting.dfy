/** A stable insertion sort parameterised by an ordering relation. Every
    `ORDER BY` of the handlers is this sort with its own relation; SQL leaves
    the order of ties open, and the model fixes it by keeping tied rows in the
    order they arrive. */
module Sorting {

  ghost predicate Total<T(!new)>(le: (T, T) -> bool) {
    forall a, b :: le(a, b) || le(b, a)
  }

  ghost predicate Transitive<T(!new)>(le: (T, T) -> bool) {
    forall a, b, c :: le(a, b) && le(b, c) ==> le(a, c)
  }

  predicate SortedBy<T>(xs: seq<T>, le: (T, T) -> bool) {
    forall i, j :: 0 <= i < j < |xs| ==> le(xs[i], xs[j])
  }

  /** No two elements of `xs` share a key. */
  predicate DistinctBy<T, K(==)>(xs: seq<T>, key: T -> K) {
    forall i, j :: 0 <= i < j < |xs| ==> key(xs[i]) != key(xs[j])
  }

  /** Puts `x` in front of the first element it is `le` to; placed before the
      rest of an already sorted list, it stays ahead of the rows it ties with. */
  function Insert<T>(x: T, xs: seq<T>, le: (T, T) -> bool): (r: seq<T>)
    ensures |r| == |xs| + 1
    ensures multiset(r) == multiset(xs) + multiset{x}
  {
    if xs == [] then [x]
    else if le(x, xs[0]) then [x] + xs
    else
      assert xs == [xs[0]] + xs[1..];
      [xs[0]] + Insert(x, xs[1..], le)
  }

  /** The sorted permutation of `xs`. */
  function Sort<T>(xs: seq<T>, le: (T, T) -> bool): (r: seq<T>)
    ensures |r| == |xs|
    ensures multiset(r) == multiset(xs)
  {
    if xs == [] then []
    else
      assert xs == [xs[0]] + xs[1..];
      Insert(xs[0], Sort(xs[1..], le), le)
  }

  /** Every element of `Insert(x, xs, le)` is `x` or an element of `xs`. */
  lemma InsertFrom<T>(x: T, xs: seq<T>, le: (T, T) -> bool, k: nat)
    requires k < |Insert(x, xs, le)|
    ensures Insert(x, xs, le)[k] == x || exists m :: 0 <= m < |xs| && xs[m] == Insert(x, xs, le)[k]
  {
    var r := Insert(x, xs, le);
    assert r[k] in multiset(r);
    if r[k] != x {
      assert r[k] in multiset(xs);
    }
  }

  lemma ConsSorted<T>(a: T, rest: seq<T>, le: (T, T) -> bool)
    requires SortedBy(rest, le)
    requires forall k :: 0 <= k < |rest| ==> le(a, rest[k])
    ensures SortedBy([a] + rest, le)
  {
    var r := [a] + rest;
    forall i, j | 0 <= i < j < |r| ensures le(r[i], r[j]) {
      assert r[j] == rest[j - 1];
      if i > 0 { assert r[i] == rest[i - 1]; }
    }
  }

  lemma {:induction false} InsertSorted<T(!new)>(x: T, xs: seq<T>, le: (T, T) -> bool)
    requires Total(le) && Transitive(le)
    requires SortedBy(xs, le)
    ensures SortedBy(Insert(x, xs, le), le)
  {
    if xs != [] && !le(x, xs[0]) {
      var tail := xs[1..];
      assert SortedBy(tail, le) by {
        forall i, j | 0 <= i < j < |tail| ensures le(tail[i], tail[j]) {
          assert tail[i] == xs[i + 1] && tail[j] == xs[j + 1];
        }
      }
      InsertSorted(x, tail, le);
      var rest := Insert(x, tail, le);
      assert le(xs[0], x);
      forall k | 0 <= k < |rest| ensures le(xs[0], rest[k]) {
        InsertFrom(x, tail, le, k);
        if rest[k] != x {
          var m :| 0 <= m < |tail| && tail[m] == rest[k];
          assert tail[m] == xs[m + 1];
        }
      }
      ConsSorted(xs[0], rest, le);
    } else if xs != [] {
      ConsSorted(x, xs, le);
    }
  }

  /** Sorting with a total preorder yields a list in that order. */
  lemma {:induction false} SortSorted<T(!new)>(xs: seq<T>, le: (T, T) -> bool)
    requires Total(le) && Transitive(le)
    ensures SortedBy(Sort(xs, le), le)
  {
    if xs != [] {
      SortSorted(xs[1..], le);
      InsertSorted(xs[0], Sort(xs[1..], le), le);
    }
  }

  /** Sorting only rearranges: the sorted list holds exactly the elements of `xs`. */
  lemma SortSameElements<T>(xs: seq<T>, le: (T, T) -> bool)
    ensures forall x :: x in Sort(xs, le) <==> x in xs
  {
    var r := Sort(xs, le);
    forall x ensures x in r <==> x in xs {
      assert x in r <==> x in multiset(r);
      assert x in xs <==> x in multiset(xs);
    }
  }

  lemma {:induction false} InsertDistinct<T, K>(x: T, xs: seq<T>, le: (T, T) -> bool, key: T -> K)
    requires DistinctBy(xs, key)
    requires forall i :: 0 <= i < |xs| ==> key(xs[i]) != key(x)
    ensures DistinctBy(Insert(x, xs, le), key)
  {
    if xs != [] && !le(x, xs[0]) {
      var tail := xs[1..];
      InsertDistinct(x, tail, le, key);
      var rest := Insert(x, tail, le);
      forall k | 0 <= k < |rest| ensures key(rest[k]) != key(xs[0]) {
        assert rest[k] in multiset(rest);
        if rest[k] != x {
          var m :| 0 <= m < |tail| && tail[m] == rest[k];
          assert tail[m] == xs[m + 1];
        }
      }
      assert Insert(x, xs, le) == [xs[0]] + rest;
    }
  }

  /** Sorting keeps keys distinct: no row is duplicated. */
  lemma {:induction false} SortDistinct<T, K>(xs: seq<T>, le: (T, T) -> bool, key: T -> K)
    requires DistinctBy(xs, key)
    ensures DistinctBy(Sort(xs, le), key)
  {
    if xs != [] {
      var tail := xs[1..];
      SortDistinct(tail, le, key);
      var st := Sort(tail, le);
      forall i | 0 <= i < |st| ensures key(st[i]) != key(xs[0]) {
        assert st[i] in multiset(st);
        var m :| 0 <= m < |tail| && tail[m] == st[i];
        assert tail[m] == xs[m + 1];
      }
      InsertDistinct(xs[0], st, le, key);
    }
  }

  /** `a` occurs somewhere before `b` in `xs`. */
  ghost predicate Precedes<T>(xs: seq<T>, a: T, b: T) {
    exists p, q :: 0 <= p < q < |xs| && xs[p] == a && xs[q] == b
  }

  /** Inserting an element keeps the relative order of the others. */
  lemma {:induction false} InsertKeepsOrder<T>(x: T, xs: seq<T>, le: (T, T) -> bool, a: T, b: T)
    requires Precedes(xs, a, b)
    ensures Precedes(Insert(x, xs, le), a, b)
  {
    var p, q :| 0 <= p < q < |xs| && xs[p] == a && xs[q] == b;
    var r := Insert(x, xs, le);
    if le(x, xs[0]) {
      assert r[p + 1] == a && r[q + 1] == b;
    } else {
      var tail := xs[1..];
      var rest := Insert(x, tail, le);
      assert r == [xs[0]] + rest;
      if p == 0 {
        assert tail[q - 1] == b;
        assert b in multiset(tail);
        assert b in multiset(rest);
        var k :| 0 <= k < |rest| && rest[k] == b;
        assert r[0] == a && r[k + 1] == b;
      } else {
        assert tail[p - 1] == a && tail[q - 1] == b;
        InsertKeepsOrder(x, tail, le, a, b);
        var p', q' :| 0 <= p' < q' < |rest| && rest[p'] == a && rest[q'] == b;
        assert r[p' + 1] == a && r[q' + 1] == b;
      }
    }
  }

  /** An inserted element lands ahead of every element it is `le` to. */
  lemma {:induction false} InsertBefore<T>(x: T, xs: seq<T>, le: (T, T) -> bool, k: nat)
    requires k < |xs| && le(x, xs[k])
    ensures Precedes(Insert(x, xs, le), x, xs[k])
  {
    var r := Insert(x, xs, le);
    if le(x, xs[0]) {
      assert r[0] == x && r[k + 1] == xs[k];
    } else {
      var tail := xs[1..];
      assert tail[k - 1] == xs[k];
      InsertBefore(x, tail, le, k - 1);
      var rest := Insert(x, tail, le);
      var p, q :| 0 <= p < q < |rest| && rest[p] == x && rest[q] == xs[k];
      assert r == [xs[0]] + rest;
      assert r[p + 1] == x && r[q + 1] == xs[k];
    }
  }

  /** Every element of `xs` has a position in the sorted list. */
  lemma SortPosition<T>(xs: seq<T>, le: (T, T) -> bool, j: nat) returns (k: nat)
    requires j < |xs|
    ensures k < |Sort(xs, le)| && Sort(xs, le)[k] == xs[j]
  {
    assert xs[j] in multiset(xs);
    k :| 0 <= k < |Sort(xs, le)| && Sort(xs, le)[k] == xs[j];
  }

  /** The sort is stable: an element that is `le` to a later one stays ahead
      of it, so in particular tied elements keep the order they arrived in. */
  lemma {:induction false} SortStable<T>(xs: seq<T>, le: (T, T) -> bool, i: nat, j: nat)
    requires i < j < |xs| && le(xs[i], xs[j])
    ensures Precedes(Sort(xs, le), xs[i], xs[j])
    decreases |xs|
  {
    var tail := xs[1..];
    var st := Sort(tail, le);
    assert tail[j - 1] == xs[j];
    if i == 0 {
      var k := SortPosition(tail, le, j - 1);
      InsertBefore(xs[0], st, le, k);
    } else {
      assert tail[i - 1] == xs[i];
      SortStable(tail, le, i - 1, j - 1);
      InsertKeepsOrder(xs[0], st, le, xs[i], xs[j]);
    }
  }
}
