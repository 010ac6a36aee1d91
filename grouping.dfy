/** SQL `GROUP BY key` with `COUNT(*)` and `SUM(value)`, computed the way a
    hash aggregation folds the input rows one at a time: a row whose key is
    already present adds to that group, a row with a new key opens a group at
    the end. Groups therefore come out in the order their keys are first seen. */
module Grouping {

  datatype Bucket<K> = Bucket(key: K, count: nat, sum: nat)

  /** Folds one row with key `k` and value `w` into the groups. */
  function AddTo<K(==)>(bs: seq<Bucket<K>>, k: K, w: nat): seq<Bucket<K>> {
    if bs == [] then [Bucket(k, 1, w)]
    else if bs[0].key == k then [Bucket(k, bs[0].count + 1, bs[0].sum + w)] + bs[1..]
    else [bs[0]] + AddTo(bs[1..], k, w)
  }

  /** `SELECT key, COUNT(*), SUM(value) ... GROUP BY key` over `rows`. */
  function GroupBy<K(==)>(rows: seq<(K, nat)>): seq<Bucket<K>> {
    if rows == [] then []
    else
      var last := rows[|rows| - 1];
      AddTo(GroupBy(rows[..|rows| - 1]), last.0, last.1)
  }

  /** Number of rows with key `k`. */
  function CountOf<K(==)>(rows: seq<(K, nat)>, k: K): nat {
    if rows == [] then 0
    else CountOf(rows[..|rows| - 1], k) + (if rows[|rows| - 1].0 == k then 1 else 0)
  }

  /** Sum of the values of the rows with key `k`. */
  function SumOf<K(==)>(rows: seq<(K, nat)>, k: K): nat {
    if rows == [] then 0
    else SumOf(rows[..|rows| - 1], k) + (if rows[|rows| - 1].0 == k then rows[|rows| - 1].1 else 0)
  }

  predicate Occurs<K(==)>(rows: seq<(K, nat)>, k: K) {
    exists i :: 0 <= i < |rows| && rows[i].0 == k
  }

  predicate HasKey<K(==)>(bs: seq<Bucket<K>>, k: K) {
    exists i :: 0 <= i < |bs| && bs[i].key == k
  }

  predicate DistinctKeys<K(==)>(bs: seq<Bucket<K>>) {
    forall i, j :: 0 <= i < j < |bs| ==> bs[i].key != bs[j].key
  }

  /** The count recorded for `k` in the groups, 0 when `k` has no group. */
  function CountIn<K(==)>(bs: seq<Bucket<K>>, k: K): nat {
    if bs == [] then 0 else (if bs[0].key == k then bs[0].count else 0) + CountIn(bs[1..], k)
  }

  /** The sum recorded for `k` in the groups, 0 when `k` has no group. */
  function SumIn<K(==)>(bs: seq<Bucket<K>>, k: K): nat {
    if bs == [] then 0 else (if bs[0].key == k then bs[0].sum else 0) + SumIn(bs[1..], k)
  }

  /** Sum of the counts of all groups. */
  function TotalCount<K>(bs: seq<Bucket<K>>): nat {
    if bs == [] then 0 else bs[0].count + TotalCount(bs[1..])
  }

  /** A key has a group in a non-empty list exactly when the first group has it
      or one of the rest does. */
  lemma HasKeyCons<K>(bs: seq<Bucket<K>>, k: K)
    requires bs != []
    ensures HasKey(bs, k) <==> bs[0].key == k || HasKey(bs[1..], k)
  {
    if HasKey(bs, k) && bs[0].key != k {
      var i :| 0 <= i < |bs| && bs[i].key == k;
      assert bs[1..][i - 1].key == k;
    }
    if HasKey(bs[1..], k) {
      var i :| 0 <= i < |bs[1..]| && bs[1..][i].key == k;
      assert bs[i + 1].key == k;
    }
  }

  lemma {:induction false} CountInAbsent<K>(bs: seq<Bucket<K>>, k: K)
    requires !HasKey(bs, k)
    ensures CountIn(bs, k) == 0 && SumIn(bs, k) == 0
  {
    if bs != [] {
      HasKeyCons(bs, k);
      CountInAbsent(bs[1..], k);
    }
  }

  /** In groups with distinct keys, the count and sum recorded for a group's key
      are that group's own. */
  lemma {:induction false} CountInAt<K>(bs: seq<Bucket<K>>, i: nat)
    requires DistinctKeys(bs) && i < |bs|
    ensures CountIn(bs, bs[i].key) == bs[i].count && SumIn(bs, bs[i].key) == bs[i].sum
  {
    if i == 0 {
      forall j | 0 <= j < |bs[1..]| ensures bs[1..][j].key != bs[0].key {
        assert bs[1..][j] == bs[j + 1];
      }
      CountInAbsent(bs[1..], bs[0].key);
    } else {
      CountInAt(bs[1..], i - 1);
      assert bs[1..][i - 1] == bs[i];
    }
  }

  /** Folding a row adds its key to the keys that have a group, and no other. */
  lemma {:induction false} AddToKeys<K>(bs: seq<Bucket<K>>, k: K, w: nat)
    ensures forall k' :: HasKey(AddTo(bs, k, w), k') <==> HasKey(bs, k') || k' == k
  {
    var r := AddTo(bs, k, w);
    if bs == [] {
      forall k' ensures HasKey(r, k') <==> k' == k {
        if k' == k { assert r[0].key == k; }
      }
    } else if bs[0].key == k {
      forall k' ensures HasKey(r, k') <==> HasKey(bs, k') || k' == k {
        HasKeyCons(bs, k');
        HasKeyCons(r, k');
        assert r[1..] == bs[1..];
      }
    } else {
      AddToKeys(bs[1..], k, w);
      forall k' ensures HasKey(r, k') <==> HasKey(bs, k') || k' == k {
        HasKeyCons(bs, k');
        HasKeyCons(r, k');
        assert r[1..] == AddTo(bs[1..], k, w);
      }
    }
  }

  /** Folding a row keeps the keys of the groups distinct. */
  lemma {:induction false} AddToDistinct<K>(bs: seq<Bucket<K>>, k: K, w: nat)
    requires DistinctKeys(bs)
    ensures DistinctKeys(AddTo(bs, k, w))
  {
    var r := AddTo(bs, k, w);
    if bs != [] && bs[0].key == k {
      forall i, j | 0 <= i < j < |r| ensures r[i].key != r[j].key {
        assert r[j] == bs[j];
        if i > 0 { assert r[i] == bs[i]; }
      }
    } else if bs != [] {
      var tail := bs[1..];
      AddToDistinct(tail, k, w);
      AddToKeys(tail, k, w);
      var rt := AddTo(tail, k, w);
      assert r == [bs[0]] + rt;
      forall i, j | 0 <= i < j < |r| ensures r[i].key != r[j].key {
        assert r[j] == rt[j - 1];
        if i == 0 {
          assert HasKey(rt, rt[j - 1].key);
          if rt[j - 1].key != k {
            assert HasKey(tail, rt[j - 1].key);
            var m :| 0 <= m < |tail| && tail[m].key == rt[j - 1].key;
            assert tail[m] == bs[m + 1];
          }
        } else {
          assert r[i] == rt[i - 1];
        }
      }
    }
  }

  /** Folding a row adds one to its key's count and its value to its key's sum,
      leaves every other key's count and sum alone, and keeps counts positive. */
  lemma {:induction false} AddToCounts<K>(bs: seq<Bucket<K>>, k: K, w: nat)
    ensures forall k' :: CountIn(AddTo(bs, k, w), k') == CountIn(bs, k') + (if k' == k then 1 else 0)
    ensures forall k' :: SumIn(AddTo(bs, k, w), k') == SumIn(bs, k') + (if k' == k then w else 0)
    ensures TotalCount(AddTo(bs, k, w)) == TotalCount(bs) + 1
    ensures (forall i :: 0 <= i < |bs| ==> bs[i].count > 0) ==>
              forall i :: 0 <= i < |AddTo(bs, k, w)| ==> AddTo(bs, k, w)[i].count > 0
  {
    var r := AddTo(bs, k, w);
    if bs != [] && bs[0].key == k {
      assert r[1..] == bs[1..];
    } else if bs != [] {
      AddToCounts(bs[1..], k, w);
      assert r[1..] == AddTo(bs[1..], k, w);
      assert forall i :: 0 < i < |bs| ==> bs[1..][i - 1] == bs[i];
    }
  }

  /** What `GROUP BY` computes: one group per distinct key of the input, no key
      twice, and each group's count and sum are the number of rows with its key
      and the sum of their values. The counts add up to the number of rows. */
  lemma {:induction false} GroupBySpec<K>(rows: seq<(K, nat)>)
    ensures DistinctKeys(GroupBy(rows))
    ensures forall k :: HasKey(GroupBy(rows), k) <==> Occurs(rows, k)
    ensures forall k :: CountIn(GroupBy(rows), k) == CountOf(rows, k)
    ensures forall k :: SumIn(GroupBy(rows), k) == SumOf(rows, k)
    ensures TotalCount(GroupBy(rows)) == |rows|
    ensures forall i :: 0 <= i < |GroupBy(rows)| ==> GroupBy(rows)[i].count > 0
  {
    if rows != [] {
      var init := rows[..|rows| - 1];
      var last := rows[|rows| - 1];
      GroupBySpec(init);
      AddToKeys(GroupBy(init), last.0, last.1);
      AddToDistinct(GroupBy(init), last.0, last.1);
      AddToCounts(GroupBy(init), last.0, last.1);
      forall k ensures Occurs(rows, k) <==> Occurs(init, k) || k == last.0 {
        if Occurs(init, k) {
          var i :| 0 <= i < |init| && init[i].0 == k;
          assert rows[i].0 == k;
        }
        if Occurs(rows, k) && k != last.0 {
          var i :| 0 <= i < |rows| && rows[i].0 == k;
          assert init[i].0 == k;
        }
      }
    }
  }

  /** Each group, looked up by position, carries its key's count and sum, and
      that count is at least one. */
  lemma GroupAt<K>(rows: seq<(K, nat)>, i: nat)
    requires i < |GroupBy(rows)|
    ensures GroupBy(rows)[i].count == CountOf(rows, GroupBy(rows)[i].key) >= 1
    ensures GroupBy(rows)[i].sum == SumOf(rows, GroupBy(rows)[i].key)
    ensures Occurs(rows, GroupBy(rows)[i].key)
  {
    GroupBySpec(rows);
    CountInAt(GroupBy(rows), i);
    assert HasKey(GroupBy(rows), GroupBy(rows)[i].key);
  }

  /** Folding a row whose key has no group in `p` leaves `p` alone. */
  lemma {:induction false} AddToAppend<K>(p: seq<Bucket<K>>, q: seq<Bucket<K>>, k: K, w: nat)
    requires !HasKey(p, k)
    ensures AddTo(p + q, k, w) == p + AddTo(q, k, w)
  {
    if p != [] {
      HasKeyCons(p, k);
      AddToAppend(p[1..], q, k, w);
      assert (p + q)[0] == p[0] && (p + q)[1..] == p[1..] + q;
      assert p == [p[0]] + p[1..];
    } else {
      assert p + q == q;
    }
  }

  /** Grouping two inputs with no key in common is grouping each on its own and
      putting the results one after the other (the `UNION ALL` of two grouped
      queries over disjoint keys). */
  lemma {:induction false} GroupByAppendDisjoint<K>(a: seq<(K, nat)>, b: seq<(K, nat)>)
    requires forall i, j :: 0 <= i < |a| && 0 <= j < |b| ==> a[i].0 != b[j].0
    ensures GroupBy(a + b) == GroupBy(a) + GroupBy(b)
  {
    if b == [] {
      assert a + b == a;
    } else {
      var b' := b[..|b| - 1];
      var last := b[|b| - 1];
      assert (a + b)[..|a + b| - 1] == a + b';
      assert (a + b)[|a + b| - 1] == last;
      GroupByAppendDisjoint(a, b');
      GroupBySpec(a);
      assert forall i :: 0 <= i < |a| ==> a[i].0 != b[|b| - 1].0;
      assert !Occurs(a, last.0);
      AddToAppend(GroupBy(a), GroupBy(b'), last.0, last.1);
    }
  }

  /** There are as many groups as distinct keys in the input. */
  lemma GroupCountIsDistinctKeys<K>(rows: seq<(K, nat)>)
    ensures |GroupBy(rows)| == |set i | 0 <= i < |rows| :: rows[i].0|
  {
    var g := GroupBy(rows);
    GroupBySpec(rows);
    var keys := set i | 0 <= i < |rows| :: rows[i].0;
    assert keys == set j | 0 <= j < |g| :: g[j].key by {
      forall k | k in keys ensures k in set j | 0 <= j < |g| :: g[j].key {
        assert Occurs(rows, k);
        var j :| 0 <= j < |g| && g[j].key == k;
      }
      forall k | k in set j | 0 <= j < |g| :: g[j].key ensures k in keys {
        assert HasKey(g, k);
        var i :| 0 <= i < |rows| && rows[i].0 == k;
      }
    }
    DistinctKeyCount(g);
  }

  lemma DistinctKeysTail<K>(bs: seq<Bucket<K>>)
    requires bs != [] && DistinctKeys(bs)
    ensures DistinctKeys(bs[1..])
  {
    var tail := bs[1..];
    forall i, j | 0 <= i < j < |tail| ensures tail[i].key != tail[j].key {
      assert tail[i] == bs[i + 1] && tail[j] == bs[j + 1];
    }
  }

  lemma KeySetCons<K>(bs: seq<Bucket<K>>)
    requires bs != []
    ensures (set j | 0 <= j < |bs| :: bs[j].key)
            == {bs[0].key} + (set j | 0 <= j < |bs[1..]| :: bs[1..][j].key)
  {
    var tail := bs[1..];
    var rest := set j | 0 <= j < |tail| :: tail[j].key;
    forall k | k in set j | 0 <= j < |bs| :: bs[j].key ensures k in {bs[0].key} + rest {
      var j :| 0 <= j < |bs| && bs[j].key == k;
      if j > 0 { assert tail[j - 1] == bs[j]; }
    }
    forall k | k in rest ensures k in set j | 0 <= j < |bs| :: bs[j].key {
      var j :| 0 <= j < |tail| && tail[j].key == k;
      assert bs[j + 1] == tail[j];
    }
  }

  lemma HeadKeyFresh<K>(bs: seq<Bucket<K>>)
    requires bs != [] && DistinctKeys(bs)
    ensures bs[0].key !in (set j | 0 <= j < |bs[1..]| :: bs[1..][j].key)
  {
    var tail := bs[1..];
    var rest := set j | 0 <= j < |tail| :: tail[j].key;
    forall k | k in rest ensures k != bs[0].key {
      var j :| 0 <= j < |tail| && tail[j].key == k;
      assert bs[j + 1] == tail[j];
    }
  }

  lemma {:induction false} DistinctKeyCount<K>(bs: seq<Bucket<K>>)
    requires DistinctKeys(bs)
    ensures |set j | 0 <= j < |bs| :: bs[j].key| == |bs|
  {
    if bs != [] {
      DistinctKeysTail(bs);
      DistinctKeyCount(bs[1..]);
      KeySetCons(bs);
      HeadKeyFresh(bs);
    }
  }

  /** The keys of the groups, in group order. */
  function Keys<K>(bs: seq<Bucket<K>>): (r: seq<K>)
    ensures |r| == |bs| && forall i :: 0 <= i < |bs| ==> r[i] == bs[i].key
  {
    seq(|bs|, i requires 0 <= i < |bs| => bs[i].key)
  }

  /** The keys of two group lists side by side are their keys side by side. */
  lemma KeysAppend<K>(a: seq<Bucket<K>>, b: seq<Bucket<K>>)
    ensures Keys(a + b) == Keys(a) + Keys(b)
  {
  }

  /** `SELECT DISTINCT` over a column: the values of `xs` in first-seen order,
      each once. */
  function Distinct<K(==,!new)>(xs: seq<K>): (r: seq<K>)
    ensures forall i, j :: 0 <= i < j < |r| ==> r[i] != r[j]
    ensures forall x :: x in r <==> x in xs
  {
    var rows := seq(|xs|, i requires 0 <= i < |xs| => (xs[i], 0));
    GroupBySpec(rows);
    var r := Keys(GroupBy(rows));
    assert forall x :: x in r <==> HasKey(GroupBy(rows), x);
    assert forall x :: x in xs <==> Occurs(rows, x) by {
      forall x ensures x in xs <==> Occurs(rows, x) {
        if x in xs { var i :| 0 <= i < |xs| && xs[i] == x; assert rows[i].0 == x; }
      }
    }
    r
  }
}
