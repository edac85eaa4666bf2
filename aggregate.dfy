/**
 * The pandas operations `update_plots` applies to the filtered rows:
 * `Series.unique()` (distinct values in first-occurrence order), grouping
 * rows by a column and adding up a weight per group (`groupby(...).size()`
 * with weight 1, the pie's per-name sum of values with weight `Hour`), and
 * the two orderings of the bar data: `groupby` sorts its keys and
 * `sort_values('Count', ascending=False)` orders the groups by count.
 */
module Aggregate {

  /** One group: its key and the sum of its rows' weights. */
  datatype Bucket<K> = Bucket(key: K, total: int)

  ghost predicate Distinct<T>(s: seq<T>) {
    forall i, j :: 0 <= i < j < |s| ==> s[i] != s[j]
  }

  ghost predicate DistinctKeys<K>(bs: seq<Bucket<K>>) {
    forall i, j :: 0 <= i < j < |bs| ==> bs[i].key != bs[j].key
  }

  predicate HasKey<K(==)>(bs: seq<Bucket<K>>, k: K) {
    exists i :: 0 <= i < |bs| && bs[i].key == k
  }

  /** `Series.unique()`: the distinct keys of the rows, each once, in first-occurrence order. */
  function Unique<R, K(==)>(rows: seq<R>, key: R -> K): (u: seq<K>)
    ensures Distinct(u)
    ensures forall i :: 0 <= i < |rows| ==> key(rows[i]) in u
    decreases |rows|
  {
    if |rows| == 0 then []
    else
      var p := rows[..|rows| - 1];
      var u := Unique(p, key);
      var k := key(rows[|rows| - 1]);
      assert forall i :: 0 <= i < |p| ==> rows[i] == p[i];
      if k in u then u else u + [k]
  }

  /** Every key `Unique` lists is carried by some row. */
  lemma {:induction false} UniqueKeyOccurs<R, K>(rows: seq<R>, key: R -> K, k: K)
    requires k in Unique(rows, key)
    ensures exists i :: 0 <= i < |rows| && key(rows[i]) == k
  {
    var p := rows[..|rows| - 1];
    if k in Unique(p, key) {
      UniqueKeyOccurs(p, key, k);
      var i :| 0 <= i < |p| && key(p[i]) == k;
      assert rows[i] == p[i];
    } else {
      assert key(rows[|rows| - 1]) == k;
    }
  }

  /** Position of the first row whose key is `k`; `|rows|` when there is none. */
  function FirstIndex<R, K(==)>(rows: seq<R>, key: R -> K, k: K): (r: nat)
    ensures r <= |rows|
    ensures r < |rows| ==> key(rows[r]) == k
    ensures forall j :: 0 <= j < r ==> key(rows[j]) != k
  {
    if |rows| == 0 then 0
    else if key(rows[0]) == k then 0
    else 1 + FirstIndex(rows[1..], key, k)
  }

  lemma {:induction false} FirstIndexAppend<R, K>(p: seq<R>, r: R, key: R -> K, k: K)
    ensures FirstIndex(p + [r], key, k) ==
            if FirstIndex(p, key, k) < |p| then FirstIndex(p, key, k)
            else if key(r) == k then |p| else |p| + 1
  {
    if |p| > 0 && key(p[0]) != k {
      assert (p + [r])[1..] == p[1..] + [r];
      FirstIndexAppend(p[1..], r, key, k);
    }
  }

  lemma FirstIndexOfEarlierKey<R, K>(p: seq<R>, r: R, key: R -> K, x: K)
    requires x in Unique(p, key)
    ensures FirstIndex(p + [r], key, x) == FirstIndex(p, key, x) < |p|
  {
    UniqueKeyOccurs(p, key, x);
    var i :| 0 <= i < |p| && key(p[i]) == x;
    FirstIndexAppend(p, r, key, x);
  }

  /** The keys of `Unique` come in the order of their first occurrence in the rows. */
  lemma {:induction false} UniqueInFirstOccurrenceOrder<R, K>(rows: seq<R>, key: R -> K)
    ensures var u := Unique(rows, key);
      forall i, j :: 0 <= i < j < |u| ==> FirstIndex(rows, key, u[i]) < FirstIndex(rows, key, u[j])
  {
    if |rows| > 0 {
      var p, r := rows[..|rows| - 1], rows[|rows| - 1];
      assert rows == p + [r];
      UniqueInFirstOccurrenceOrder(p, key);
      var up := Unique(p, key);
      var u := Unique(rows, key);
      if key(r) !in up {
        FirstIndexAppend(p, r, key, key(r));
        assert u == up + [key(r)];
      } else {
        assert u == up;
      }
      forall i, j | 0 <= i < j < |u|
        ensures FirstIndex(rows, key, u[i]) < FirstIndex(rows, key, u[j])
      {
        FirstIndexOfEarlierKey(p, r, key, u[i]);
        if j < |up| {
          FirstIndexOfEarlierKey(p, r, key, u[j]);
        }
      }
    }
  }

  /** Sum of the weights of the rows whose key is `k`. */
  function SumWhere<R, K(==)>(rows: seq<R>, key: R -> K, weight: R -> int, k: K): int
    decreases |rows|
  {
    if |rows| == 0 then 0
    else
      var r := rows[|rows| - 1];
      SumWhere(rows[..|rows| - 1], key, weight, k) + (if key(r) == k then weight(r) else 0)
  }

  /** Sum of the weights of all rows. */
  function SumAll<R>(rows: seq<R>, weight: R -> int): int
    decreases |rows|
  {
    if |rows| == 0 then 0 else SumAll(rows[..|rows| - 1], weight) + weight(rows[|rows| - 1])
  }

  lemma {:induction false} SumWhereAbsent<R, K>(rows: seq<R>, key: R -> K, weight: R -> int, k: K)
    requires forall i :: 0 <= i < |rows| ==> key(rows[i]) != k
    ensures SumWhere(rows, key, weight, k) == 0
  {
    if |rows| > 0 {
      var p := rows[..|rows| - 1];
      assert forall i :: 0 <= i < |p| ==> p[i] == rows[i];
      SumWhereAbsent(p, key, weight, k);
    }
  }

  /** With positive weights, a key that some row carries has a total of at least 1. */
  lemma {:induction false} SumWherePositive<R, K>(rows: seq<R>, key: R -> K, weight: R -> int, i: nat)
    requires i < |rows|
    requires forall r :: weight(r) >= 1
    ensures SumWhere(rows, key, weight, key(rows[i])) >= 1
  {
    var p := rows[..|rows| - 1];
    if i < |rows| - 1 {
      assert p[i] == rows[i];
      SumWherePositive(p, key, weight, i);
    } else {
      SumWhereNonNegative(p, key, weight, key(rows[i]));
    }
  }

  lemma {:induction false} SumWhereNonNegative<R, K>(rows: seq<R>, key: R -> K, weight: R -> int, k: K)
    requires forall r :: weight(r) >= 0
    ensures SumWhere(rows, key, weight, k) >= 0
  {
    if |rows| > 0 {
      SumWhereNonNegative(rows[..|rows| - 1], key, weight, k);
    }
  }

  /** Adds weight `w` to the bucket of key `k`, or appends a new bucket for `k`. */
  function Add<K(==)>(bs: seq<Bucket<K>>, k: K, w: int): (r: seq<Bucket<K>>)
    requires DistinctKeys(bs)
    ensures |r| == if HasKey(bs, k) then |bs| else |bs| + 1
    ensures forall i :: 0 <= i < |bs| ==>
      r[i].key == bs[i].key && r[i].total == bs[i].total + (if bs[i].key == k then w else 0)
    ensures !HasKey(bs, k) ==> r[|bs|] == Bucket(k, w)
  {
    if |bs| == 0 then [Bucket(k, w)]
    else if bs[0].key == k then [Bucket(k, bs[0].total + w)] + bs[1..]
    else
      assert HasKey(bs, k) <==> HasKey(bs[1..], k) by {
        if HasKey(bs, k) {
          var i :| 0 <= i < |bs| && bs[i].key == k;
          assert bs[1..][i - 1].key == k;
        }
        if HasKey(bs[1..], k) {
          var i :| 0 <= i < |bs| - 1 && bs[1..][i].key == k;
          assert bs[i + 1].key == k;
        }
      }
      [bs[0]] + Add(bs[1..], k, w)
  }

  function SumTotals<K>(bs: seq<Bucket<K>>): int {
    if |bs| == 0 then 0 else bs[0].total + SumTotals(bs[1..])
  }

  /**
   * A counting pass over the rows: one bucket per distinct key, in
   * first-occurrence order, holding the sum of that key's weights.
   */
  function Totals<R, K(==)>(rows: seq<R>, key: R -> K, weight: R -> int): (bs: seq<Bucket<K>>)
    ensures |bs| == |Unique(rows, key)|
    ensures forall i :: 0 <= i < |bs| ==> bs[i].key == Unique(rows, key)[i]
    ensures forall i :: 0 <= i < |bs| ==> bs[i].total == SumWhere(rows, key, weight, bs[i].key)
    decreases |rows|
  {
    if |rows| == 0 then []
    else
      var p := rows[..|rows| - 1];
      var r := rows[|rows| - 1];
      var bs := Totals(p, key, weight);
      var u := Unique(p, key);
      assert DistinctKeys(bs);
      assert HasKey(bs, key(r)) <==> key(r) in u by {
        if key(r) in u {
          var i :| 0 <= i < |u| && u[i] == key(r);
          assert bs[i].key == key(r);
        }
      }
      assert !HasKey(bs, key(r)) ==> SumWhere(p, key, weight, key(r)) == 0 by {
        if !HasKey(bs, key(r)) {
          SumWhereAbsent(p, key, weight, key(r));
        }
      }
      Add(bs, key(r), weight(r))
  }

  lemma {:induction false} SumTotalsAdd<K>(bs: seq<Bucket<K>>, k: K, w: int)
    requires DistinctKeys(bs)
    ensures SumTotals(Add(bs, k, w)) == SumTotals(bs) + w
  {
    if |bs| > 0 && bs[0].key != k {
      SumTotalsAdd(bs[1..], k, w);
    }
  }

  /** The group totals add up to the total weight of all rows. */
  lemma {:induction false} TotalsSum<R, K>(rows: seq<R>, key: R -> K, weight: R -> int)
    ensures SumTotals(Totals(rows, key, weight)) == SumAll(rows, weight)
  {
    if |rows| > 0 {
      var p := rows[..|rows| - 1];
      TotalsSum(p, key, weight);
      SumTotalsAdd(Totals(p, key, weight), key(rows[|rows| - 1]), weight(rows[|rows| - 1]));
    }
  }

  /** Python's `<` on `str`: lexicographic by code point. */
  predicate StrLess(a: string, b: string) {
    if |a| == 0 then |b| > 0
    else if |b| == 0 then false
    else if a[0] != b[0] then a[0] < b[0]
    else StrLess(a[1..], b[1..])
  }

  lemma {:induction false} StrLessTotal(a: string, b: string)
    ensures a == b || StrLess(a, b) || StrLess(b, a)
    ensures !(StrLess(a, b) && StrLess(b, a))
  {
    if |a| > 0 && |b| > 0 && a[0] == b[0] {
      StrLessTotal(a[1..], b[1..]);
      if a[1..] == b[1..] {
        assert a == [a[0]] + a[1..] && b == [b[0]] + b[1..];
      }
    }
  }

  lemma {:induction false} StrLessTransitive(a: string, b: string, c: string)
    requires StrLess(a, b) && StrLess(b, c)
    ensures StrLess(a, c)
  {
    if |a| > 0 && a[0] == b[0] && b[0] == c[0] {
      StrLessTransitive(a[1..], b[1..], c[1..]);
    }
  }

  /** "Not after": `a` comes before `b` or has the same key. */
  lemma StrNotLessTransitive(a: string, b: string, c: string)
    requires !StrLess(b, a) && !StrLess(c, b)
    ensures !StrLess(c, a)
  {
    StrLessTotal(a, b);
    StrLessTotal(b, c);
    StrLessTotal(a, c);
    if StrLess(c, a) {
      if StrLess(a, b) { StrLessTransitive(c, a, b); }
    }
  }

  ghost predicate KeysAscending(bs: seq<Bucket<string>>) {
    forall i, j :: 0 <= i < j < |bs| ==> !StrLess(bs[j].key, bs[i].key)
  }

  ghost predicate TotalsDescending<K>(bs: seq<Bucket<K>>) {
    forall i, j :: 0 <= i < j < |bs| ==> bs[i].total >= bs[j].total
  }

  function InsertByKey(b: Bucket<string>, s: seq<Bucket<string>>): seq<Bucket<string>>
  {
    if |s| == 0 || !StrLess(s[0].key, b.key) then [b] + s
    else [s[0]] + InsertByKey(b, s[1..])
  }

  lemma {:induction false} InsertByKeyKeeps(b: Bucket<string>, s: seq<Bucket<string>>)
    ensures multiset(InsertByKey(b, s)) == multiset(s) + multiset{b}
    ensures SumTotals(InsertByKey(b, s)) == SumTotals(s) + b.total
  {
    if |s| > 0 && StrLess(s[0].key, b.key) {
      assert s == [s[0]] + s[1..];
      InsertByKeyKeeps(b, s[1..]);
    }
  }

  lemma {:induction false} InsertByKeyAscending(b: Bucket<string>, s: seq<Bucket<string>>)
    requires KeysAscending(s)
    ensures KeysAscending(InsertByKey(b, s))
  {
    if |s| == 0 {
    } else if !StrLess(s[0].key, b.key) {
      forall j | 0 <= j < |s| ensures !StrLess(s[j].key, b.key) {
        if j > 0 { StrNotLessTransitive(b.key, s[0].key, s[j].key); }
      }
    } else {
      var t := InsertByKey(b, s[1..]);
      InsertByKeyAscending(b, s[1..]);
      InsertByKeyKeeps(b, s[1..]);
      StrLessTotal(s[0].key, b.key);
      forall x | x in t ensures !StrLess(x.key, s[0].key) {
        assert x in multiset(t);
        if x != b {
          var j :| 0 <= j < |s| - 1 && s[1..][j] == x;
          assert s[j + 1] == x;
        }
      }
      var r := [s[0]] + t;
      forall i, j | 0 <= i < j < |r| ensures !StrLess(r[j].key, r[i].key) {
        if i == 0 { assert r[j] in t; }
      }
    }
  }

  /** The ordering `groupby` gives its groups: ascending key. */
  function SortByKey(bs: seq<Bucket<string>>): (r: seq<Bucket<string>>)
    ensures multiset(r) == multiset(bs)
    ensures SumTotals(r) == SumTotals(bs)
    ensures KeysAscending(r)
  {
    if |bs| == 0 then []
    else
      var t := SortByKey(bs[1..]);
      assert bs == [bs[0]] + bs[1..];
      InsertByKeyKeeps(bs[0], t);
      InsertByKeyAscending(bs[0], t);
      InsertByKey(bs[0], t)
  }

  function InsertByTotal<K>(b: Bucket<K>, s: seq<Bucket<K>>): seq<Bucket<K>>
  {
    if |s| == 0 || s[0].total <= b.total then [b] + s
    else [s[0]] + InsertByTotal(b, s[1..])
  }

  lemma {:induction false} InsertByTotalKeeps<K>(b: Bucket<K>, s: seq<Bucket<K>>)
    ensures multiset(InsertByTotal(b, s)) == multiset(s) + multiset{b}
    ensures SumTotals(InsertByTotal(b, s)) == SumTotals(s) + b.total
  {
    if |s| > 0 && s[0].total > b.total {
      assert s == [s[0]] + s[1..];
      InsertByTotalKeeps(b, s[1..]);
    }
  }

  lemma {:induction false} InsertByTotalDescending<K>(b: Bucket<K>, s: seq<Bucket<K>>)
    requires TotalsDescending(s)
    ensures TotalsDescending(InsertByTotal(b, s))
  {
    if |s| > 0 && s[0].total > b.total {
      var t := InsertByTotal(b, s[1..]);
      InsertByTotalDescending(b, s[1..]);
      InsertByTotalKeeps(b, s[1..]);
      forall x | x in t ensures x.total <= s[0].total {
        assert x in multiset(t);
        if x != b {
          var j :| 0 <= j < |s| - 1 && s[1..][j] == x;
          assert s[j + 1] == x;
        }
      }
      var r := [s[0]] + t;
      forall i, j | 0 <= i < j < |r| ensures r[i].total >= r[j].total {
        if i == 0 { assert r[j] in t; }
      }
    }
  }

  /** `sort_values('Count', ascending=False)`: groups by non-increasing total. */
  function SortByTotalDescending<K>(bs: seq<Bucket<K>>): (r: seq<Bucket<K>>)
    ensures multiset(r) == multiset(bs)
    ensures SumTotals(r) == SumTotals(bs)
    ensures TotalsDescending(r)
  {
    if |bs| == 0 then []
    else
      var t := SortByTotalDescending(bs[1..]);
      assert bs == [bs[0]] + bs[1..];
      InsertByTotalKeeps(bs[0], t);
      InsertByTotalDescending(bs[0], t);
      InsertByTotal(bs[0], t)
  }

  lemma {:induction false} AtMostOnce<K>(bs: seq<Bucket<K>>, x: Bucket<K>)
    requires DistinctKeys(bs)
    ensures multiset(bs)[x] <= 1
  {
    if |bs| > 0 {
      assert bs == [bs[0]] + bs[1..];
      AtMostOnce(bs[1..], x);
      if x == bs[0] {
        assert x !in bs[1..];
      }
    }
  }

  /** Reordering buckets whose keys are distinct keeps the keys distinct. */
  lemma DistinctKeysPermutation<K>(a: seq<Bucket<K>>, b: seq<Bucket<K>>)
    requires multiset(a) == multiset(b) && DistinctKeys(a)
    ensures DistinctKeys(b)
  {
    forall i, j | 0 <= i < j < |b| ensures b[i].key != b[j].key {
      assert b[i] in multiset(a) && b[j] in multiset(a);
      var p :| 0 <= p < |a| && a[p] == b[i];
      var q :| 0 <= q < |a| && a[q] == b[j];
      if b[i] == b[j] {
        assert b == b[..j] + [b[j]] + b[j + 1..];
        assert b[i] in b[..j];
        assert multiset(b)[b[i]] >= 2;
        AtMostOnce(a, b[i]);
      }
    }
  }
}
