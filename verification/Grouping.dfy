/** Maps that remember insertion order, sums by key, and the partition law the report loops rely on. */
module Grouping {
  import opened Prelude

  /** The total of the items filed under `k`. */
  function SumOf<K(==)>(items: seq<(K, int)>, k: K): int {
    if items == [] then 0
    else
      var last := items[|items| - 1];
      SumOf(items[..|items| - 1], k) + if last.0 == k then last.1 else 0
  }

  function Values<K>(items: seq<(K, int)>): seq<int> {
    seq(|items|, i requires 0 <= i < |items| => items[i].1)
  }

  function Column<K(==)>(keys: seq<K>, items: seq<(K, int)>): seq<int> {
    seq(|keys|, i requires 0 <= i < |keys| => SumOf(items, keys[i]))
  }

  ghost predicate Distinct<K>(keys: seq<K>) {
    forall i, j :: 0 <= i < j < |keys| ==> keys[i] != keys[j]
  }

  lemma SumOfAppend<K>(items: seq<(K, int)>, k: K, item: (K, int))
    ensures SumOf(items + [item], k) == SumOf(items, k) + if item.0 == k then item.1 else 0
  {
    assert (items + [item])[..|items|] == items;
  }

  lemma SumOfAbsent<K>(items: seq<(K, int)>, k: K)
    requires forall i :: 0 <= i < |items| ==> items[i].0 != k
    ensures SumOf(items, k) == 0
  {
  }

  lemma {:induction false} ZeroTotal(xs: seq<int>)
    requires forall i :: 0 <= i < |xs| ==> xs[i] == 0
    ensures Total(xs) == 0
  {
    if |xs| > 0 {
      ZeroTotal(xs[..|xs| - 1]);
    }
  }

  /** Filing items under distinct keys that include those of all that matter loses and repeats nothing. */
  lemma {:induction false} PartitionSum<K>(keys: seq<K>, items: seq<(K, int)>)
    requires Distinct(keys)
    requires forall i :: 0 <= i < |items| ==> items[i].0 in keys || items[i].1 == 0
    ensures Total(Column(keys, items)) == Total(Values(items))
  {
    if items == [] {
      ZeroTotal(Column(keys, items));
    } else {
      var n := |items| - 1;
      var rest := items[..n];
      PartitionSum(keys, rest);
      if items[n].0 in keys {
        var k :| 0 <= k < |keys| && keys[k] == items[n].0;
        TotalPoint(Column(keys, rest), Column(keys, items), k);
      } else {
        assert Column(keys, items) == Column(keys, rest);
      }
      assert Values(items) == Values(rest) + [items[n].1];
      TotalAppend(Values(rest), items[n].1);
    }
  }

  /** One figure of every element. */
  function Figures<T>(xs: seq<T>, figure: T -> int): seq<int> {
    seq(|xs|, i requires 0 <= i < |xs| => figure(xs[i]))
  }

  lemma {:induction false} TotalWithout(xs: seq<int>, k: nat)
    requires k < |xs|
    ensures Total(xs) == Total(xs[..k] + xs[k + 1..]) + xs[k]
  {
    var n := |xs| - 1;
    if k == n {
      assert xs[..k] + xs[k + 1..] == xs[..n];
    } else {
      TotalWithout(xs[..n], k);
      assert xs[..k] + xs[k + 1..] == xs[..n][..k] + xs[..n][k + 1..] + [xs[n]];
      TotalAppend(xs[..n][..k] + xs[..n][k + 1..], xs[n]);
    }
  }

  lemma MultisetWithout<T>(xs: seq<T>, k: nat)
    requires k < |xs|
    ensures multiset(xs[..k] + xs[k + 1..]) == multiset(xs) - multiset{xs[k]}
  {
    assert xs == xs[..k] + [xs[k]] + xs[k + 1..];
  }

  lemma FiguresWithout<T>(xs: seq<T>, k: nat, figure: T -> int)
    requires k < |xs|
    ensures Total(Figures(xs, figure)) == Total(Figures(xs[..k] + xs[k + 1..], figure)) + figure(xs[k])
  {
    TotalWithout(Figures(xs, figure), k);
    assert Figures(xs, figure)[..k] + Figures(xs, figure)[k + 1..] == Figures(xs[..k] + xs[k + 1..], figure);
  }

  /** Reordering elements does not change what they add up to. */
  lemma {:induction false} ReorderedTotal<T>(xs: seq<T>, ys: seq<T>, figure: T -> int)
    requires multiset(xs) == multiset(ys)
    ensures Total(Figures(xs, figure)) == Total(Figures(ys, figure))
  {
    hide Total, Figures;
    assert |multiset(xs)| == |xs| && |multiset(ys)| == |ys|;
    if xs == [] {
      assert ys == [];
    } else {
      var n := |xs| - 1;
      assert xs[n] in multiset(ys);
      var k :| 0 <= k < |ys| && ys[k] == xs[n];
      MultisetWithout(xs, n);
      MultisetWithout(ys, k);
      ReorderedTotal(xs[..n] + xs[n + 1..], ys[..k] + ys[k + 1..], figure);
      FiguresWithout(xs, n, figure);
      FiguresWithout(ys, k, figure);
    }
  }

  lemma OccursTwice<T>(xs: seq<T>, i: nat, j: nat)
    requires i < j < |xs| && xs[i] == xs[j]
    ensures multiset(xs)[xs[i]] >= 2
  {
    assert xs == xs[..j] + [xs[j]] + xs[j + 1..];
    assert xs[..j][i] == xs[i];
  }

  lemma {:induction false} OccursOnce<T>(xs: seq<T>, x: T)
    requires Distinct(xs)
    ensures multiset(xs)[x] <= 1
  {
    if xs != [] {
      var n := |xs| - 1;
      OccursOnce(xs[..n], x);
      assert xs == xs[..n] + [xs[n]];
      assert xs[n] !in xs[..n];
    }
  }

  // --- `Map` of ECMA-262 section 24.1: keys iterate in the order of first insertion ----

  datatype Table<V> = Table(order: seq<string>, rows: map<string, V>)

  ghost predicate ValidTable<V>(t: Table<V>) {
    Distinct(t.order) && forall k :: k in t.order <==> k in t.rows
  }

  function Put<V>(t: Table<V>, k: string, v: V): Table<V> {
    Table(if k in t.rows then t.order else t.order + [k], t.rows[k := v])
  }

  lemma PutKeeps<V>(t: Table<V>, k: string, v: V)
    requires ValidTable(t)
    ensures ValidTable(Put(t, k, v))
  {
    assert forall x :: x in Put(t, k, v).order <==> x in t.order || x == k;
  }

  /** The rows in table order, as `values()` lists them. */
  function Rows<V>(t: Table<V>): seq<V>
    requires forall k :: k in t.order ==> k in t.rows
  {
    seq(|t.order|, i requires 0 <= i < |t.order| => t.rows[t.order[i]])
  }
}
