/** The sales time series and its previous-year column (sales.service.ts, analytics.shared.ts). */
module Sales {
  import opened Prelude
  import opened Calendar
  import opened Buckets
  import opened Grouping

  /** An order with its total, or a return with its amount. */
  datatype Entry = Entry(date: int, value: int)

  datatype Bucket = Bucket(gross: int, net: int, orders: int)

  function Filed(items: seq<Entry>, g: Granularity): seq<(Key, int)> {
    seq(|items|, i requires 0 <= i < |items| => (BucketKey(items[i].date, g), items[i].value))
  }

  function Counted(items: seq<Entry>, g: Granularity): seq<(Key, int)> {
    seq(|items|, i requires 0 <= i < |items| => (BucketKey(items[i].date, g), 1))
  }

  function Amounts(items: seq<Entry>): seq<int> { seq(|items|, i requires 0 <= i < |items| => items[i].value) }

  lemma FiledStep(items: seq<Entry>, i: nat, g: Granularity, k: Key)
    requires i < |items|
    ensures SumOf(Filed(items[..i + 1], g), k)
         == SumOf(Filed(items[..i], g), k) + if BucketKey(items[i].date, g) == k then items[i].value else 0
    ensures SumOf(Counted(items[..i + 1], g), k)
         == SumOf(Counted(items[..i], g), k) + if BucketKey(items[i].date, g) == k then 1 else 0
  {
    hide BucketKey;
    assert Filed(items[..i + 1], g) == Filed(items[..i], g) + [(BucketKey(items[i].date, g), items[i].value)];
    SumOfAppend(Filed(items[..i], g), k, (BucketKey(items[i].date, g), items[i].value));
    assert Counted(items[..i + 1], g) == Counted(items[..i], g) + [(BucketKey(items[i].date, g), 1)];
    SumOfAppend(Counted(items[..i], g), k, (BucketKey(items[i].date, g), 1));
  }

  /** What one bucket must hold once all orders and returns are filed. */
  function Expected(orders: seq<Entry>, refunds: seq<Entry>, g: Granularity, k: Key): Bucket {
    Bucket(
      SumOf(Filed(orders, g), k),
      SumOf(Filed(orders, g), k) - SumOf(Filed(refunds, g), k),
      SumOf(Counted(orders, g), k))
  }

  /** The loops that fill `current`; the `continue` skips an entry whose bucket is missing. */
  method FillSeries(keys: seq<Key>, orders: seq<Entry>, refunds: seq<Entry>, g: Granularity)
    returns (current: map<Key, Bucket>)
    ensures forall k :: k in current <==> k in keys
    ensures forall k :: k in keys ==> current[k] == Expected(orders, refunds, g, k)
  {
    hide BucketKey;
    current := map[];
    for i := 0 to |keys|
      invariant forall k :: k in current <==> k in keys[..i]
      invariant forall k :: k in current ==> current[k] == Bucket(0, 0, 0)
    {
      assert keys[..i + 1] == keys[..i] + [keys[i]];
      current := current[keys[i] := Bucket(0, 0, 0)];
    }
    assert keys[..|keys|] == keys;
    for i := 0 to |orders|
      invariant forall k :: k in current <==> k in keys
      invariant forall k :: k in current ==> current[k] == Expected(orders[..i], [], g, k)
    {
      var key := BucketKey(orders[i].date, g);
      forall k: Key { FiledStep(orders, i, g, k); }
      if key !in current { continue; }
      var bucket := current[key];
      current := current[key := Bucket(bucket.gross + orders[i].value, bucket.net + orders[i].value, bucket.orders + 1)];
    }
    assert orders[..|orders|] == orders;
    for i := 0 to |refunds|
      invariant forall k :: k in current <==> k in keys
      invariant forall k :: k in current ==> current[k] == Expected(orders, refunds[..i], g, k)
    {
      var key := BucketKey(refunds[i].date, g);
      forall k: Key { FiledStep(refunds, i, g, k); }
      if key in current {
        current := current[key := current[key].(net := current[key].net - refunds[i].value)];
      }
    }
    assert refunds[..|refunds|] == refunds;
  }

  function GrossColumn(keys: seq<Key>, current: map<Key, Bucket>): seq<int>
    requires forall k :: k in keys ==> k in current
  {
    seq(|keys|, i requires 0 <= i < |keys| => current[keys[i]].gross)
  }

  function NetColumn(keys: seq<Key>, current: map<Key, Bucket>): seq<int>
    requires forall k :: k in keys ==> k in current
  {
    seq(|keys|, i requires 0 <= i < |keys| => current[keys[i]].net)
  }

  function OrdersColumn(keys: seq<Key>, current: map<Key, Bucket>): seq<int>
    requires forall k :: k in keys ==> k in current
  {
    seq(|keys|, i requires 0 <= i < |keys| => current[keys[i]].orders)
  }

  ghost predicate InRange(items: seq<Entry>, fromDay: int, toDay: int) {
    forall i :: 0 <= i < |items| ==> DayStart(fromDay) <= items[i].date <= DayEnd(toDay)
  }

  lemma {:induction false} TotalDifference(xs: seq<int>, ys: seq<int>, zs: seq<int>)
    requires |xs| == |ys| == |zs| && forall i :: 0 <= i < |xs| ==> xs[i] == ys[i] - zs[i]
    ensures Total(xs) == Total(ys) - Total(zs)
  {
    if |xs| > 0 {
      TotalDifference(xs[..|xs| - 1], ys[..|xs| - 1], zs[..|xs| - 1]);
    }
  }

  lemma {:induction false} OnesTotal(xs: seq<int>)
    requires forall i :: 0 <= i < |xs| ==> xs[i] == 1
    ensures Total(xs) == |xs|
  {
    if |xs| > 0 {
      OnesTotal(xs[..|xs| - 1]);
    }
  }

  lemma KeysCover(items: seq<Entry>, fromDay: int, toDay: int, g: Granularity, keys: seq<Key>)
    requires Accepted(fromDay, toDay) && InRange(items, fromDay, toDay)
    requires keys == DayKeys(fromDay, toDay - fromDay + 1, g)
    ensures Distinct(keys)
    ensures forall i :: 0 <= i < |items| ==> BucketKey(items[i].date, g) in keys
  {
    hide BucketKey, Rank;
    DayKeysFacts(fromDay, toDay - fromDay + 1, g);
    forall i | 0 <= i < |items| ensures BucketKey(items[i].date, g) in keys {
      AcceptedRangeCovered(fromDay, toDay, g, items[i].date);
    }
  }

  lemma RangeIsFiled(items: seq<Entry>, fromDay: int, toDay: int, g: Granularity, keys: seq<Key>)
    requires Accepted(fromDay, toDay) && InRange(items, fromDay, toDay)
    requires keys == DayKeys(fromDay, toDay - fromDay + 1, g)
    ensures Distinct(keys)
    ensures Total(Column(keys, Filed(items, g))) == Total(Amounts(items))
    ensures Total(Column(keys, Counted(items, g))) == |items|
  {
    hide BucketKey, Rank, DayKeys, KeyOfDay, SumOf, Total;
    KeysCover(items, fromDay, toDay, g, keys);
    PartitionSum(keys, Filed(items, g));
    assert Values(Filed(items, g)) == Amounts(items);
    PartitionSum(keys, Counted(items, g));
    OnesTotal(Values(Counted(items, g)));
  }

  /**
    No money is lost: over any accepted range and granularity, the buckets of
    the series add up to the gross revenue, the net revenue and the order count.
   */
  lemma SeriesConserves(
    fromDay: int, toDay: int, g: Granularity, orders: seq<Entry>, refunds: seq<Entry>, keys: seq<Key>, current: map<Key, Bucket>)
    requires Accepted(fromDay, toDay) && InRange(orders, fromDay, toDay) && InRange(refunds, fromDay, toDay)
    requires keys == DayKeys(fromDay, toDay - fromDay + 1, g)
    requires forall k :: k in keys ==> k in current && current[k] == Expected(orders, refunds, g, k)
    ensures Total(GrossColumn(keys, current)) == Total(Amounts(orders))
    ensures Total(NetColumn(keys, current)) == Total(Amounts(orders)) - Total(Amounts(refunds))
    ensures Total(OrdersColumn(keys, current)) == |orders|
  {
    hide BucketKey;
    RangeIsFiled(orders, fromDay, toDay, g, keys);
    RangeIsFiled(refunds, fromDay, toDay, g, keys);
    assert GrossColumn(keys, current) == Column(keys, Filed(orders, g));
    assert OrdersColumn(keys, current) == Column(keys, Counted(orders, g));
    TotalDifference(NetColumn(keys, current), Column(keys, Filed(orders, g)), Column(keys, Filed(refunds, g)));
  }

  /** getSales, from the accepted range to the filled series. */
  method Series(fromDay: int, toDay: int, g: Granularity, orders: seq<Entry>, refunds: seq<Entry>)
    returns (keys: seq<Key>, current: map<Key, Bucket>)
    requires Accepted(fromDay, toDay) && InRange(orders, fromDay, toDay) && InRange(refunds, fromDay, toDay)
    ensures Increasing(keys)
    ensures forall k :: k in keys ==> k in current && current[k] == Expected(orders, refunds, g, k)
    ensures Total(GrossColumn(keys, current)) == Total(Amounts(orders))
    ensures Total(NetColumn(keys, current)) == Total(Amounts(orders)) - Total(Amounts(refunds))
    ensures Total(OrdersColumn(keys, current)) == |orders|
  {
    hide BucketKey, Rank, KeyOfDay;
    AcceptedRangeCovered(fromDay, toDay, g, DayStart(fromDay));
    keys := BucketsBetween(DayStart(fromDay), DayEnd(toDay), g);
    current := FillSeries(keys, orders, refunds, g);
    SeriesConserves(fromDay, toDay, g, orders, refunds, keys, current);
  }
}
