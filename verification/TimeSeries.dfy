/** `TimeSeriesHelper.aggregateTimeSeries`: grouping points by the start of their period.
    Values are exact numbers; a period is given by the function from a time to its period's start. */
module TimeSeries {
  import opened Reordering

  datatype Item = Item(time: int, value: real)

  type Start = int -> int

  datatype Group = Group(sum: real, count: nat, items: seq<Item>)

  datatype Bucket = Bucket(period: int, value: real, count: nat, average: real, items: seq<Item>)

  // ---- Specification ----

  /** The items of the period that starts at `k`, in input order. */
  function ItemsIn(data: seq<Item>, start: Start, k: int): seq<Item> {
    if data == [] then []
    else
      var n := |data| - 1;
      ItemsIn(data[..n], start, k) + if start(data[n].time) == k then [data[n]] else []
  }

  function Sum(items: seq<Item>): real {
    if items == [] then 0.0 else Sum(items[..|items| - 1]) + items[|items| - 1].value
  }

  function Keys(data: seq<Item>, start: Start): set<int> {
    set x | x in data :: start(x.time)
  }

  ghost predicate Ascending(ks: seq<int>) {
    forall i, j :: 0 <= i < j < |ks| ==> ks[i] < ks[j]
  }

  function Periods(buckets: seq<Bucket>): (ks: seq<int>)
    ensures |ks| == |buckets|
    ensures forall i :: 0 <= i < |ks| ==> ks[i] == buckets[i].period
  {
    seq(|buckets|, i requires 0 <= i < |buckets| => buckets[i].period)
  }

  ghost predicate Lists(ks: seq<int>, s: set<int>) { forall k :: k in ks <==> k in s }

  ghost predicate BucketOk(data: seq<Item>, start: Start, b: Bucket) {
    && b.items == ItemsIn(data, start, b.period) && b.items != []
    && b.value == Sum(b.items) && b.count == |b.items|
    && b.count > 0 && b.average == b.value / (b.count as real)
  }

  /** Strictly ascending, pairwise distinct, non-empty buckets, one for each period that occurs,
      each with exactly its items in input order, their sum, count and average. */
  ghost predicate Bucketing(data: seq<Item>, start: Start, buckets: seq<Bucket>) {
    && Ascending(Periods(buckets)) && Lists(Periods(buckets), Keys(data, start))
    && forall i :: 0 <= i < |buckets| ==> BucketOk(data, start, buckets[i])
  }

  // ---- The program ----

  ghost predicate GroupOk(data: seq<Item>, start: Start, k: int, g: Group) {
    g.items == ItemsIn(data, start, k) && g.sum == Sum(g.items) && g.count == |g.items| && g.count > 0
  }

  ghost predicate Grouped(data: seq<Item>, start: Start, groups: map<int, Group>) {
    groups.Keys == Keys(data, start) && forall k :: k in groups ==> GroupOk(data, start, k, groups[k])
  }

  lemma {:induction false} KeysSnoc(data: seq<Item>, x: Item, start: Start)
    ensures Keys(data + [x], start) == Keys(data, start) + {start(x.time)}
    ensures forall k ::
              ItemsIn(data + [x], start, k) == ItemsIn(data, start, k) + if start(x.time) == k then [x] else []
  {
    assert (data + [x])[..|data|] == data;
    assert forall y :: y in data + [x] <==> y in data || y == x;
    assert x in data + [x];
  }

  lemma {:induction false} SumSnoc(items: seq<Item>, x: Item)
    ensures Sum(items + [x]) == Sum(items) + x.value
  {
    assert (items + [x])[..|items|] == items;
  }

  lemma {:induction false} NoItems(data: seq<Item>, start: Start, k: int)
    ensures ItemsIn(data, start, k) == [] <==> k !in Keys(data, start)
  {
    if data != [] {
      var n := |data| - 1;
      NoItems(data[..n], start, k);
      KeysSnoc(data[..n], data[n], start);
      assert data == data[..n] + [data[n]];
    }
  }

  /** `g` holds what the data has of period `k` so far. */
  ghost predicate Holds(data: seq<Item>, start: Start, k: int, g: Group) {
    g.items == ItemsIn(data, start, k) && g.sum == Sum(g.items) && g.count == |g.items|
  }

  lemma {:induction false} GroupHolds(data: seq<Item>, start: Start, groups: map<int, Group>, k: int)
    requires Grouped(data, start, groups)
    ensures Holds(data, start, k, if k in groups then groups[k] else Group(0.0, 0, []))
  {
    if k in groups { assert GroupOk(data, start, k, groups[k]); } else { NoItems(data, start, k); }
  }

  /** The group of `x`'s period after `x`. */
  lemma {:induction false} GroupGrows(data: seq<Item>, x: Item, start: Start, g: Group)
    requires Holds(data, start, start(x.time), g)
    ensures GroupOk(data + [x], start, start(x.time), Group(g.sum + x.value, g.count + 1, g.items + [x]))
  {
    KeysSnoc(data, x, start);
    SumSnoc(g.items, x);
  }

  lemma {:induction false} GroupedStep(data: seq<Item>, x: Item, start: Start, groups: map<int, Group>, g: Group)
    requires Grouped(data, start, groups)
    requires GroupOk(data + [x], start, start(x.time), g)
    ensures Grouped(data + [x], start, groups[start(x.time) := g])
  {
    var key := start(x.time);
    KeysSnoc(data, x, start);
    var groups' := groups[key := g];
    forall k | k in groups' ensures GroupOk(data + [x], start, k, groups'[k]) {
      if k != key {
        assert GroupOk(data, start, k, groups[k]);
        assert ItemsIn(data + [x], start, k) == ItemsIn(data, start, k) + [];
      }
    }
  }

  ghost predicate Distinct(ks: seq<int>) { forall i, j :: 0 <= i < j < |ks| ==> ks[i] != ks[j] }

  /** Fills the map; `order` is the order in which its keys were first set. */
  method GroupByPeriod(data: seq<Item>, start: Start) returns (groups: map<int, Group>, order: seq<int>)
    ensures Grouped(data, start, groups) && Distinct(order) && Lists(order, groups.Keys)
  {
    groups, order := map[], [];
    for i := 0 to |data|
      invariant Grouped(data[..i], start, groups)
      invariant Distinct(order) && Lists(order, groups.Keys)
    {
      var key := start(data[i].time);
      var group := if key in groups then groups[key] else Group(0.0, 0, []);
      GroupHolds(data[..i], start, groups, key);
      GroupGrows(data[..i], data[i], start, group);
      group := Group(group.sum + data[i].value, group.count + 1, group.items + [data[i]]);
      GroupedStep(data[..i], data[i], start, groups, group);
      assert data[..i + 1] == data[..i] + [data[i]];
      OrderStep(order, groups, key, group);
      if key !in groups { order := order + [key]; }
      groups := groups[key := group];
    }
    assert data[..|data|] == data;
  }

  lemma {:induction false} OrderStep(order: seq<int>, groups: map<int, Group>, key: int, g: Group)
    requires Distinct(order) && Lists(order, groups.Keys)
    ensures var order' := if key in groups then order else order + [key];
            Distinct(order') && Lists(order', groups[key := g].Keys)
  {
    if key in groups {
      assert groups[key := g].Keys == groups.Keys;
    } else {
      assert groups[key := g].Keys == groups.Keys + {key};
      ListsSnoc(order, groups.Keys, key);
    }
  }

  lemma {:induction false} ListsSnoc(order: seq<int>, s: set<int>, key: int)
    requires Distinct(order) && Lists(order, s) && key !in s
    ensures Distinct(order + [key]) && Lists(order + [key], s + {key})
  {
    forall k ensures k in order + [key] <==> k in s + {key} {
      assert k in order + [key] <==> k in order || k == key;
    }
    forall j | 0 <= j < |order| ensures order[j] != key { assert order[j] in order; }
  }

  /** The sort of the map's entries by key. */
  method SortKeys(order: seq<int>) returns (ks: seq<int>)
    requires Distinct(order)
    ensures Ascending(ks) && forall k :: k in ks <==> k in order
  {
    ks := [];
    for i := 0 to |order|
      invariant Ascending(ks) && forall k :: k in ks <==> k in order[..i]
    {
      var x := order[i];
      var j := |ks|;
      while j > 0 && ks[j - 1] > x
        invariant 0 <= j <= |ks|
        invariant forall m :: j <= m < |ks| ==> ks[m] > x
      {
        j := j - 1;
      }
      assert x !in order[..i];
      InsertKeeps(ks, j, x);
      InsertMembers(ks, j, x);
      ks := ks[..j] + [x] + ks[j..];
      assert order[..i + 1] == order[..i] + [x];
    }
    assert order[..|order|] == order;
  }

  lemma {:induction false} InsertKeeps(ks: seq<int>, j: nat, x: int)
    requires Ascending(ks) && j <= |ks| && x !in ks
    requires forall m :: j <= m < |ks| ==> ks[m] > x
    requires j > 0 ==> ks[j - 1] <= x
    ensures Ascending(ks[..j] + [x] + ks[j..])
  {
    var r := ks[..j] + [x] + ks[j..];
    assert forall m :: 0 <= m < j ==> ks[m] < x by {
      if j > 0 { assert ks[j - 1] in ks; }
    }
    assert forall a :: 0 <= a < |r| ==> r[a] == if a < j then ks[a] else if a == j then x else ks[a - 1];
  }

  lemma {:induction false} InsertMembers(ks: seq<int>, j: nat, x: int)
    requires j <= |ks|
    ensures forall k :: k in ks[..j] + [x] + ks[j..] <==> k in ks || k == x
  {
    assert ks == ks[..j] + ks[j..];
    forall k ensures k in ks[..j] + [x] + ks[j..] <==> k in ks || k == x {
      assert k in ks <==> k in ks[..j] || k in ks[j..];
    }
  }

  lemma {:induction false} SortedLists(order: seq<int>, ks: seq<int>, s: set<int>)
    requires Lists(order, s) && forall k :: k in ks <==> k in order
    ensures Lists(ks, s)
  {}

  method AggregateTimeSeries(data: seq<Item>, start: Start) returns (result: seq<Bucket>)
    ensures Bucketing(data, start, result)
  {
    result := [];
    var groups, order := GroupByPeriod(data, start);
    var keys := SortKeys(order);
    SortedLists(order, keys, groups.Keys);
    for i := 0 to |keys|
      invariant Periods(result) == keys[..i]
      invariant forall j :: 0 <= j < i ==> BucketOk(data, start, result[j])
    {
      assert keys[i] in keys;
      var g := groups[keys[i]];
      assert GroupOk(data, start, keys[i], g);
      result := result + [Bucket(keys[i], g.sum, g.count, g.sum / (g.count as real), g.items)];
    }
    assert keys[..|keys|] == keys;
  }

  // ---- The specification determines the result ----

  lemma {:induction false} AscendingUnique(a: seq<int>, b: seq<int>, s: set<int>)
    requires Ascending(a) && Ascending(b) && Lists(a, s) && Lists(b, s)
    ensures a == b
  {
    if a == [] {
      if b != [] { FirstMember(b); }
    } else {
      assert a[0] in a;
      assert a[0] in b;
      assert b[0] in b;
      assert b[0] in a;
      assert a[0] == b[0];
      var t := s - {a[0]};
      assert Lists(a[1..], t) by { AscendingTail(a, s); }
      assert Lists(b[1..], t) by { AscendingTail(b, s); }
      AscendingUnique(a[1..], b[1..], t);
      assert a == [a[0]] + a[1..] && b == [b[0]] + b[1..];
    }
  }

  lemma {:induction false} FirstMember(b: seq<int>)
    requires b != []
    ensures b[0] in b
  {}

  lemma {:induction false} AscendingTail(a: seq<int>, s: set<int>)
    requires Ascending(a) && Lists(a, s) && a != []
    ensures Lists(a[1..], s - {a[0]})
  {
    forall k ensures k in a[1..] <==> k in s - {a[0]} {
      if k in a[1..] { assert k in a; }
      if k in s && k != a[0] { assert k in a; }
    }
  }

  lemma {:induction false} BucketingUnique(data: seq<Item>, start: Start, a: seq<Bucket>, b: seq<Bucket>)
    requires Bucketing(data, start, a) && Bucketing(data, start, b)
    ensures a == b
  {
    AscendingUnique(Periods(a), Periods(b), Keys(data, start));
    forall i | 0 <= i < |a| ensures a[i] == b[i] {
      assert Periods(a)[i] == Periods(b)[i];
      SameBucket(data, start, a[i], b[i]);
    }
  }

  lemma {:induction false} SameBucket(data: seq<Item>, start: Start, a: Bucket, b: Bucket)
    requires BucketOk(data, start, a) && BucketOk(data, start, b) && a.period == b.period
    ensures a == b
  {}

  // ---- Totals ----

  /** Sum of the values of the items whose period starts at `k`. */
  function SumIn(data: seq<Item>, start: Start, k: int): real {
    if data == [] then 0.0
    else
      var n := |data| - 1;
      SumIn(data[..n], start, k) + if start(data[n].time) == k then data[n].value else 0.0
  }

  lemma {:induction false} SumOfItemsIn(data: seq<Item>, start: Start, k: int)
    ensures Sum(ItemsIn(data, start, k)) == SumIn(data, start, k)
  {
    if data != [] {
      var n := |data| - 1;
      SumOfItemsIn(data[..n], start, k);
      SumSnoc(ItemsIn(data[..n], start, k), data[n]);
      assert ItemsIn(data[..n], start, k) + [] == ItemsIn(data[..n], start, k);
    }
  }

  /** A bucket read as a point: its period's start and its sum. */
  function Points(buckets: seq<Bucket>): (r: seq<Item>)
    ensures |r| == |buckets|
    ensures forall i :: 0 <= i < |r| ==> r[i] == Item(buckets[i].period, buckets[i].value)
  {
    seq(|buckets|, i requires 0 <= i < |buckets| => Item(buckets[i].period, buckets[i].value))
  }

  function Times(ps: seq<Item>): set<int> { set p | p in ps :: p.time }

  /** Sum of the items whose fine period is in `fine` and whose coarse period starts at `d`. */
  function SumWithin(data: seq<Item>, hour: Start, day: Start, fine: set<int>, d: int): real {
    if data == [] then 0.0
    else
      var n := |data| - 1;
      var h := hour(data[n].time);
      SumWithin(data[..n], hour, day, fine, d) + if h in fine && day(h) == d then data[n].value else 0.0
  }

  lemma {:induction false} SumWithinAdds(data: seq<Item>, hour: Start, day: Start, fine: set<int>, k: int, d: int)
    requires k !in fine
    ensures SumWithin(data, hour, day, fine + {k}, d) ==
            SumWithin(data, hour, day, fine, d) + if day(k) == d then SumIn(data, hour, k) else 0.0
  {
    if data != [] {
      var n := |data| - 1;
      SumWithinAdds(data[..n], hour, day, fine, k, d);
      assert hour(data[n].time) in fine + {k} <==> hour(data[n].time) in fine || hour(data[n].time) == k;
    }
  }

  lemma {:induction false} SumWithinNone(data: seq<Item>, hour: Start, day: Start, d: int)
    ensures SumWithin(data, hour, day, {}, d) == 0.0
  {
    if data != [] { SumWithinNone(data[..|data| - 1], hour, day, d); }
  }

  /** The points of distinct fine periods, summed by coarse period. */
  lemma {:induction false} PointsSum(data: seq<Item>, hour: Start, day: Start, ps: seq<Item>, d: int)
    requires forall i, j :: 0 <= i < j < |ps| ==> ps[i].time != ps[j].time
    requires forall i :: 0 <= i < |ps| ==> ps[i].value == SumIn(data, hour, ps[i].time)
    ensures SumIn(ps, day, d) == SumWithin(data, hour, day, Times(ps), d)
  {
    if ps == [] {
      assert Times(ps) == {};
      SumWithinNone(data, hour, day, d);
    } else {
      var n := |ps| - 1;
      var front := ps[..n];
      PointsSum(data, hour, day, front, d);
      var fine := Times(front);
      assert Times(ps) == fine + {ps[n].time} by {
        assert forall p :: p in ps <==> p in front || p == ps[n];
      }
      SumWithinAdds(data, hour, day, fine, ps[n].time, d);
    }
  }

  /** Fine periods nest in coarse ones. */
  ghost predicate Nested(hour: Start, day: Start) { forall t :: day(hour(t)) == day(t) }

  lemma {:induction false} SumWithinAll(data: seq<Item>, hour: Start, day: Start, fine: set<int>, d: int)
    requires Nested(hour, day) && Keys(data, hour) <= fine
    ensures SumWithin(data, hour, day, fine, d) == SumIn(data, day, d)
  {
    if data != [] {
      var n := |data| - 1;
      assert data[..n] + [data[n]] == data;
      KeysSnoc(data[..n], data[n], hour);
      SumWithinAll(data[..n], hour, day, fine, d);
      assert day(hour(data[n].time)) == day(data[n].time);
    }
  }

  lemma {:induction false} BucketPoints(data: seq<Item>, start: Start, buckets: seq<Bucket>)
    requires Bucketing(data, start, buckets)
    ensures var ps := Points(buckets);
            && (forall i, j :: 0 <= i < j < |ps| ==> ps[i].time != ps[j].time)
            && (forall i :: 0 <= i < |ps| ==> ps[i].value == SumIn(data, start, ps[i].time))
            && Times(ps) == Keys(data, start)
  {
    var ps, ks := Points(buckets), Periods(buckets);
    forall i, j | 0 <= i < j < |ps| ensures ps[i].time != ps[j].time { assert ks[i] < ks[j]; }
    forall i | 0 <= i < |ps| ensures ps[i].value == SumIn(data, start, ps[i].time) {
      assert BucketOk(data, start, buckets[i]);
      SumOfItemsIn(data, start, buckets[i].period);
    }
    assert Times(ps) == Keys(data, start) by {
      forall k ensures k in Times(ps) <==> k in Keys(data, start) {
        if k in Keys(data, start) {
          assert k in ks;
          var i :| 0 <= i < |ks| && ks[i] == k;
          assert ps[i] in ps;
        }
        if p :| p in ps && p.time == k {
          var i :| 0 <= i < |ps| && ps[i] == p;
          assert ks[i] in ks;
        }
      }
    }
  }

  lemma {:induction false} NestedKeys(data: seq<Item>, hour: Start, day: Start, ps: seq<Item>)
    requires Nested(hour, day) && Times(ps) == Keys(data, hour)
    ensures Keys(ps, day) == Keys(data, day)
  {
    forall d ensures d in Keys(ps, day) <==> d in Keys(data, day) {
      if d in Keys(ps, day) {
        var p :| p in ps && day(p.time) == d;
        assert p.time in Keys(data, hour);
        var x :| x in data && hour(x.time) == p.time;
      }
      if d in Keys(data, day) {
        var x :| x in data && day(x.time) == d;
        assert hour(x.time) in Times(ps);
        var p :| p in ps && p.time == hour(x.time);
      }
    }
  }

  /** Coarsening composes: aggregating by the fine period and its points by the coarse one
      gives the buckets and values of aggregating by the coarse period directly. */
  lemma {:induction false} CoarseningComposes(
    data: seq<Item>, hour: Start, day: Start, fine: seq<Bucket>, twice: seq<Bucket>, once: seq<Bucket>)
    requires Nested(hour, day)
    requires Bucketing(data, hour, fine) && Bucketing(Points(fine), day, twice) && Bucketing(data, day, once)
    ensures Points(twice) == Points(once)
  {
    var ps := Points(fine);
    BucketPoints(data, hour, fine);
    NestedKeys(data, hour, day, ps);
    AscendingUnique(Periods(twice), Periods(once), Keys(data, day));
    BucketPoints(ps, day, twice);
    BucketPoints(data, day, once);
    forall i | 0 <= i < |once| ensures Points(twice)[i] == Points(once)[i] {
      var d := Periods(once)[i];
      assert Periods(twice)[i] == d;
      assert Points(twice)[i].time == d && Points(once)[i].time == d;
      PointsSum(data, hour, day, ps, d);
      SumWithinAll(data, hour, day, Keys(data, hour), d);
    }
  }

  lemma {:induction false} SumAll(data: seq<Item>)
    ensures SumIn(data, _ => 0, 0) == Sum(data)
  {
    if data != [] { SumAll(data[..|data| - 1]); }
  }

  /** The bucket values add up to the values of the data. */
  lemma {:induction false} ValuesConserved(data: seq<Item>, start: Start, buckets: seq<Bucket>)
    requires Bucketing(data, start, buckets)
    ensures Sum(Points(buckets)) == Sum(data)
  {
    BucketPoints(data, start, buckets);
    PointsSum(data, start, _ => 0, Points(buckets), 0);
    SumWithinAll(data, start, _ => 0, Keys(data, start), 0);
    SumAll(data);
    SumAll(Points(buckets));
  }

  // ---- Order of the data does not matter ----

  lemma {:induction false} SumInConcat(a: seq<Item>, b: seq<Item>, start: Start, k: int)
    ensures SumIn(a + b, start, k) == SumIn(a, start, k) + SumIn(b, start, k)
  {
    if b == [] {
      assert a + b == a;
    } else {
      assert (a + b)[..|a + b| - 1] == a + b[..|b| - 1];
      SumInConcat(a, b[..|b| - 1], start, k);
    }
  }

  lemma {:induction false} SumInAround(front: seq<Item>, x: Item, back: seq<Item>, start: Start, k: int)
    ensures SumIn((front + [x]) + back, start, k) ==
            SumIn(front + back, start, k) + if start(x.time) == k then x.value else 0.0
  {
    SumInConcat(front, back, start, k);
    SumInConcat(front + [x], back, start, k);
    assert (front + [x])[..|front|] == front;
  }

  lemma {:induction false} SumInPermutes(a: seq<Item>, b: seq<Item>, start: Start, k: int)
    requires multiset(a) == multiset(b)
    ensures SumIn(a, start, k) == SumIn(b, start, k)
  {
    if a == [] {
      assert |multiset(b)| == 0;
    } else {
      var x, rest := a[|a| - 1], a[..|a| - 1];
      assert a == rest + [x];
      var front, back := RemoveOne(b, x);
      assert multiset(rest) == multiset(a) - multiset{x};
      SumInPermutes(rest, front + back, start, k);
      SumInAround(front, x, back, start, k);
    }
  }

  lemma {:induction false} KeysPermute(a: seq<Item>, b: seq<Item>, start: Start)
    requires multiset(a) == multiset(b)
    ensures Keys(a, start) == Keys(b, start)
  {
    SameMembers(a, b);
  }

  /** Any reordering of the data gives the same periods and values. */
  lemma {:induction false} AggregationPermutes(
    a: seq<Item>, b: seq<Item>, start: Start, ra: seq<Bucket>, rb: seq<Bucket>)
    requires multiset(a) == multiset(b) && Bucketing(a, start, ra) && Bucketing(b, start, rb)
    ensures Points(ra) == Points(rb)
  {
    KeysPermute(a, b, start);
    AscendingUnique(Periods(ra), Periods(rb), Keys(a, start));
    BucketPoints(a, start, ra);
    BucketPoints(b, start, rb);
    forall i | 0 <= i < |ra| ensures Points(ra)[i] == Points(rb)[i] {
      assert Periods(ra)[i] == Periods(rb)[i];
      SumInPermutes(a, b, start, Periods(ra)[i]);
    }
  }
}
