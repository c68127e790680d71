/** `TimeSeriesHelper.transformTransactionVolumeData`: from API rows keyed by `hour` to a line chart.
    A row's time is the instant its `hour` text denotes; its other fields are numbers. */
module TransactionVolume {
  import opened TimeSeries
  import opened Reordering

  datatype Row = Row(hour: int, fields: map<string, real>)

  datatype Period = Hour | Day | Week | Month

  /** Period starts in the viewer's calendar. */
  datatype Calendar = Calendar(hour: Start, day: Start, week: Start, month: Start)

  datatype ChartPoint = ChartPoint(period: int, count: real)

  const DAY_MS := 86400000

  function StartOf(cal: Calendar, p: Period): Start {
    match p
    case Hour => cal.hour
    case Day => cal.day
    case Week => cal.week
    case Month => cal.month
  }

  // ---- Field names ----

  function Upper(c: char): char { if 'a' <= c <= 'z' then ((c as int) - 32) as char else c }

  function Lower(c: char): char { if 'A' <= c <= 'Z' then ((c as int) + 32) as char else c }

  /** Each underscore before a lower-case letter goes, and the letter is raised. */
  function Camel(f: string): string {
    if f == "" then ""
    else if |f| > 1 && f[0] == '_' && 'a' <= f[1] <= 'z' then [Upper(f[1])] + Camel(f[2..])
    else [f[0]] + Camel(f[1..])
  }

  function Snake(f: string): string {
    if f == "" then ""
    else (if 'A' <= f[0] <= 'Z' then ['_', Lower(f[0])] else [f[0]]) + Snake(f[1..])
  }

  predicate HasUpper(f: string) { exists k :: 0 <= k < |f| && 'A' <= f[k] <= 'Z' }

  /** The field, under its own name or the other naming style; zero when absent. */
  function FieldValue(row: Row, f: string): real {
    if f in row.fields then row.fields[f]
    else if '_' in f && Camel(f) in row.fields then row.fields[Camel(f)]
    else if HasUpper(f) && Snake(f) in row.fields then row.fields[Snake(f)]
    else 0.0
  }

  /** Which field holds the count, judged by the first row. */
  function ValueField(first: Row, named: string): string {
    if "transaction_count" in first.fields then "transaction_count"
    else if "transactionCount" in first.fields then "transactionCount"
    else if "count" in first.fields then "count"
    else if "value" in first.fields then "value"
    else named
  }

  /** The aggregation period, from the number of rows and the span of their times. */
  function ChoosePeriod(n: nat, first: int, last: int): Period {
    if n > 100 then Month
    else if n > 50 then Week
    else if n > 1 then
      var days := (last - first) / DAY_MS;
      if days > 60 then Month else if days > 14 then Week else if days <= 2 then Hour else Day
    else Day
  }

  // ---- Sorting the rows ----

  /** Insertion behind every row that is not later: a stable sort. */
  function Insert(rows: seq<Row>, r: Row): seq<Row> {
    if rows == [] || rows[|rows| - 1].hour <= r.hour then rows + [r]
    else Insert(rows[..|rows| - 1], r) + [rows[|rows| - 1]]
  }

  function SortByHour(rows: seq<Row>): seq<Row> {
    if rows == [] then [] else Insert(SortByHour(rows[..|rows| - 1]), rows[|rows| - 1])
  }

  ghost predicate Sorted(rows: seq<Row>) {
    forall i, j :: 0 <= i < j < |rows| ==> rows[i].hour <= rows[j].hour
  }

  lemma {:induction false} InsertPermutes(rows: seq<Row>, r: Row)
    ensures multiset(Insert(rows, r)) == multiset(rows) + multiset{r} && |Insert(rows, r)| == |rows| + 1
  {
    if rows != [] && rows[|rows| - 1].hour > r.hour {
      InsertPermutes(rows[..|rows| - 1], r);
      assert rows == rows[..|rows| - 1] + [rows[|rows| - 1]];
    }
  }

  ghost predicate NoneAfter(rows: seq<Row>, hour: int) { forall k :: 0 <= k < |rows| ==> rows[k].hour <= hour }

  lemma {:induction false} SortedSnoc(rows: seq<Row>, r: Row)
    requires Sorted(rows) && NoneAfter(rows, r.hour)
    ensures Sorted(rows + [r])
  {}

  lemma {:induction false} InsertSorts(rows: seq<Row>, r: Row, hour: int)
    requires Sorted(rows) && NoneAfter(rows, hour) && r.hour <= hour
    ensures Sorted(Insert(rows, r)) && NoneAfter(Insert(rows, r), hour)
  {
    if rows != [] {
      var n := |rows| - 1;
      var last := rows[n];
      if last.hour <= r.hour {
        assert NoneAfter(rows, r.hour);
        SortedSnoc(rows, r);
      } else {
        assert NoneAfter(rows[..n], last.hour);
        InsertSorts(rows[..n], r, last.hour);
        SortedSnoc(Insert(rows[..n], r), last);
      }
    }
  }

  lemma {:induction false} SortPermutes(rows: seq<Row>)
    ensures multiset(SortByHour(rows)) == multiset(rows) && |SortByHour(rows)| == |rows|
  {
    if rows != [] {
      var front, r := rows[..|rows| - 1], rows[|rows| - 1];
      assert rows == front + [r];
      SortPermutes(front);
      InsertPermutes(SortByHour(front), r);
    }
  }

  lemma {:induction false} InsertKeepsSorted(rows: seq<Row>, r: Row)
    requires Sorted(rows)
    ensures Sorted(Insert(rows, r))
  {
    var hour := if rows == [] || rows[|rows| - 1].hour < r.hour then r.hour else rows[|rows| - 1].hour;
    InsertSorts(rows, r, hour);
  }

  lemma {:induction false} SortByHourSorts(rows: seq<Row>)
    ensures Sorted(SortByHour(rows)) && multiset(SortByHour(rows)) == multiset(rows) && |SortByHour(rows)| == |rows|
  {
    SortPermutes(rows);
    if rows != [] {
      SortByHourSorts(rows[..|rows| - 1]);
      InsertKeepsSorted(SortByHour(rows[..|rows| - 1]), rows[|rows| - 1]);
    }
  }

  // ---- The chart ----

  function ToItems(rows: seq<Row>, f: string): (r: seq<Item>)
    ensures |r| == |rows|
    ensures forall i :: 0 <= i < |r| ==> r[i] == Item(rows[i].hour, FieldValue(rows[i], f))
  {
    seq(|rows|, i requires 0 <= i < |rows| => Item(rows[i].hour, FieldValue(rows[i], f)))
  }

  function ToChart(buckets: seq<Bucket>): (r: seq<ChartPoint>)
    ensures |r| == |buckets|
    ensures forall i :: 0 <= i < |r| ==> r[i] == ChartPoint(buckets[i].period, buckets[i].value)
  {
    seq(|buckets|, i requires 0 <= i < |buckets| => ChartPoint(buckets[i].period, buckets[i].value))
  }

  /** The points of the sorted rows, and the period they are grouped by. */
  function ChartItems(rows: seq<Row>, named: string): seq<Item>
    requires rows != []
  {
    SortByHourSorts(rows);
    var sorted := SortByHour(rows);
    ToItems(sorted, ValueField(sorted[0], named))
  }

  function ChartPeriod(rows: seq<Row>): Period
    requires rows != []
  {
    SortByHourSorts(rows);
    var sorted := SortByHour(rows);
    ChoosePeriod(|sorted|, sorted[0].hour, sorted[|sorted| - 1].hour)
  }

  ghost predicate IsChart(cal: Calendar, rows: seq<Row>, named: string, chart: seq<ChartPoint>) {
    if rows == [] then chart == []
    else exists buckets ::
      Bucketing(ChartItems(rows, named), StartOf(cal, ChartPeriod(rows)), buckets) && chart == ToChart(buckets)
  }

  method TransformTransactionVolumeData(cal: Calendar, rows: seq<Row>, named: string) returns (chart: seq<ChartPoint>)
    ensures IsChart(cal, rows, named, chart)
  {
    if rows == [] { return []; }
    SortByHourSorts(rows);
    var sorted := SortByHour(rows);
    var valueField := ValueField(sorted[0], named);
    var period := Day;
    if |sorted| > 1 {
      var days := (sorted[|sorted| - 1].hour - sorted[0].hour) / DAY_MS;
      if days > 60 {
        period := Month;
      } else if days > 14 {
        period := Week;
      } else if days <= 2 {
        period := Hour;
      }
    }
    if |sorted| > 100 {
      period := Month;
    } else if |sorted| > 50 {
      period := Week;
    }
    var buckets := AggregateTimeSeries(ToItems(sorted, valueField), StartOf(cal, period));
    chart := ToChart(buckets);
  }

  // ---- Reordering the rows ----

  /** All rows carry the same fields. */
  ghost predicate Uniform(rows: seq<Row>) {
    forall a, b :: a in rows && b in rows ==> a.fields.Keys == b.fields.Keys
  }

  /** Sorted rows with the same members begin and end at the same hour. */
  lemma {:induction false} SameEnds(a: seq<Row>, b: seq<Row>)
    requires Sorted(a) && Sorted(b) && a != [] && multiset(a) == multiset(b)
    ensures |a| == |b| && a[0].hour == b[0].hour && a[|a| - 1].hour == b[|b| - 1].hour
  {
    SameMembers(a, b);
    assert a[0] in b && b[0] in a && a[|a| - 1] in b && b[|b| - 1] in a;
  }

  lemma {:induction false} UniformField(a: Row, b: Row, named: string)
    requires a.fields.Keys == b.fields.Keys
    ensures ValueField(a, named) == ValueField(b, named)
  {
    assert forall f :: f in a.fields <==> f in b.fields;
  }

  lemma {:induction false} ToItemsSnoc(rows: seq<Row>, r: Row, f: string)
    ensures ToItems(rows + [r], f) == ToItems(rows, f) + [Item(r.hour, FieldValue(r, f))]
  {}

  lemma {:induction false} ToItemsConcat(a: seq<Row>, b: seq<Row>, f: string)
    ensures ToItems(a + b, f) == ToItems(a, f) + ToItems(b, f)
  {}

  lemma {:induction false} ToItemsAround(front: seq<Row>, x: Row, back: seq<Row>, f: string)
    ensures multiset(ToItems((front + [x]) + back, f)) ==
            multiset(ToItems(front + back, f)) + multiset{Item(x.hour, FieldValue(x, f))}
  {
    ToItemsConcat(front, back, f);
    ToItemsConcat(front + [x], back, f);
    ToItemsSnoc(front, x, f);
  }

  lemma {:induction false} ToItemsPermutes(a: seq<Row>, b: seq<Row>, f: string)
    requires multiset(a) == multiset(b)
    ensures multiset(ToItems(a, f)) == multiset(ToItems(b, f))
  {
    if a == [] {
      assert |multiset(b)| == 0;
    } else {
      var x, rest := a[|a| - 1], a[..|a| - 1];
      assert a == rest + [x];
      var front, back := RemoveOne(b, x);
      assert multiset(rest) == multiset(a) - multiset{x};
      ToItemsPermutes(rest, front + back, f);
      ToItemsSnoc(rest, x, f);
      ToItemsAround(front, x, back, f);
    }
  }

  /** Reorderings of uniform rows name the same count field. */
  lemma {:induction false} HeadsAgree(a: seq<Row>, sa: seq<Row>, sb: seq<Row>, named: string)
    requires sa != [] && sb != [] && multiset(sa) == multiset(a) == multiset(sb) && Uniform(a)
    ensures ValueField(sa[0], named) == ValueField(sb[0], named)
  {
    SameMembers(a, sa);
    SameMembers(a, sb);
    assert sa[0] in a && sb[0] in a;
    UniformField(sa[0], sb[0], named);
  }

  /** For uniform rows, any reordering groups the same items by the same period. */
  lemma {:induction false} ReorderedInputs(a: seq<Row>, b: seq<Row>, named: string)
    requires a != [] && multiset(a) == multiset(b) && Uniform(a)
    ensures b != [] && ChartPeriod(a) == ChartPeriod(b)
    ensures multiset(ChartItems(a, named)) == multiset(ChartItems(b, named))
  {
    SameMembers(a, b);
    SortByHourSorts(a);
    SortByHourSorts(b);
    var sa, sb := SortByHour(a), SortByHour(b);
    SameEnds(sa, sb);
    HeadsAgree(a, sa, sb, named);
    ToItemsPermutes(sa, sb, ValueField(sa[0], named));
  }

  /** Any reordering of uniform rows gives the same chart. */
  lemma {:induction false} ChartPermutes(
    cal: Calendar, a: seq<Row>, b: seq<Row>, named: string, ca: seq<ChartPoint>, cb: seq<ChartPoint>)
    requires multiset(a) == multiset(b) && Uniform(a)
    requires IsChart(cal, a, named, ca) && IsChart(cal, b, named, cb)
    ensures ca == cb
  {
    SameMembers(a, b);
    if a != [] {
      ReorderedInputs(a, b, named);
      var start := StartOf(cal, ChartPeriod(a));
      var ba :| Bucketing(ChartItems(a, named), start, ba) && ca == ToChart(ba);
      var bb :| Bucketing(ChartItems(b, named), start, bb) && cb == ToChart(bb);
      AggregationPermutes(ChartItems(a, named), ChartItems(b, named), start, ba, bb);
      forall i | 0 <= i < |ca| ensures ca[i] == cb[i] { assert Points(ba)[i] == Points(bb)[i]; }
    }
  }

  // ---- The counts add up ----

  function Total(rows: seq<Row>, f: string): real { Sum(ToItems(rows, f)) }

  function ChartTotal(chart: seq<ChartPoint>): real {
    if chart == [] then 0.0 else ChartTotal(chart[..|chart| - 1]) + chart[|chart| - 1].count
  }

  lemma {:induction false} ChartTotalIsSum(buckets: seq<Bucket>)
    ensures ChartTotal(ToChart(buckets)) == Sum(Points(buckets))
  {
    if buckets != [] {
      var n := |buckets| - 1;
      ChartTotalIsSum(buckets[..n]);
      assert ToChart(buckets)[..n] == ToChart(buckets[..n]) && Points(buckets)[..n] == Points(buckets[..n]);
    }
  }

  lemma {:induction false} SumPermutes(a: seq<Item>, b: seq<Item>)
    requires multiset(a) == multiset(b)
    ensures Sum(a) == Sum(b)
  {
    SumInPermutes(a, b, _ => 0, 0);
    SumAll(a);
    SumAll(b);
  }

  /** Row `i` is the earliest, and the first of those in the input. */
  ghost predicate Earliest(rows: seq<Row>, i: nat) {
    && i < |rows|
    && (forall j :: 0 <= j < |rows| ==> rows[i].hour <= rows[j].hour)
    && (forall j :: 0 <= j < i ==> rows[i].hour < rows[j].hour)
  }

  lemma {:induction false} InsertHead(rows: seq<Row>, r: Row)
    requires Sorted(rows)
    ensures Insert(rows, r) != []
    ensures Insert(rows, r)[0] == if rows != [] && rows[0].hour <= r.hour then rows[0] else r
  {
    if rows != [] && rows[|rows| - 1].hour > r.hour { InsertHead(rows[..|rows| - 1], r); }
  }

  lemma {:induction false} HeadIsLater(rows: seq<Row>, sorted: seq<Row>, hour: int)
    requires multiset(rows) == multiset(sorted) && sorted != [] && forall j :: 0 <= j < |rows| ==> hour < rows[j].hour
    ensures hour < sorted[0].hour
  {
    SameMembers(rows, sorted);
    assert sorted[0] in rows;
  }

  /** A row earlier than all others sorts before them. */
  lemma {:induction false} LastSortsFirst(front: seq<Row>, r: Row)
    requires forall j :: 0 <= j < |front| ==> r.hour < front[j].hour
    ensures Insert(SortByHour(front), r) != [] && Insert(SortByHour(front), r)[0] == r
  {
    var sorted := SortByHour(front);
    SortByHourSorts(front);
    InsertHead(sorted, r);
    if sorted != [] { HeadIsLater(front, sorted, r.hour); }
  }

  /** The stable sort puts it first. */
  lemma {:induction false} EarliestSortsFirst(rows: seq<Row>, i: nat)
    requires Earliest(rows, i)
    ensures SortByHour(rows) != [] && SortByHour(rows)[0] == rows[i]
  {
    var n := |rows| - 1;
    if i < n {
      EarliestSortsFirst(rows[..n], i);
      SortByHourSorts(rows[..n]);
      InsertHead(SortByHour(rows[..n]), rows[n]);
    } else {
      LastSortsFirst(rows[..n], rows[n]);
    }
  }

  lemma {:induction false} ChartTotalOfItems(cal: Calendar, rows: seq<Row>, named: string, chart: seq<ChartPoint>)
    requires rows != [] && IsChart(cal, rows, named, chart)
    ensures ChartTotal(chart) == Sum(ChartItems(rows, named))
  {
    var start := StartOf(cal, ChartPeriod(rows));
    var buckets :| Bucketing(ChartItems(rows, named), start, buckets) && chart == ToChart(buckets);
    ValuesConserved(ChartItems(rows, named), start, buckets);
    ChartTotalIsSum(buckets);
  }

  /** Whichever period is chosen, the chart's counts add up to the count field over all rows; the earliest row
      says which field that is, and for uniform rows any row does. */
  lemma {:induction false} ChartConservesTotal(
    cal: Calendar, rows: seq<Row>, named: string, chart: seq<ChartPoint>, i: nat)
    requires Earliest(rows, i) && IsChart(cal, rows, named, chart)
    ensures ChartTotal(chart) == Total(rows, ValueField(rows[i], named))
    ensures Uniform(rows) ==> forall r :: r in rows ==> ChartTotal(chart) == Total(rows, ValueField(r, named))
  {
    var sorted, f := SortByHour(rows), ValueField(rows[i], named);
    ChartTotalOfItems(cal, rows, named, chart);
    EarliestSortsFirst(rows, i);
    SortByHourSorts(rows);
    ToItemsPermutes(sorted, rows, f);
    SumPermutes(ToItems(sorted, f), ToItems(rows, f));
    if Uniform(rows) {
      forall r | r in rows ensures ValueField(r, named) == f { UniformField(r, rows[i], named); }
    }
  }

  // ---- The chart, read off the rows ----

  /** The field that holds the count, by name. */
  ghost predicate CountField(first: Row, named: string, f: string) {
    var has := first.fields.Keys;
    || ("transaction_count" in has && f == "transaction_count")
    || ("transaction_count" !in has && "transactionCount" in has && f == "transactionCount")
    || ({"transaction_count", "transactionCount"} !! has && "count" in has && f == "count")
    || ({"transaction_count", "transactionCount", "count"} !! has && "value" in has && f == "value")
    || ({"transaction_count", "transactionCount", "count", "value"} !! has && f == named)
  }

  /** The calendar function that groups `n` rows from time `first` to time `last`. */
  ghost predicate GroupsBy(cal: Calendar, n: nat, first: int, last: int, start: Start) {
    var days := (last - first) / 86400000;
    && (n > 100 ==> start == cal.month)
    && (50 < n <= 100 ==> start == cal.week)
    && (1 < n <= 50 && days > 60 ==> start == cal.month)
    && (1 < n <= 50 && 14 < days <= 60 ==> start == cal.week)
    && (1 < n <= 50 && 2 < days <= 14 ==> start == cal.day)
    && (1 < n <= 50 && days <= 2 ==> start == cal.hour)
    && (n == 1 ==> start == cal.day)
  }

  ghost predicate AllCarry(rows: seq<Row>, f: string) { forall r :: r in rows ==> f in r.fields }

  /** What the field adds up to over the rows of one period. */
  ghost function SumWhere(rows: seq<Row>, f: string, start: Start, k: int): real
    requires AllCarry(rows, f)
  {
    if rows == [] then 0.0
    else
      var n := |rows| - 1;
      assert rows[n] in rows && forall r :: r in rows[..n] ==> r in rows;
      SumWhere(rows[..n], f, start, k) + if start(rows[n].hour) == k then rows[n].fields[f] else 0.0
  }

  ghost predicate Latest(rows: seq<Row>, j: nat) {
    j < |rows| && forall k :: 0 <= k < |rows| ==> rows[k].hour <= rows[j].hour
  }

  lemma {:induction false} LatestSortsLast(rows: seq<Row>, j: nat)
    requires Latest(rows, j)
    ensures var sorted := SortByHour(rows); sorted != [] && sorted[|sorted| - 1].hour == rows[j].hour
  {
    var sorted := SortByHour(rows);
    SortByHourSorts(rows);
    SameMembers(rows, sorted);
    LastIsLatest(rows, sorted, j);
  }

  lemma {:induction false} LastIsLatest(rows: seq<Row>, sorted: seq<Row>, j: nat)
    requires Latest(rows, j) && Sorted(sorted) && sorted != [] && forall r :: r in rows <==> r in sorted
    ensures sorted[|sorted| - 1].hour == rows[j].hour
  {
    assert rows[j] in sorted && sorted[|sorted| - 1] in rows;
  }

  lemma {:induction false} ValueFieldIs(first: Row, named: string, f: string)
    requires CountField(first, named, f)
    ensures ValueField(first, named) == f
  {}

  lemma {:induction false} PeriodIs(cal: Calendar, rows: seq<Row>, i: nat, j: nat, start: Start)
    requires Earliest(rows, i) && Latest(rows, j) && GroupsBy(cal, |rows|, rows[i].hour, rows[j].hour, start)
    ensures StartOf(cal, ChartPeriod(rows)) == start
  {
    EarliestSortsFirst(rows, i);
    LatestSortsLast(rows, j);
    SortByHourSorts(rows);
  }

  lemma {:induction false} SumWhereIs(rows: seq<Row>, f: string, start: Start, k: int)
    requires AllCarry(rows, f)
    ensures SumIn(ToItems(rows, f), start, k) == SumWhere(rows, f, start, k)
  {
    if rows != [] {
      var n := |rows| - 1;
      assert rows[n] in rows && forall r :: r in rows[..n] ==> r in rows;
      SumWhereIs(rows[..n], f, start, k);
      assert ToItems(rows, f)[..n] == ToItems(rows[..n], f);
    }
  }

  lemma {:induction false} KeysAre(rows: seq<Row>, f: string, start: Start, k: int)
    ensures k in Keys(ToItems(rows, f), start) <==> HasRow(rows, start, k)
  {
    var items := ToItems(rows, f);
    if r :| r in rows && start(r.hour) == k {
      var i :| 0 <= i < |rows| && rows[i] == r;
      assert items[i] in items;
    }
    if x :| x in items && start(x.time) == k {
      var i :| 0 <= i < |items| && items[i] == x;
      assert rows[i] in rows;
    }
  }

  ghost predicate HasRow(rows: seq<Row>, start: Start, k: int) { exists r :: r in rows && start(r.hour) == k }

  ghost predicate HasPoint(chart: seq<ChartPoint>, k: int) { exists p :: p in chart && p.period == k }

  /** The chart of the rows: one point for each period in which a row falls, in ascending order,
      with the sum of the count field over the rows of that period. */
  ghost predicate Charts(rows: seq<Row>, f: string, start: Start, chart: seq<ChartPoint>)
    requires AllCarry(rows, f)
  {
    && (forall a, b :: 0 <= a < b < |chart| ==> chart[a].period < chart[b].period)
    && (forall k :: HasPoint(chart, k) <==> HasRow(rows, start, k))
    && (forall a :: 0 <= a < |chart| ==> chart[a].count == SumWhere(rows, f, start, chart[a].period))
  }

  lemma {:induction false} BucketCounts(
    rows: seq<Row>, sorted: seq<Row>, f: string, start: Start, buckets: seq<Bucket>, a: nat)
    requires AllCarry(rows, f) && multiset(sorted) == multiset(rows) && a < |buckets|
    requires Bucketing(ToItems(sorted, f), start, buckets)
    ensures buckets[a].value == SumWhere(rows, f, start, buckets[a].period)
  {
    var items, k := ToItems(sorted, f), buckets[a].period;
    BucketPoints(items, start, buckets);
    assert Points(buckets)[a].value == SumIn(items, start, k);
    ToItemsPermutes(sorted, rows, f);
    SumInPermutes(items, ToItems(rows, f), start, k);
    SumWhereIs(rows, f, start, k);
  }

  lemma {:induction false} BucketPeriods(rows: seq<Row>, sorted: seq<Row>, f: string, start: Start,
                                         buckets: seq<Bucket>, k: int)
    requires multiset(sorted) == multiset(rows) && Bucketing(ToItems(sorted, f), start, buckets)
    ensures HasPoint(ToChart(buckets), k) <==> HasRow(rows, start, k)
  {
    SameMembers(rows, sorted);
    PeriodsListed(buckets, k);
    KeysAre(sorted, f, start, k);
    assert HasRow(sorted, start, k) <==> HasRow(rows, start, k);
  }

  lemma {:induction false} BucketsChart(rows: seq<Row>, sorted: seq<Row>, f: string, start: Start, buckets: seq<Bucket>)
    requires AllCarry(rows, f) && multiset(sorted) == multiset(rows)
    requires Bucketing(ToItems(sorted, f), start, buckets)
    ensures Charts(rows, f, start, ToChart(buckets))
  {
    var chart := ToChart(buckets);
    forall a, b | 0 <= a < b < |chart| ensures chart[a].period < chart[b].period {
      assert Periods(buckets)[a] < Periods(buckets)[b];
    }
    forall a | 0 <= a < |chart| ensures chart[a].count == SumWhere(rows, f, start, chart[a].period) {
      BucketCounts(rows, sorted, f, start, buckets, a);
    }
    forall k ensures HasPoint(chart, k) <==> HasRow(rows, start, k) {
      BucketPeriods(rows, sorted, f, start, buckets, k);
    }
  }

  lemma {:induction false} PeriodsListed(buckets: seq<Bucket>, k: int)
    ensures k in Periods(buckets) <==> HasPoint(ToChart(buckets), k)
  {
    var chart := ToChart(buckets);
    if k in Periods(buckets) {
      var i :| 0 <= i < |buckets| && Periods(buckets)[i] == k;
      assert chart[i] in chart;
    }
    if p :| p in chart && p.period == k {
      var i :| 0 <= i < |chart| && chart[i] == p;
      assert Periods(buckets)[i] == k;
    }
  }

  /** The chart in terms of the rows alone: the earliest row names the count field, the number of rows and their span
      choose the calendar function, and every point is the sum of that field over the rows of its period. */
  lemma {:induction false} ChartOfRows(cal: Calendar, rows: seq<Row>, named: string, chart: seq<ChartPoint>,
                                       i: nat, j: nat, f: string, start: Start)
    requires IsChart(cal, rows, named, chart) && Earliest(rows, i) && Latest(rows, j)
    requires CountField(rows[i], named, f) && AllCarry(rows, f)
    requires GroupsBy(cal, |rows|, rows[i].hour, rows[j].hour, start)
    ensures Charts(rows, f, start, chart)
  {
    EarliestSortsFirst(rows, i);
    SortByHourSorts(rows);
    ValueFieldIs(rows[i], named, f);
    PeriodIs(cal, rows, i, j, start);
    var buckets :| Bucketing(ChartItems(rows, named), start, buckets) && chart == ToChart(buckets);
    BucketsChart(rows, SortByHour(rows), f, start, buckets);
  }

  /** So the counts add up to the sum of that field over all rows. */
  lemma {:induction false} ChartAddsUp(cal: Calendar, rows: seq<Row>, named: string, chart: seq<ChartPoint>,
                                       i: nat, f: string)
    requires IsChart(cal, rows, named, chart) && Earliest(rows, i)
    requires CountField(rows[i], named, f) && AllCarry(rows, f)
    ensures ChartTotal(chart) == SumWhere(rows, f, _ => 0, 0)
  {
    ValueFieldIs(rows[i], named, f);
    ChartConservesTotal(cal, rows, named, chart, i);
    SumWhereIs(rows, f, _ => 0, 0);
    SumAll(ToItems(rows, f));
  }

  // ---- Field names in either style ----

  /** Lower-case letters and other characters, every underscore before a lower-case letter. */
  ghost predicate SnakeName(f: string) {
    f == "" || (!('A' <= f[0] <= 'Z') && (f[0] == '_' ==> |f| > 1 && 'a' <= f[1] <= 'z') && SnakeName(f[1..]))
  }

  lemma CaseChanges(c: char)
    ensures 'a' <= c <= 'z' ==> 'A' <= Upper(c) <= 'Z' && Lower(Upper(c)) == c
  {}

  /** Turning a snake_case name into camelCase and back gives the name again. */
  lemma {:induction false} SnakeUndoesCamel(f: string)
    requires SnakeName(f)
    ensures Snake(Camel(f)) == f
    decreases |f|
  {
    if f == "" {
    } else if f[0] == '_' {
      var rest := Camel(f[2..]);
      assert f[1..][1..] == f[2..];
      CaseChanges(f[1]);
      SnakeUndoesCamel(f[2..]);
      assert ([Upper(f[1])] + rest)[1..] == rest;
      assert f == ['_', f[1]] + f[2..];
    } else {
      SnakeUndoesCamel(f[1..]);
      assert ([f[0]] + Camel(f[1..]))[1..] == Camel(f[1..]);
      assert f == [f[0]] + f[1..];
    }
  }

  /** A row without the field under its own name answers with the other style, and else with zero. */
  lemma {:induction false} FieldInOtherStyle(row: Row, f: string)
    requires f !in row.fields && SnakeName(f) && '_' in f
    ensures FieldValue(row, f) == if Camel(f) in row.fields then row.fields[Camel(f)] else 0.0
    ensures f !in row.fields && Camel(f) !in row.fields ==> FieldValue(row, f) == 0.0
  {
    NoUpper(f);
  }

  lemma {:induction false} NoUpper(f: string)
    requires SnakeName(f)
    ensures !HasUpper(f)
  {
    if f != "" {
      NoUpper(f[1..]);
      forall k | 0 <= k < |f| ensures !('A' <= f[k] <= 'Z') { if k > 0 { assert f[k] == f[1..][k - 1]; } }
    }
  }

  /** And a camelCase name is found under its snake_case form. */
  lemma {:induction false} CamelFoundAsSnake(row: Row, f: string)
    requires f !in row.fields && '_' !in f && Snake(f) in row.fields && exists k :: 0 <= k < |f| && 'A' <= f[k] <= 'Z'
    ensures FieldValue(row, f) == row.fields[Snake(f)]
  {}

  // ---- A calendar in which periods nest ----

  function UtcHour(t: int): int { t - t % 3600000 }

  function UtcDay(t: int): int { t - t % DAY_MS }

  /** Weeks start on Sunday; the epoch is a Thursday. */
  function UtcWeek(t: int): int { t - (t + 4 * DAY_MS) % (7 * DAY_MS) }

  function MonthLength(year: int, month: int): (days: int)
    ensures 28 <= days <= 31
  {
    if month == 2 then (if year % 4 == 0 && (year % 100 != 0 || year % 400 == 0) then 29 else 28)
    else if month in {4, 6, 9, 11} then 30
    else 31
  }

  /** The first day of the month of `day`, counted from a month that begins on day `first`. */
  function FirstOfMonth(day: int, first: int, year: int, month: int): (r: int)
    ensures r <= day < r + 31
    decreases day < first, if day < first then first - day else day - first
  {
    if day < first then
      var (y, m) := if month == 1 then (year - 1, 12) else (year, month - 1);
      FirstOfMonth(day, first - MonthLength(y, m), y, m)
    else if day >= first + MonthLength(year, month) then
      var (y, m) := if month == 12 then (year + 1, 1) else (year, month + 1);
      FirstOfMonth(day, first + MonthLength(year, month), y, m)
    else first
  }

  /** The epoch is the first of January 1970. */
  function UtcMonth(t: int): int { DAY_MS * FirstOfMonth(t / DAY_MS, 0, 1970, 1) }

  /** Hours and days are counted from the epoch, weeks from Sunday, 4 January 1970. */
  lemma UtcStarts(t: int)
    ensures UtcHour(t) == 3600000 * (t / 3600000) && UtcDay(t) == 86400000 * (t / 86400000)
    ensures UtcWeek(t) == 259200000 + 604800000 * ((t - 259200000) / 604800000)
  {
    var m := (t + 345600000) / 604800000;
    assert (t - 259200000) / 604800000 == m - 1;
  }

  lemma UtcHourAt(t: int)
    ensures UtcHour(t) == 3600000 * (t / 3600000) && UtcHour(t) / 3600000 == t / 3600000
  {}

  lemma UtcDayAt(t: int)
    ensures UtcDay(t) == DAY_MS * (t / 3600000 / 24) && t / DAY_MS == t / 3600000 / 24
  {}

  /** Weeks count hours from the Sunday before the epoch. */
  lemma UtcWeekAt(t: int)
    ensures UtcWeek(t) == 7 * DAY_MS * ((t / 3600000 + 96) / 168) - 4 * DAY_MS
  {
    var h := t / 3600000 + 96;
    assert t + 4 * DAY_MS == 3600000 * h + t % 3600000;
    assert (t + 4 * DAY_MS) / (7 * DAY_MS) == h / 168;
  }

  /** In universal time hours nest in days, weeks and months. */
  lemma UtcNests()
    ensures Nested(UtcHour, UtcDay) && Nested(UtcHour, UtcWeek) && Nested(UtcHour, UtcMonth)
  {
    forall t ensures UtcDay(UtcHour(t)) == UtcDay(t) && UtcWeek(UtcHour(t)) == UtcWeek(t) &&
                     UtcMonth(UtcHour(t)) == UtcMonth(t)
    {
      UtcHourAt(t);
      UtcDayAt(t);
      UtcDayAt(UtcHour(t));
      UtcWeekAt(t);
      UtcWeekAt(UtcHour(t));
    }
  }
}
