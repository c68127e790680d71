/** `GetInventoryReport`: filter the levels, list them and total them. */
module InventoryReport {
  datatype LevelRow = LevelRow(item: int, quantity: int, reserved: int, available: int)

  datatype ItemInfo = ItemInfo(sku: string, name: string, category: string)

  /** Items the item repository finds; a failed lookup leaves the level out. */
  type Items = map<int, ItemInfo>

  datatype ReportRow = ReportRow(level: LevelRow, info: ItemInfo, isLowStock: bool)

  datatype Summary = Summary(items: nat, quantity: int, reserved: int, available: int, lowStock: nat, outOfStock: nat)

  datatype Report = Report(rows: seq<ReportRow>, summary: Summary)

  const LOW_STOCK := 10

  // ---- Specification: one combined filter ----

  datatype StockTest = AnyStock | Low | Out

  /** A filter on levels: the item is known, it is of a category ("" for any), its stock passes a test. */
  datatype Test = Test(known: bool, category: string, stock: StockTest)

  predicate Passes(items: Items, t: Test, l: LevelRow) {
    && (t.known || t.category != "" ==> l.item in items)
    && (t.category != "" ==> items[l.item].category == t.category)
    && (t.stock == Low ==> l.available < LOW_STOCK)
    && (t.stock == Out ==> l.available == 0)
  }

  function Filter(items: Items, levels: seq<LevelRow>, t: Test): seq<LevelRow> {
    if levels == [] then []
    else
      var n := |levels| - 1;
      Filter(items, levels[..n], t) + if Passes(items, t, levels[n]) then [levels[n]] else []
  }

  /** The levels of known items of the category. */
  function Seen(items: Items, levels: seq<LevelRow>, category: string): seq<LevelRow> {
    Filter(items, levels, Test(true, category, AnyStock))
  }

  function Quantity(levels: seq<LevelRow>): int {
    if levels == [] then 0 else Quantity(levels[..|levels| - 1]) + levels[|levels| - 1].quantity
  }

  function Reserved(levels: seq<LevelRow>): int {
    if levels == [] then 0 else Reserved(levels[..|levels| - 1]) + levels[|levels| - 1].reserved
  }

  function Available(levels: seq<LevelRow>): int {
    if levels == [] then 0 else Available(levels[..|levels| - 1]) + levels[|levels| - 1].available
  }

  ghost predicate RowOk(items: Items, r: ReportRow) {
    r.level.item in items && r.info == items[r.level.item] && (r.isLowStock <==> r.level.available < 10)
  }

  /** The levels that pass a test, in order. */
  function Select(levels: seq<LevelRow>, keep: LevelRow -> bool): seq<LevelRow> {
    if levels == [] then []
    else
      var n := |levels| - 1;
      Select(levels[..n], keep) + if keep(levels[n]) then [levels[n]] else []
  }

  lemma {:induction false} FilterSelects(items: Items, levels: seq<LevelRow>, t: Test, keep: LevelRow -> bool)
    requires forall l :: Passes(items, t, l) <==> keep(l)
    ensures Filter(items, levels, t) == Select(levels, keep)
  {
    if levels != [] { FilterSelects(items, levels[..|levels| - 1], t, keep); }
  }

  /** The item of the level is known and of the category, or of any when none is given. */
  predicate OfCategory(items: Items, category: string, l: LevelRow) {
    l.item in items && (category == "" || items[l.item].category == category)
  }

  // ---- The program ----

  method FilterByCategory(levels: seq<LevelRow>, items: Items, category: string) returns (kept: seq<LevelRow>)
    ensures kept == Filter(items, levels, Test(false, category, AnyStock))
  {
    kept := [];
    if category == "" {
      KeepAll(items, levels);
      return levels;
    }
    for i := 0 to |levels|
      invariant kept == Filter(items, levels[..i], Test(false, category, AnyStock))
    {
      assert levels[..i + 1][..i] == levels[..i];
      if levels[i].item in items && items[levels[i].item].category == category {
        kept := kept + [levels[i]];
      }
    }
    assert levels[..|levels|] == levels;
  }

  lemma {:induction false} KeepAll(items: Items, levels: seq<LevelRow>)
    ensures Filter(items, levels, Test(false, "", AnyStock)) == levels
  {
    if levels != [] { KeepAll(items, levels[..|levels| - 1]); }
  }

  /** What every level has available is its quantity less what is reserved. */
  ghost predicate Balanced(levels: seq<LevelRow>) {
    forall l :: l in levels ==> l.available == l.quantity - l.reserved
  }

  /** The rows show `shown`, and the totals of `s` are theirs. */
  ghost predicate Shows(items: Items, rows: seq<ReportRow>, shown: seq<LevelRow>, s: Summary) {
    && |rows| == |shown| == s.items && (forall i :: RowAt(items, rows, shown, i))
    && s.quantity == Quantity(shown) && s.reserved == Reserved(shown) && s.available == Available(shown)
  }

  ghost predicate RowAt(items: Items, rows: seq<ReportRow>, shown: seq<LevelRow>, i: int) {
    0 <= i < |rows| && i < |shown| ==> rows[i].level == shown[i] && RowOk(items, rows[i])
  }

  /** What one level does to the running rows and totals. */
  function AddRow(items: Items, report: Report, l: LevelRow): Report
    requires l.item in items
  {
    var s := report.summary;
    Report(report.rows + [ReportRow(l, items[l.item], l.available < LOW_STOCK)],
           s.(items := s.items + 1, quantity := s.quantity + l.quantity,
              reserved := s.reserved + l.reserved, available := s.available + l.available))
  }

  lemma {:induction false} AddRowShows(items: Items, report: Report, shown: seq<LevelRow>, l: LevelRow)
    requires Shows(items, report.rows, shown, report.summary) && l.item in items
    ensures var r := AddRow(items, report, l); Shows(items, r.rows, shown + [l], r.summary)
  {
    var r := AddRow(items, report, l);
    assert (shown + [l])[..|shown|] == shown;
    forall i ensures RowAt(items, r.rows, shown + [l], i) { assert RowAt(items, report.rows, shown, i); }
  }

  method BuildRows(kept: seq<LevelRow>, items: Items, stock: StockTest) returns (report: Report)
    requires stock != Out
    ensures Shows(items, report.rows, Filter(items, kept, Test(true, "", stock)), report.summary)
    ensures report.summary.lowStock == |Filter(items, kept, Test(true, "", Low))|
    ensures report.summary.outOfStock == |Filter(items, kept, Test(true, "", Out))|
  {
    report := Report([], Summary(0, 0, 0, 0, 0, 0));
    var low, out := 0, 0;
    for i := 0 to |kept|
      invariant Shows(items, report.rows, Filter(items, kept[..i], Test(true, "", stock)), report.summary)
      invariant low == |Filter(items, kept[..i], Test(true, "", Low))|
      invariant out == |Filter(items, kept[..i], Test(true, "", Out))|
    {
      var inv := kept[i];
      ghost var shown := Filter(items, kept[..i], Test(true, "", stock));
      FilterSnoc(items, kept, i, Test(true, "", stock));
      FilterSnoc(items, kept, i, Test(true, "", Low));
      FilterSnoc(items, kept, i, Test(true, "", Out));
      if inv.item !in items { continue; }
      if inv.available < LOW_STOCK { low := low + 1; }
      if inv.available == 0 { out := out + 1; }
      if stock == Low && inv.available >= LOW_STOCK { continue; }
      AddRowShows(items, report, shown, inv);
      report := AddRow(items, report, inv);
    }
    assert kept[..|kept|] == kept;
    report := report.(summary := report.summary.(lowStock := low, outOfStock := out));
  }

  /** The listed rows are the levels of known items of the category, below ten available if only those are asked for,
      and the totals are theirs; the two counts are over all levels of known items of the category. */
  method GetInventoryReport(levels: seq<LevelRow>, items: Items, category: string, lowStockOnly: bool)
    returns (report: Report)
    ensures Shows(items, report.rows,
                  Select(levels, l => OfCategory(items, category, l) && (lowStockOnly ==> l.available < 10)),
                  report.summary)
    ensures report.summary.lowStock == |Select(levels, l => OfCategory(items, category, l) && l.available < 10)|
    ensures report.summary.outOfStock == |Select(levels, l => OfCategory(items, category, l) && l.available == 0)|
    ensures report.summary.outOfStock <= report.summary.lowStock
    ensures lowStockOnly ==> report.summary.items == report.summary.lowStock
    ensures Balanced(levels) ==> report.summary.available == report.summary.quantity - report.summary.reserved
  {
    var kept := FilterByCategory(levels, items, category);
    report := BuildRows(kept, items, if lowStockOnly then Low else AnyStock);
    ghost var listed := Test(true, category, if lowStockOnly then Low else AnyStock);
    PrefilterAgrees(items, levels, category, listed.stock);
    PrefilterAgrees(items, levels, category, Low);
    PrefilterAgrees(items, levels, category, Out);
    FilterSelects(items, levels, listed, l => OfCategory(items, category, l) && (lowStockOnly ==> l.available < 10));
    FilterSelects(items, levels, Test(true, category, Low), l => OfCategory(items, category, l) && l.available < 10);
    FilterSelects(items, levels, Test(true, category, Out), l => OfCategory(items, category, l) && l.available == 0);
    OutWithinLow(items, Seen(items, levels, category));
    LowStockOnlyCounts(items, levels, category);
    if Balanced(levels) { ReportBalances(items, levels, listed); }
  }

  lemma {:induction false} FilterSnoc(items: Items, levels: seq<LevelRow>, i: nat, t: Test)
    requires i < |levels|
    ensures var f := Filter(items, levels[..i], t);
            Filter(items, levels[..i + 1], t) == if Passes(items, t, levels[i]) then f + [levels[i]] else f
  {
    assert levels[..i + 1][..i] == levels[..i];
  }

  lemma {:induction false} FilterTwice(items: Items, levels: seq<LevelRow>, p: Test, q: Test, r: Test)
    requires forall l :: Passes(items, r, l) <==> Passes(items, p, l) && Passes(items, q, l)
    ensures Filter(items, Filter(items, levels, p), q) == Filter(items, levels, r)
  {
    if levels != [] {
      var n := |levels| - 1;
      FilterTwice(items, levels[..n], p, q, r);
      var f := Filter(items, levels[..n], p);
      if Passes(items, p, levels[n]) { assert (f + [levels[n]])[..|f|] == f; } else { assert f + [] == f; }
    }
  }

  /** Prefiltering by category and looking the item up again is one combined filter. */
  lemma {:induction false} PrefilterAgrees(items: Items, levels: seq<LevelRow>, category: string, stock: StockTest)
    ensures Filter(items, Filter(items, levels, Test(false, category, AnyStock)), Test(true, "", stock))
         == Filter(items, levels, Test(true, category, stock))
    ensures Filter(items, Seen(items, levels, category), Test(false, "", stock))
         == Filter(items, levels, Test(true, category, stock))
  {
    FilterTwice(items, levels, Test(false, category, AnyStock), Test(true, "", stock), Test(true, category, stock));
    FilterTwice(items, levels, Test(true, category, AnyStock), Test(false, "", stock), Test(true, category, stock));
  }

  // ---- What the summary says ----

  /** Out-of-stock levels never outnumber low-stock ones. */
  lemma {:induction false} OutWithinLow(items: Items, levels: seq<LevelRow>)
    ensures |Filter(items, levels, Test(false, "", Out))| <= |Filter(items, levels, Test(false, "", Low))|
  {
    if levels != [] { OutWithinLow(items, levels[..|levels| - 1]); }
  }

  /** With the low-stock filter on, the number of listed items is the low-stock count. */
  lemma {:induction false} LowStockOnlyCounts(items: Items, levels: seq<LevelRow>, category: string)
    ensures |Filter(items, levels, Test(true, category, Low))| ==
            |Filter(items, Seen(items, levels, category), Test(false, "", Low))|
  {
    PrefilterAgrees(items, levels, category, Low);
  }

  lemma {:induction false} FilterMembers(items: Items, levels: seq<LevelRow>, t: Test)
    ensures forall l :: l in Filter(items, levels, t) ==> l in levels
  {
    if levels != [] {
      var n := |levels| - 1;
      FilterMembers(items, levels[..n], t);
      assert levels == levels[..n] + [levels[n]];
    }
  }

  lemma {:induction false} TotalsBalance(levels: seq<LevelRow>)
    requires Balanced(levels)
    ensures Available(levels) == Quantity(levels) - Reserved(levels)
  {
    if levels != [] {
      var n := |levels| - 1;
      assert levels[n] in levels && forall l :: l in levels[..n] ==> l in levels;
      TotalsBalance(levels[..n]);
    }
  }

  /** If every level is balanced, so is the summary of any report over them. */
  lemma {:induction false} ReportBalances(items: Items, levels: seq<LevelRow>, t: Test)
    requires Balanced(levels)
    ensures var shown := Filter(items, levels, t); Available(shown) == Quantity(shown) - Reserved(shown)
  {
    FilterMembers(items, levels, t);
    TotalsBalance(Filter(items, levels, t));
  }
}
