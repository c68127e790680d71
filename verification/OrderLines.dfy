/** Order lines, demand and the guarded decrement of `create_order`, as values.
    Quantities are arbitrary integers: the service itself never checks their sign. */
module OrderLines {
  type Product = int
  type Stock = map<Product, int>

  datatype Line = Line(product: Product, quantity: int)

  /** Outcome of taking lines from stock: the new stock, or the product whose guarded update found no row. */
  datatype Placement = Placed(stock: Stock) | Short(product: Product)

  function Products(lines: seq<Line>): set<Product> {
    set l | l in lines :: l.product
  }

  /** Summed quantity that `lines` asks of `p`, repeats included. */
  function Demand(lines: seq<Line>, p: Product): int {
    if lines == [] then 0
    else
      var l := lines[|lines| - 1];
      Demand(lines[..|lines| - 1], p) + if l.product == p then l.quantity else 0
  }

  /** One `UPDATE ... SET quantity = quantity - q WHERE id = p AND quantity >= q`. */
  function TakeLine(stock: Stock, l: Line): Placement {
    if l.product in stock && stock[l.product] >= l.quantity
    then Placed(stock[l.product := stock[l.product] - l.quantity])
    else Short(l.product)
  }

  /** The update loop: lines in order, stopping at the first that finds no row. */
  function Place(stock: Stock, lines: seq<Line>): Placement {
    if lines == [] then Placed(stock)
    else
      match Place(stock, lines[..|lines| - 1])
      case Short(p) => Short(p)
      case Placed(s) => TakeLine(s, lines[|lines| - 1])
  }

  function Subtract(stock: Stock, lines: seq<Line>): Stock {
    map p | p in stock :: stock[p] - Demand(lines, p)
  }

  ghost predicate NonNegative(stock: Stock) {
    forall p :: p in stock ==> stock[p] >= 0
  }

  /** Every line's running total fits. */
  ghost predicate PrefixesFit(stock: Stock, lines: seq<Line>) {
    forall k :: 0 <= k < |lines| ==>
      lines[k].product in stock && Demand(lines[..k + 1], lines[k].product) <= stock[lines[k].product]
  }

  /** Every product's total fits; the test a caller would expect. */
  ghost predicate TotalsFit(stock: Stock, lines: seq<Line>) {
    forall p :: p in Products(lines) ==> p in stock && Demand(lines, p) <= stock[p]
  }

  /** No running total of a product exceeds its final total. */
  ghost predicate PrefixesWithinTotals(lines: seq<Line>) {
    forall k :: 0 <= k < |lines| ==>
      Demand(lines[..k + 1], lines[k].product) <= Demand(lines, lines[k].product)
  }

  ghost predicate NonNegativeQuantities(lines: seq<Line>) {
    forall l :: l in lines ==> l.quantity >= 0
  }

  lemma ProductsSnoc(lines: seq<Line>, l: Line)
    ensures Products(lines + [l]) == Products(lines) + {l.product}
  {
    assert forall x :: x in lines + [l] <==> x in lines || x == l;
    assert l in lines + [l];
  }

  lemma {:induction false} NoDemand(lines: seq<Line>, p: Product)
    requires p !in Products(lines)
    ensures Demand(lines, p) == 0
  {
    if lines != [] {
      var front := lines[..|lines| - 1];
      assert lines == front + [lines[|lines| - 1]];
      ProductsSnoc(front, lines[|lines| - 1]);
      NoDemand(front, p);
    }
  }

  lemma PlaceSnoc(stock: Stock, lines: seq<Line>, l: Line)
    ensures Place(stock, lines + [l]) ==
            match Place(stock, lines) { case Short(p) => Short(p) case Placed(s) => TakeLine(s, l) }
    ensures forall p :: Demand(lines + [l], p) == Demand(lines, p) + if l.product == p then l.quantity else 0
  {
    assert (lines + [l])[..|lines|] == lines;
  }

  lemma {:induction false} ShortPersists(stock: Stock, lines: seq<Line>, n: nat)
    requires n <= |lines| && Place(stock, lines[..n]).Short?
    ensures Place(stock, lines) == Place(stock, lines[..n])
    decreases |lines|
  {
    if n < |lines| {
      var front := lines[..|lines| - 1];
      assert front[..n] == lines[..n];
      ShortPersists(stock, front, n);
    } else {
      assert lines[..n] == lines;
    }
  }

  /** The loop accepts exactly when every running total fits, and then subtracts each product's total. */
  lemma {:induction false} PlaceByPrefixes(stock: Stock, lines: seq<Line>)
    ensures Place(stock, lines).Placed? <==> PrefixesFit(stock, lines)
    ensures Place(stock, lines).Placed? ==> Place(stock, lines).stock == Subtract(stock, lines)
  {
    if lines == [] {
      assert Subtract(stock, lines) == stock;
    } else {
      var n := |lines| - 1;
      var front := lines[..n];
      PlaceByPrefixes(stock, front);
      assert lines[..n + 1] == lines;
      assert forall k :: 0 <= k < n ==> front[..k + 1] == lines[..k + 1] && front[k] == lines[k];
      if Place(stock, front).Placed? && lines[n].product in stock {
        assert Subtract(stock, lines) ==
               Subtract(stock, front)[lines[n].product := stock[lines[n].product] - Demand(lines, lines[n].product)];
      }
    }
  }

  /** Line `k` is of product `p` and the first that its running total does not fit. */
  ghost predicate FirstShort(stock: Stock, lines: seq<Line>, k: int, p: Product) {
    && 0 <= k < |lines| && lines[k].product == p && PrefixesFit(stock, lines[..k])
    && (p in stock ==> stock[p] < Demand(lines[..k + 1], p))
  }

  lemma {:induction false} ShortAtFirst(stock: Stock, lines: seq<Line>, k: nat, p: Product)
    requires FirstShort(stock, lines, k, p)
    ensures Place(stock, lines) == Short(p)
  {
    PlaceByPrefixes(stock, lines[..k]);
    assert lines[..k + 1] == lines[..k] + [lines[k]];
    PlaceSnoc(stock, lines[..k], lines[k]);
    ShortPersists(stock, lines, k + 1);
  }

  lemma {:induction false} FirstShortOf(stock: Stock, lines: seq<Line>) returns (k: nat)
    requires Place(stock, lines).Short?
    ensures FirstShort(stock, lines, k, Place(stock, lines).product)
  {
    var n := |lines| - 1;
    var front := lines[..n];
    assert lines[..n + 1] == lines && lines == front + [lines[n]];
    PlaceByPrefixes(stock, front);
    if Place(stock, front).Short? {
      k := FirstShortOf(stock, front);
      assert front[..k] == lines[..k] && front[..k + 1] == lines[..k + 1];
    } else {
      k := n;
      PlaceSnoc(stock, front, lines[n]);
    }
  }

  /** The loop stops at the first line that does not fit, and names its product. */
  lemma ShortNamesFirst(stock: Stock, lines: seq<Line>, p: Product)
    ensures Place(stock, lines) == Short(p) <==> exists k :: FirstShort(stock, lines, k, p)
  {
    if k :| FirstShort(stock, lines, k, p) { ShortAtFirst(stock, lines, k, p); }
    if Place(stock, lines) == Short(p) { var k := FirstShortOf(stock, lines); }
  }

  ghost predicate NonNegativeFor(lines: seq<Line>, p: Product) {
    forall l :: l in lines && l.product == p ==> l.quantity >= 0
  }

  lemma {:induction false} DemandMonotone(lines: seq<Line>, k: nat, p: Product)
    requires k <= |lines| && NonNegativeFor(lines, p)
    ensures Demand(lines[..k], p) <= Demand(lines, p)
    decreases |lines|
  {
    if k < |lines| {
      var front := lines[..|lines| - 1];
      DemandMonotone(front, k, p);
      assert front[..k] == lines[..k];
      assert lines[|lines| - 1] in lines;
    } else {
      assert lines[..k] == lines;
    }
  }

  lemma LastOccurrence(lines: seq<Line>, p: Product) returns (k: nat)
    requires p in Products(lines)
    ensures k < |lines| && lines[k].product == p && Demand(lines[..k + 1], p) == Demand(lines, p)
  {
    k := |lines| - 1;
    if lines[k].product == p {
      assert lines[..k + 1] == lines;
    } else {
      var front := lines[..k];
      assert lines == front + [lines[k]];
      ProductsSnoc(front, lines[k]);
      k := LastOccurrence(front, p);
      assert front[..k + 1] == lines[..k + 1];
    }
  }

  lemma TotalsDecide(stock: Stock, lines: seq<Line>)
    requires PrefixesWithinTotals(lines)
    ensures Place(stock, lines).Placed? <==> TotalsFit(stock, lines)
  {
    PlaceByPrefixes(stock, lines);
    if PrefixesFit(stock, lines) {
      forall p | p in Products(lines) ensures p in stock && Demand(lines, p) <= stock[p] {
        var k := LastOccurrence(lines, p);
      }
    }
  }

  /** For every line list, summed demand decides acceptance on every stock
      if and only if no running total exceeds its final total. */
  lemma TotalsDecideExactly(lines: seq<Line>)
    ensures (forall stock :: Place(stock, lines).Placed? <==> TotalsFit(stock, lines))
       <==> PrefixesWithinTotals(lines)
  {
    if PrefixesWithinTotals(lines) {
      forall stock ensures Place(stock, lines).Placed? <==> TotalsFit(stock, lines) {
        TotalsDecide(stock, lines);
      }
    }
    if forall stock :: Place(stock, lines).Placed? <==> TotalsFit(stock, lines) {
      var stock: Stock := map p | p in Products(lines) :: Demand(lines, p);
      assert TotalsFit(stock, lines);
      assert Place(stock, lines).Placed?;
      PlaceByPrefixes(stock, lines);
    }
  }

  /** With the quantities the DTO asks for, acceptance is exactly by totals. */
  lemma AcceptedByTotals(stock: Stock, lines: seq<Line>)
    requires NonNegativeQuantities(lines)
    ensures Place(stock, lines).Placed? <==> TotalsFit(stock, lines)
  {
    forall k | 0 <= k < |lines| ensures Demand(lines[..k + 1], lines[k].product) <= Demand(lines, lines[k].product) {
      DemandMonotone(lines, k + 1, lines[k].product);
    }
    TotalsDecide(stock, lines);
  }

  /** The guard keeps stock non-negative whatever the sign of the quantities. */
  lemma {:induction false} PlaceKeepsNonNegative(stock: Stock, lines: seq<Line>)
    requires NonNegative(stock)
    ensures Place(stock, lines).Placed? ==> NonNegative(Place(stock, lines).stock)
  {
    if lines != [] {
      PlaceKeepsNonNegative(stock, lines[..|lines| - 1]);
    }
  }
}
