/** When the order of the lines matters to `create_order`. */
module LineOrder {
  import opened Reordering
  import opened OrderLines

  lemma {:induction false} DemandConcat(a: seq<Line>, b: seq<Line>, p: Product)
    ensures Demand(a + b, p) == Demand(a, p) + Demand(b, p)
  {
    if b == [] {
      assert a + b == a;
    } else {
      DemandConcat(a, b[..|b| - 1], p);
      assert (a + b)[..|a + b| - 1] == a + b[..|b| - 1];
    }
  }

  lemma {:induction false} DemandAround(front: seq<Line>, l: Line, back: seq<Line>, p: Product)
    ensures Demand((front + [l]) + back, p) == Demand(front + back, p) + if l.product == p then l.quantity else 0
  {
    DemandConcat(front, back, p);
    DemandConcat(front + [l], back, p);
    assert (front + [l])[..|front|] == front;
  }

  lemma {:induction false} DemandPermutes(a: seq<Line>, b: seq<Line>, p: Product)
    requires multiset(a) == multiset(b)
    ensures Demand(a, p) == Demand(b, p)
  {
    if a == [] {
      assert |multiset(b)| == 0;
    } else {
      var l, rest := a[|a| - 1], a[..|a| - 1];
      assert a == rest + [l];
      var front, back := RemoveOne(b, l);
      assert multiset(rest) == multiset(a) - multiset{l};
      DemandPermutes(rest, front + back, p);
      DemandAround(front, l, back, p);
    }
  }

  // ---- The verdict, product by product ----

  /** Every line of `p` finds enough when its turn comes. */
  ghost predicate ProductFits(stock: Stock, lines: seq<Line>, p: Product) {
    p in stock && forall k :: 0 <= k < |lines| && lines[k].product == p ==> Demand(lines[..k + 1], p) <= stock[p]
  }

  lemma FitsByProduct(stock: Stock, lines: seq<Line>)
    ensures PrefixesFit(stock, lines) <==> forall p :: p in Products(lines) ==> ProductFits(stock, lines, p)
  {
    if PrefixesFit(stock, lines) {
      forall p | p in Products(lines) ensures ProductFits(stock, lines, p) {
        var k := LastOccurrence(lines, p);
      }
    }
    if forall p :: p in Products(lines) ==> ProductFits(stock, lines, p) {
      forall k | 0 <= k < |lines|
        ensures lines[k].product in stock && Demand(lines[..k + 1], lines[k].product) <= stock[lines[k].product]
      {
        assert lines[k] in lines;
        assert ProductFits(stock, lines, lines[k].product);
      }
    }
  }

  lemma FitsNonNegative(stock: Stock, lines: seq<Line>, p: Product)
    requires NonNegativeFor(lines, p) && p in Products(lines)
    ensures ProductFits(stock, lines, p) <==> p in stock && Demand(lines, p) <= stock[p]
  {
    var k := LastOccurrence(lines, p);
    forall j | 0 <= j < |lines| && lines[j].product == p ensures Demand(lines[..j + 1], p) <= Demand(lines, p) {
      DemandMonotone(lines, j + 1, p);
    }
  }

  /** Every line of `p` asks for `c`. */
  ghost predicate AllEqual(lines: seq<Line>, p: Product, c: int) {
    forall l :: l in lines && l.product == p ==> l.quantity == c
  }

  lemma {:induction false} DemandAtMostZero(lines: seq<Line>, p: Product, c: int)
    requires AllEqual(lines, p, c) && c <= 0
    ensures Demand(lines, p) <= 0
  {
    if lines != [] {
      DemandAtMostZero(lines[..|lines| - 1], p, c);
      assert lines[|lines| - 1] in lines;
    }
  }

  lemma {:induction false} FirstOccurrence(lines: seq<Line>, p: Product) returns (k: nat)
    requires p in Products(lines)
    ensures k < |lines| && lines[k].product == p && Demand(lines[..k], p) == 0
  {
    var front, l := lines[..|lines| - 1], lines[|lines| - 1];
    assert lines == front + [l];
    ProductsSnoc(front, l);
    if p in Products(front) {
      k := FirstOccurrence(front, p);
      assert front[..k] == lines[..k];
    } else {
      k := |lines| - 1;
      NoDemand(front, p);
    }
  }

  lemma FitsEqual(stock: Stock, lines: seq<Line>, p: Product, c: int)
    requires AllEqual(lines, p, c) && c < 0 && p in Products(lines)
    ensures ProductFits(stock, lines, p) <==> p in stock && c <= stock[p]
  {
    forall k | 0 <= k < |lines| && lines[k].product == p
      ensures Demand(lines[..k + 1], p) == Demand(lines[..k], p) + c && Demand(lines[..k], p) <= 0
    {
      assert lines[..k + 1][..k] == lines[..k] && lines[k] in lines;
      assert AllEqual(lines[..k], p, c);
      DemandAtMostZero(lines[..k], p, c);
    }
    var f := FirstOccurrence(lines, p);
  }

  // ---- Order does not matter for non-negative or equal quantities ----

  /** The quantities asked of `p` are all non-negative, or all the same. */
  ghost predicate EvenFor(lines: seq<Line>, p: Product) {
    NonNegativeFor(lines, p) || exists c :: AllEqual(lines, p, c)
  }

  lemma FitsPermutes(stock: Stock, a: seq<Line>, b: seq<Line>, p: Product)
    requires multiset(a) == multiset(b) && EvenFor(a, p) && p in Products(a)
    ensures ProductFits(stock, a, p) <==> ProductFits(stock, b, p)
  {
    SameMembers(a, b);
    DemandPermutes(a, b, p);
    assert p in Products(b);
    if NonNegativeFor(a, p) {
      FitsNonNegative(stock, a, p);
      FitsNonNegative(stock, b, p);
    } else {
      var c :| AllEqual(a, p, c);
      FitsEqual(stock, a, p, c);
      FitsEqual(stock, b, p, c);
    }
  }

  lemma AllFitPermutes(stock: Stock, a: seq<Line>, b: seq<Line>)
    requires multiset(a) == multiset(b) && forall p :: EvenFor(a, p)
    ensures PrefixesFit(stock, a) <==> PrefixesFit(stock, b)
  {
    SameMembers(a, b);
    assert Products(a) == Products(b);
    forall p | p in Products(a) ensures ProductFits(stock, a, p) <==> ProductFits(stock, b, p) {
      assert EvenFor(a, p);
      FitsPermutes(stock, a, b, p);
    }
    FitsByProduct(stock, a);
    FitsByProduct(stock, b);
  }

  lemma SubtractPermutes(stock: Stock, a: seq<Line>, b: seq<Line>)
    requires multiset(a) == multiset(b)
    ensures Subtract(stock, a) == Subtract(stock, b)
  {
    forall p ensures Demand(a, p) == Demand(b, p) { DemandPermutes(a, b, p); }
  }

  /** Neither the verdict nor the resulting stock then depends on the order of the lines. */
  lemma PlacePermutes(stock: Stock, a: seq<Line>, b: seq<Line>)
    requires multiset(a) == multiset(b) && forall p :: EvenFor(a, p)
    ensures Place(stock, a).Placed? <==> Place(stock, b).Placed?
    ensures Place(stock, a).Placed? ==> Place(stock, a) == Place(stock, b)
  {
    AllFitPermutes(stock, a, b);
    SubtractPermutes(stock, a, b);
    PlaceByPrefixes(stock, a);
    PlaceByPrefixes(stock, b);
  }

  // ---- Otherwise it does ----

  /** Summed positive quantities: no running total exceeds it. */
  function Peak(lines: seq<Line>, p: Product): int {
    if lines == [] then 0
    else
      var l := lines[|lines| - 1];
      Peak(lines[..|lines| - 1], p) + if l.product == p && l.quantity > 0 then l.quantity else 0
  }

  lemma {:induction false} BelowPeak(lines: seq<Line>, k: nat, p: Product)
    requires k <= |lines|
    ensures Demand(lines[..k], p) <= Peak(lines, p) && Peak(lines, p) >= 0
    decreases |lines|
  {
    if lines != [] {
      var front := lines[..|lines| - 1];
      BelowPeak(front, if k < |lines| then k else k - 1, p);
      if k < |lines| {
        assert front[..k] == lines[..k];
      } else {
        assert lines[..k] == lines && front[..k - 1] == front;
      }
    }
  }

  lemma {:induction false} PeakConcat(a: seq<Line>, b: seq<Line>, p: Product)
    ensures Peak(a + b, p) == Peak(a, p) + Peak(b, p)
  {
    if b == [] {
      assert a + b == a;
    } else {
      PeakConcat(a, b[..|b| - 1], p);
      assert (a + b)[..|a + b| - 1] == a + b[..|b| - 1];
    }
  }

  predicate Positive(l: Line, p: Product) { l.product == p && l.quantity > 0 }

  /** The lines of `p` with a positive quantity, and the others. */
  function Parted(lines: seq<Line>, p: Product): (seq<Line>, seq<Line>) {
    if lines == [] then ([], [])
    else
      var (up, rest) := Parted(lines[..|lines| - 1], p);
      var l := lines[|lines| - 1];
      if Positive(l, p) then (up + [l], rest) else (up, rest + [l])
  }

  lemma {:induction false} PartedPermutes(lines: seq<Line>, p: Product)
    ensures multiset(Parted(lines, p).0 + Parted(lines, p).1) == multiset(lines)
  {
    if lines != [] {
      var front, l := lines[..|lines| - 1], lines[|lines| - 1];
      assert lines == front + [l];
      PartedPermutes(front, p);
    }
  }

  lemma {:induction false} PartedParts(lines: seq<Line>, p: Product)
    ensures var (up, rest) := Parted(lines, p);
            && (forall l :: l in up ==> Positive(l, p)) && (forall l :: l in rest ==> !Positive(l, p))
            && Peak(up, p) == Demand(up, p) && Peak(rest, p) == 0
  {
    if lines != [] {
      var front, l := lines[..|lines| - 1], lines[|lines| - 1];
      PartedParts(front, p);
      var (up, rest) := Parted(front, p);
      assert (up + [l])[..|up|] == up && (rest + [l])[..|rest|] == rest;
    }
  }

  /** A line that gives stock back, put first, lowers every running total of its product. */
  lemma BackFirst(x: Line, w: seq<Line>, k: nat, p: Product)
    requires x.product == p && k < |w| + 1
    ensures Demand(([x] + w)[..k + 1], p) <= x.quantity + Peak(w, p)
  {
    assert ([x] + w)[..k + 1] == [x] + w[..k];
    DemandConcat([x], w[..k], p);
    assert [x][..0] == [];
    assert Demand([x], p) == x.quantity;
    BelowPeak(w, k, p);
  }

  /** Stock that has room for every running total of `e`, but for `p` only `limit`. */
  function Room(e: seq<Line>, p: Product, limit: int): Stock {
    map r | r in Products(e) :: if r == p then limit else Peak(e, r)
  }

  lemma RoomFits(x: Line, w: seq<Line>, limit: int)
    requires x.quantity + Peak(w, x.product) <= limit
    ensures PrefixesFit(Room([x] + w, x.product, limit), [x] + w)
  {
    var e, p := [x] + w, x.product;
    forall k | 0 <= k < |e|
      ensures e[k].product in Products(e) && Demand(e[..k + 1], e[k].product) <= Room(e, p, limit)[e[k].product]
    {
      assert e[k] in e;
      if e[k].product == p { BackFirst(x, w, k, p); } else { BelowPeak(e, k + 1, e[k].product); }
    }
  }

  /** Two orders of the same lines and a stock that accepts one and refuses the other. */
  ghost predicate Disagree(stock: Stock, d: seq<Line>, e: seq<Line>) {
    Place(stock, d).Short? && Place(stock, e).Placed?
  }

  /** First what takes most of `p`, against first what gives back. */
  lemma TopFirst(up: seq<Line>, v: seq<Line>, x: Line, w: seq<Line>, p: Product)
    requires up != [] && (forall l :: l in up ==> l.product == p) && x.product == p
    requires x.quantity + Peak(w, p) < Demand(up, p)
    ensures Disagree(Room([x] + w, p, Demand(up, p) - 1), up + v, [x] + w)
  {
    var d, e, stock := up + v, [x] + w, Room([x] + w, p, Demand(up, p) - 1);
    RoomFits(x, w, Demand(up, p) - 1);
    PlaceByPrefixes(stock, e);
    PlaceByPrefixes(stock, d);
    var k := |up| - 1;
    assert d[k] == up[k] && up[k] in up && d[..k + 1] == up;
    assert p in Products(e) by { assert x in e; }
    assert !PrefixesFit(stock, d) by { assert d[k].product == p && Demand(d[..k + 1], p) > stock[p]; }
  }

  lemma UnevenLines(lines: seq<Line>, p: Product) returns (x: Line, y: Line)
    requires !EvenFor(lines, p)
    ensures x in lines && y in lines && x.product == p && y.product == p
    ensures x.quantity < 0 && x.quantity < y.quantity
  {
    x :| x in lines && x.product == p && x.quantity < 0;
    assert !AllEqual(lines, p, x.quantity);
    y :| y in lines && y.product == p && y.quantity != x.quantity;
    if y.quantity < x.quantity { x, y := y, x; }
  }

  lemma CutOut(lines: seq<Line>, x: Line) returns (rest: seq<Line>)
    requires x in lines
    ensures multiset([x] + rest) == multiset(lines)
    ensures forall p :: Peak(lines, p) == Peak(rest, p) + Peak([x], p)
  {
    assert x in multiset(lines);
    var front, back := RemoveOne(lines, x);
    rest := front + back;
    forall p ensures Peak(lines, p) == Peak(rest, p) + Peak([x], p) {
      PeakConcat(front + [x], back, p);
      PeakConcat(front, [x], p);
      PeakConcat(front, back, p);
    }
  }

  /** Some line asks for a positive quantity: all of those first, or what gives back first. */
  lemma DisagreeUp(up: seq<Line>, rest: seq<Line>, x: Line, p: Product) returns (stock: Stock, e: seq<Line>)
    requires up != [] && (forall l :: l in up ==> l.product == p) && Peak(up, p) == Demand(up, p) && Peak(rest, p) == 0
    requires x in up + rest && x.product == p && x.quantity < 0
    ensures multiset(e) == multiset(up + rest) && Disagree(stock, up + rest, e)
  {
    var w := CutOut(up + rest, x);
    PeakConcat(up, rest, p);
    PeakOne(x, p);
    TopFirst(up, rest, x, w, p);
    stock, e := Room([x] + w, p, Demand(up, p) - 1), [x] + w;
  }

  /** No line does: `y` first, or `x`, which gives back more. */
  lemma DisagreeFlat(a: seq<Line>, x: Line, y: Line, p: Product) returns (stock: Stock, d: seq<Line>, e: seq<Line>)
    requires Peak(a, p) == 0 && x in a && y in a && x.product == p && y.product == p
    requires x.quantity < 0 && x.quantity < y.quantity
    ensures multiset(d) == multiset(a) && multiset(e) == multiset(a) && Disagree(stock, d, e)
  {
    var w := CutOut(a, x);
    var v := CutOut(a, y);
    PeakOne(x, p);
    PeakOne(y, p);
    TopFirst([y], v, x, w, p);
    stock, d, e := Room([x] + w, p, Demand([y], p) - 1), [y] + v, [x] + w;
  }

  lemma PeakOne(x: Line, p: Product)
    requires x.product == p
    ensures Demand([x], p) == x.quantity && (x.quantity <= 0 ==> Peak([x], p) == 0)
  {
    assert [x][..0] == [];
  }

  lemma UnevenDisagree(a: seq<Line>, p: Product) returns (stock: Stock, d: seq<Line>, e: seq<Line>)
    requires !EvenFor(a, p)
    ensures multiset(d) == multiset(a) && multiset(e) == multiset(a) && Disagree(stock, d, e)
  {
    var x, y := UnevenLines(a, p);
    var (up, rest) := Parted(a, p);
    PartedParts(a, p);
    PartedPermutes(a, p);
    SameMembers(up + rest, a);
    if up != [] {
      d := up + rest;
      stock, e := DisagreeUp(up, rest, x, p);
    } else {
      assert up + rest == rest;
      stock, d, e := DisagreeFlat(rest, x, y, p);
    }
  }

  ghost predicate SameVerdict(stock: Stock, a: seq<Line>, b: seq<Line>) {
    Place(stock, a).Placed? <==> Place(stock, b).Placed?
  }

  /** On every stock and for every reordering the verdict is the same, if and only if each product's quantities
      are all non-negative or all equal. */
  lemma OrderIrrelevantExactly(a: seq<Line>)
    ensures (forall stock, b :: multiset(b) == multiset(a) ==> SameVerdict(stock, a, b)) <==> forall p :: EvenFor(a, p)
  {
    if forall p :: EvenFor(a, p) {
      forall stock, b | multiset(b) == multiset(a) ensures SameVerdict(stock, a, b) { PlacePermutes(stock, a, b); }
    } else {
      var p :| !EvenFor(a, p);
      var stock, d, e := UnevenDisagree(a, p);
      assert !SameVerdict(stock, a, d) || !SameVerdict(stock, a, e);
    }
  }

  lemma PlaceTwo(stock: Stock, a: Line, b: Line)
    ensures Place(stock, [a, b]) ==
            match TakeLine(stock, a) { case Short(p) => Short(p) case Placed(s) => TakeLine(s, b) }
  {
    assert [] + [a] == [a] && [a] + [b] == [a, b];
    PlaceSnoc(stock, [], a);
    PlaceSnoc(stock, [a], b);
  }

  /** Mixed signs make the verdict depend on line order. */
  lemma MixedSignsDependOnOrder(p: Product)
    ensures var stock: Stock := map[p := 3];
            Place(stock, [Line(p, 5), Line(p, -3)]) == Short(p) &&
            Place(stock, [Line(p, -3), Line(p, 5)]).Placed?
  {
    PlaceTwo(map[p := 3], Line(p, 5), Line(p, -3));
    PlaceTwo(map[p := 3], Line(p, -3), Line(p, 5));
  }
}
