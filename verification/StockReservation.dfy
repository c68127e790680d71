/** `CheckAndReserveStock` of the inventory service: line by line, reserve what is available and go on.
    Repository failures are inputs: `levelFails(i)` and `allocFails(i)` say whether the database call of
    line `i` fails. */
module StockReservation {
  import opened Options
  import opened OrderLines

  datatype Item = Item(id: Product, sku: string)

  datatype Catalog = Catalog(byId: map<Product, Item>, bySku: map<string, Item>)

  /** A requested line; no product id means the line is found by SKU, and an empty SKU means none was given. */
  datatype Request = Request(product: Option<Product>, sku: string, quantity: int)

  datatype Level = Level(quantity: int, reserved: int, available: int)

  type Levels = map<Product, Level>

  datatype Problem = ItemNotFound | InsufficientStock | AllocationFailed

  datatype Availability = Availability(
    product: Option<Product>, sku: string, inStock: bool, availableQuantity: int, problem: Option<Problem>)

  /** A normal return, the error return for a line without identifier, or the crash on a failed level lookup;
      the last two leave what earlier lines reserved. */
  datatype Outcome =
    | Returned(levels: Levels, entries: seq<Availability>, success: bool)
    | NoIdentifier(levels: Levels)
    | Crashed(levels: Levels)

  type Faults = nat -> bool

  // ---- Specification ----

  /** The product a line is about, if its item is found. */
  function Resolve(catalog: Catalog, r: Request): Option<Item> {
    if r.product.Some? then
      if r.product.value in catalog.byId then Some(catalog.byId[r.product.value]) else None
    else if r.sku in catalog.bySku then Some(catalog.bySku[r.sku])
    else None
  }

  /** The key of the level row: the given product id, or else the found item's id. */
  function Key(r: Request, item: Item): Product { if r.product.Some? then r.product.value else item.id }

  /** A missing row reads as a level of zero. */
  function LevelOf(levels: Levels, k: Product): Level { if k in levels then levels[k] else Level(0, 0, 0) }

  /** The repository's allocation: fails on a missing row or a short one, else moves q to reserved. */
  predicate CanAllocate(levels: Levels, k: Product, q: int) { k in levels && levels[k].available >= q }

  function Allocate(levels: Levels, k: Product, q: int): Levels
    requires k in levels
  {
    levels[k := Level(levels[k].quantity, levels[k].reserved + q, levels[k].available - q)]
  }

  function ReserveLine(catalog: Catalog, o: Outcome, r: Request, levelFails: bool, allocFails: bool): Outcome
    requires o.Returned?
  {
    if r.product == None && r.sku == "" then NoIdentifier(o.levels)
    else
      match Resolve(catalog, r)
      case None =>
        Returned(o.levels, o.entries + [Availability(r.product, r.sku, false, 0, Some(ItemNotFound))], false)
      case Some(item) =>
        var k := Key(r, item);
        var level := LevelOf(o.levels, k);
        if levelFails then Crashed(o.levels)
        else if level.available < r.quantity then
          var e := Availability(Some(item.id), item.sku, false, level.available, Some(InsufficientStock));
          Returned(o.levels, o.entries + [e], false)
        else if allocFails || !CanAllocate(o.levels, k, r.quantity) then
          var e := Availability(Some(item.id), item.sku, true, level.available, Some(AllocationFailed));
          Returned(o.levels, o.entries + [e], false)
        else
          var e := Availability(Some(item.id), item.sku, true, level.available - r.quantity, None);
          Returned(Allocate(o.levels, k, r.quantity), o.entries + [e], o.success)
  }

  function Reserve(
    catalog: Catalog, levels: Levels, rs: seq<Request>, levelFails: Faults, allocFails: Faults): Outcome {
    if rs == [] then Returned(levels, [], true)
    else
      var n := |rs| - 1;
      var o := Reserve(catalog, levels, rs[..n], levelFails, allocFails);
      if o.Returned? then ReserveLine(catalog, o, rs[n], levelFails(n), allocFails(n)) else o
  }

  // ---- The service, in place ----

  class InventoryService {
    const catalog: Catalog
    var levels: Levels

    constructor (catalog: Catalog, levels: Levels)
      ensures this.catalog == catalog && this.levels == levels
    {
      this.catalog, this.levels := catalog, levels;
    }

    /** Fails, changing nothing, when the row is missing or short or the database refuses. */
    method AllocateInventory(k: Product, q: int, fails: bool) returns (ok: bool)
      modifies this`levels
      ensures ok <==> !fails && CanAllocate(old(levels), k, q)
      ensures levels == if ok then Allocate(old(levels), k, q) else old(levels)
    {
      if LevelOf(levels, k).available < q { return false; }
      if fails || k !in levels || levels[k].available < q { return false; }
      var level := levels[k];
      levels := levels[k := Level(level.quantity, level.reserved + q, level.available - q)];
      return true;
    }

    method CheckAndReserveStock(rs: seq<Request>, levelFails: Faults, allocFails: Faults) returns (o: Outcome)
      modifies this`levels
      ensures o == Reserve(catalog, old(levels), rs, levelFails, allocFails)
      ensures levels == o.levels
    {
      var entries: seq<Availability> := [];
      var success := true;
      ghost var start := levels;
      for i := 0 to |rs|
        invariant Reserve(catalog, start, rs[..i], levelFails, allocFails) == Returned(levels, entries, success)
      {
        var r := rs[i];
        ReserveSnoc(catalog, start, rs[..i], r, levelFails, allocFails);
        assert rs[..i] + [r] == rs[..i + 1];
        if r.product == None && r.sku == "" {
          StopPersists(catalog, start, rs, i + 1, levelFails, allocFails);
          return NoIdentifier(levels);
        }
        var found := Resolve(catalog, r);
        if found == None {
          entries := entries + [Availability(r.product, r.sku, false, 0, Some(ItemNotFound))];
          success := false;
          continue;
        }
        var item := found.value;
        var k := Key(r, item);
        if levelFails(i) {
          StopPersists(catalog, start, rs, i + 1, levelFails, allocFails);
          return Crashed(levels);
        }
        var level := LevelOf(levels, k);
        if level.available < r.quantity {
          entries := entries + [Availability(Some(item.id), item.sku, false, level.available, Some(InsufficientStock))];
          success := false;
          continue;
        }
        var ok := AllocateInventory(k, r.quantity, allocFails(i));
        if !ok {
          entries := entries + [Availability(Some(item.id), item.sku, true, level.available, Some(AllocationFailed))];
          success := false;
          continue;
        }
        entries := entries + [Availability(Some(item.id), item.sku, true, level.available - r.quantity, None)];
      }
      assert rs[..|rs|] == rs;
      o := Returned(levels, entries, success);
    }
  }

  lemma {:induction false} ReserveSnoc(
    catalog: Catalog, levels: Levels, rs: seq<Request>, r: Request, levelFails: Faults, allocFails: Faults)
    ensures var o := Reserve(catalog, levels, rs, levelFails, allocFails);
            Reserve(catalog, levels, rs + [r], levelFails, allocFails) ==
            if o.Returned? then ReserveLine(catalog, o, r, levelFails(|rs|), allocFails(|rs|)) else o
  {
    assert (rs + [r])[..|rs|] == rs;
  }

  lemma {:induction false} StopPersists(
    catalog: Catalog, levels: Levels, rs: seq<Request>, n: nat, levelFails: Faults, allocFails: Faults)
    requires n <= |rs| && !Reserve(catalog, levels, rs[..n], levelFails, allocFails).Returned?
    ensures Reserve(catalog, levels, rs, levelFails, allocFails) ==
            Reserve(catalog, levels, rs[..n], levelFails, allocFails)
    decreases |rs|
  {
    if n < |rs| {
      assert rs[..|rs| - 1][..n] == rs[..n];
      StopPersists(catalog, levels, rs[..|rs| - 1], n, levelFails, allocFails);
    } else {
      assert rs[..n] == rs;
    }
  }

  // ---- What a normal return means ----

  /** The line is about the level row `k`: by its product id if it has one, and else by the id of the item with
      its SKU. */
  predicate Concerns(catalog: Catalog, r: Request, k: Product) {
    match r.product
    case Some(p) => p == k && p in catalog.byId
    case None => r.sku in catalog.bySku && catalog.bySku[r.sku].id == k
  }

  lemma KeyConcerns(catalog: Catalog, r: Request, k: Product)
    ensures Concerns(catalog, r, k) <==> Resolve(catalog, r).Some? && Key(r, Resolve(catalog, r).value) == k
  {}

  /** Quantity of `k` on the lines whose entries carry no problem. */
  function Granted(catalog: Catalog, rs: seq<Request>, entries: seq<Availability>, k: Product): int
    requires |rs| == |entries|
  {
    if rs == [] then 0
    else
      var n := |rs| - 1;
      Granted(catalog, rs[..n], entries[..n], k) +
      if entries[n].problem == None && Concerns(catalog, rs[n], k) then rs[n].quantity else 0
  }

  /** What an entry says of an item that was found, where `left` is what its row had before the line. */
  ghost predicate FoundAnswer(item: Item, q: int, left: int, e: Availability) {
    && e.product == Some(item.id) && e.sku == item.sku
    && match e.problem
       case None => e.inStock && q <= left && e.availableQuantity == left - q
       case Some(InsufficientStock) => !e.inStock && left < q && e.availableQuantity == left
       case Some(AllocationFailed) => e.inStock && q <= left && e.availableQuantity == left
       case Some(ItemNotFound) => false
  }

  /** The entry `e` answers line `r`, where row `k` had `left(k)` before the line. */
  ghost predicate Answers(catalog: Catalog, r: Request, left: Product -> int, e: Availability) {
    match r.product
    case Some(p) =>
      if p in catalog.byId then FoundAnswer(catalog.byId[p], r.quantity, left(p), e)
      else e == Availability(Some(p), r.sku, false, 0, Some(ItemNotFound))
    case None =>
      if r.sku in catalog.bySku then
        FoundAnswer(catalog.bySku[r.sku], r.quantity, left(catalog.bySku[r.sku].id), e)
      else e == Availability(None, r.sku, false, 0, Some(ItemNotFound))
  }

  /** What row `k` has left after the first `i` lines; a missing row reads as none. */
  function Left(catalog: Catalog, levels: Levels, rs: seq<Request>, entries: seq<Availability>, i: nat): Product -> int
    requires |rs| == |entries| && i <= |rs|
  {
    k => if k in levels then levels[k].available - Granted(catalog, rs[..i], entries[..i], k) else 0
  }

  ghost predicate AnswerAt(catalog: Catalog, levels: Levels, rs: seq<Request>, entries: seq<Availability>, i: int) {
    0 <= i < |rs| == |entries| ==> Answers(catalog, rs[i], Left(catalog, levels, rs, entries, i), entries[i])
  }

  /** Entry `i` answers line `i`, given what the lines before it took. */
  ghost predicate AnswersAll(catalog: Catalog, levels: Levels, rs: seq<Request>, entries: seq<Availability>) {
    |entries| == |rs| && forall i :: AnswerAt(catalog, levels, rs, entries, i)
  }

  ghost predicate NoProblems(entries: seq<Availability>) {
    forall i :: 0 <= i < |entries| ==> entries[i].problem == None
  }

  lemma {:induction false} GrantedSnoc(
    catalog: Catalog, rs: seq<Request>, entries: seq<Availability>, r: Request, e: Availability, k: Product)
    requires |rs| == |entries|
    ensures Granted(catalog, rs + [r], entries + [e], k) == Granted(catalog, rs, entries, k) +
            if e.problem == None && Concerns(catalog, r, k) then r.quantity else 0
  {
    assert (rs + [r])[..|rs|] == rs && (entries + [e])[..|rs|] == entries;
  }

  /** The level a row must have after `granted` units moved from available to reserved. */
  function Moved(l: Level, granted: int): Level { Level(l.quantity, l.reserved + granted, l.available - granted) }

  /** What one line adds to a normal return. */
  lemma {:induction false} LineAnswered(catalog: Catalog, o: Outcome, r: Request, levelFails: bool, allocFails: bool,
                                        left: Product -> int) returns (e: Availability, levels: Levels)
    requires o.Returned? && ReserveLine(catalog, o, r, levelFails, allocFails).Returned?
    requires forall k :: left(k) == LevelOf(o.levels, k).available
    ensures ReserveLine(catalog, o, r, levelFails, allocFails) ==
            Returned(levels, o.entries + [e], o.success && e.problem == None)
    ensures Answers(catalog, r, left, e)
    ensures e.problem == None ==> Resolve(catalog, r).Some?
    ensures levels == if e.problem != None then o.levels
                      else Reallocated(o.levels, Key(r, Resolve(catalog, r).value), r.quantity)
  {
    var o' := ReserveLine(catalog, o, r, levelFails, allocFails);
    e, levels := o'.entries[|o.entries|], o'.levels;
  }

  function Reallocated(levels: Levels, k: Product, q: int): Levels {
    if k in levels then Allocate(levels, k, q) else levels
  }

  ghost predicate MovedBy(
    catalog: Catalog, levels: Levels, rs: seq<Request>, entries: seq<Availability>, after: Levels) {
    |entries| == |rs| && after.Keys == levels.Keys &&
    forall k :: k in levels ==> after[k] == Moved(levels[k], Granted(catalog, rs, entries, k))
  }

  lemma {:induction false} MovedSnoc(
    catalog: Catalog, levels: Levels, rs: seq<Request>, entries: seq<Availability>, after: Levels, r: Request,
    e: Availability)
    requires MovedBy(catalog, levels, rs, entries, after) && (e.problem == None ==> Resolve(catalog, r).Some?)
    ensures MovedBy(catalog, levels, rs + [r], entries + [e],
                    if e.problem != None then after
                    else Reallocated(after, Key(r, Resolve(catalog, r).value), r.quantity))
  {
    forall k | k in levels ensures Granted(catalog, rs + [r], entries + [e], k) == Granted(catalog, rs, entries, k) +
      if e.problem == None && Concerns(catalog, r, k) then r.quantity else 0
    {
      GrantedSnoc(catalog, rs, entries, r, e, k);
      KeyConcerns(catalog, r, k);
    }
  }

  lemma {:induction false} ReserveMoves(
    catalog: Catalog, levels: Levels, rs: seq<Request>, levelFails: Faults, allocFails: Faults)
    requires Reserve(catalog, levels, rs, levelFails, allocFails).Returned?
    ensures var o := Reserve(catalog, levels, rs, levelFails, allocFails);
            MovedBy(catalog, levels, rs, o.entries, o.levels)
  {
    if rs != [] {
      var n := |rs| - 1;
      ReserveMoves(catalog, levels, rs[..n], levelFails, allocFails);
      var o := Reserve(catalog, levels, rs[..n], levelFails, allocFails);
      var e, _ := LineAnswered(catalog, o, rs[n], levelFails(n), allocFails(n), k => LevelOf(o.levels, k).available);
      MovedSnoc(catalog, levels, rs[..n], o.entries, o.levels, rs[n], e);
      assert rs[..n] + [rs[n]] == rs;
    }
  }

  lemma {:induction false} AnswersSnoc(
    catalog: Catalog, levels: Levels, rs: seq<Request>, entries: seq<Availability>, r: Request, e: Availability, i: nat)
    requires |rs| == |entries| && i < |rs| && AnswerAt(catalog, levels, rs, entries, i)
    ensures AnswerAt(catalog, levels, rs + [r], entries + [e], i)
  {
    assert (rs + [r])[..i] == rs[..i] && (entries + [e])[..i] == entries[..i];
    var left, left' := Left(catalog, levels, rs, entries, i), Left(catalog, levels, rs + [r], entries + [e], i);
    forall k ensures left(k) == left'(k) {}
  }

  lemma {:induction false} AllAnsweredSnoc(catalog: Catalog, levels: Levels, rs: seq<Request>,
                                           entries: seq<Availability>, after: Levels, r: Request, e: Availability)
    requires AnswersAll(catalog, levels, rs, entries) && MovedBy(catalog, levels, rs, entries, after)
    requires Answers(catalog, r, k => LevelOf(after, k).available, e)
    ensures AnswersAll(catalog, levels, rs + [r], entries + [e])
    ensures NoProblems(entries + [e]) <==> NoProblems(entries) && e.problem == None
  {
    LastAnswered(catalog, levels, rs, entries, after, r, e);
    forall i ensures AnswerAt(catalog, levels, rs + [r], entries + [e], i) {
      if 0 <= i < |rs| {
        assert AnswerAt(catalog, levels, rs, entries, i);
        AnswersSnoc(catalog, levels, rs, entries, r, e, i);
      }
    }
    assert forall i :: 0 <= i < |entries| ==> (entries + [e])[i] == entries[i];
    assert (entries + [e])[|entries|] == e;
  }

  lemma {:induction false} ReserveEntries(
    catalog: Catalog, levels: Levels, rs: seq<Request>, levelFails: Faults, allocFails: Faults)
    requires Reserve(catalog, levels, rs, levelFails, allocFails).Returned?
    ensures var o := Reserve(catalog, levels, rs, levelFails, allocFails);
            AnswersAll(catalog, levels, rs, o.entries) && (o.success <==> NoProblems(o.entries))
  {
    if rs != [] {
      var n := |rs| - 1;
      var front, r := rs[..n], rs[n];
      assert front + [r] == rs;
      ReserveEntries(catalog, levels, front, levelFails, allocFails);
      ReserveMoves(catalog, levels, front, levelFails, allocFails);
      var o := Reserve(catalog, levels, front, levelFails, allocFails);
      var e, _ := LineAnswered(catalog, o, r, levelFails(n), allocFails(n), k => LevelOf(o.levels, k).available);
      AllAnsweredSnoc(catalog, levels, front, o.entries, o.levels, r, e);
    }
  }

  /** What a row has left is what its level says after the lines before. */
  lemma {:induction false} LastAnswered(catalog: Catalog, levels: Levels, rs: seq<Request>, entries: seq<Availability>,
                                        after: Levels, r: Request, e: Availability)
    requires MovedBy(catalog, levels, rs, entries, after)
    requires Answers(catalog, r, k => LevelOf(after, k).available, e)
    ensures AnswerAt(catalog, levels, rs + [r], entries + [e], |rs|)
  {
    assert (rs + [r])[..|rs|] == rs && (entries + [e])[..|rs|] == entries;
    var left := Left(catalog, levels, rs + [r], entries + [e], |rs|);
    forall k ensures left(k) == LevelOf(after, k).available {}
  }

  /** One entry per line in order; stock moves from available to reserved by exactly the entries without a problem;
      the return is a success exactly when no entry has one. */
  lemma {:induction false} ReservationFold(
    catalog: Catalog, levels: Levels, rs: seq<Request>, levelFails: Faults, allocFails: Faults)
    requires Reserve(catalog, levels, rs, levelFails, allocFails).Returned?
    ensures var o := Reserve(catalog, levels, rs, levelFails, allocFails);
            && AnswersAll(catalog, levels, rs, o.entries) && (o.success <==> NoProblems(o.entries))
            && MovedBy(catalog, levels, rs, o.entries, o.levels)
  {
    ReserveEntries(catalog, levels, rs, levelFails, allocFails);
    ReserveMoves(catalog, levels, rs, levelFails, allocFails);
  }

  // ---- How the call ends ----

  /** Line `i` ends the call: it has no identifier, or its item is found and the level lookup fails. */
  predicate StopsAt(catalog: Catalog, rs: seq<Request>, levelFails: Faults, i: int) {
    0 <= i < |rs| &&
    var r := rs[i];
    || (r.product == None && r.sku == "")
    || ((if r.product.Some? then r.product.value in catalog.byId else r.sku in catalog.bySku) && levelFails(i))
  }

  ghost predicate FirstStop(catalog: Catalog, rs: seq<Request>, levelFails: Faults, i: int) {
    StopsAt(catalog, rs, levelFails, i) && forall j :: 0 <= j < i ==> !StopsAt(catalog, rs, levelFails, j)
  }

  /** The call returns normally exactly when no line ends it; otherwise the first such line decides between the error
      for a missing identifier and the crash. */
  lemma {:induction false} EndsExactly(
    catalog: Catalog, levels: Levels, rs: seq<Request>, levelFails: Faults, allocFails: Faults)
    ensures var o := Reserve(catalog, levels, rs, levelFails, allocFails);
            && (o.Returned? <==> forall i :: !StopsAt(catalog, rs, levelFails, i))
            && (o.NoIdentifier? <==>
                  exists i :: FirstStop(catalog, rs, levelFails, i) && rs[i].product == None && rs[i].sku == "")
  {
    if rs != [] {
      var n := |rs| - 1;
      var front := rs[..n];
      EndsExactly(catalog, levels, front, levelFails, allocFails);
      var o := Reserve(catalog, levels, front, levelFails, allocFails);
      assert forall i :: i < n ==> (StopsAt(catalog, front, levelFails, i) <==> StopsAt(catalog, rs, levelFails, i));
      if o.Returned? {
        assert StopsAt(catalog, rs, levelFails, n) ==> FirstStop(catalog, rs, levelFails, n);
      } else {
        var i :| StopsAt(catalog, front, levelFails, i);
        assert StopsAt(catalog, rs, levelFails, i);
        forall j ensures FirstStop(catalog, front, levelFails, j) <==> FirstStop(catalog, rs, levelFails, j) {
          StopsAgree(catalog, rs, levelFails, i, j);
        }
      }
    }
  }

  lemma {:induction false} StopsAgree(catalog: Catalog, rs: seq<Request>, levelFails: Faults, i: int, j: int)
    requires rs != [] && StopsAt(catalog, rs[..|rs| - 1], levelFails, i)
    ensures FirstStop(catalog, rs[..|rs| - 1], levelFails, j) <==> FirstStop(catalog, rs, levelFails, j)
  {
    var n := |rs| - 1;
    assert forall k :: k < n ==> (StopsAt(catalog, rs[..n], levelFails, k) <==> StopsAt(catalog, rs, levelFails, k));
    assert StopsAt(catalog, rs, levelFails, i);
  }

  /** However the call ends, available plus reserved is unchanged on every row and available does not turn negative. */
  lemma {:induction false} StockConserved(
    catalog: Catalog, levels: Levels, rs: seq<Request>, levelFails: Faults, allocFails: Faults, k: Product)
    requires k in levels
    ensures var l := Reserve(catalog, levels, rs, levelFails, allocFails).levels;
            k in l && l[k].available + l[k].reserved == levels[k].available + levels[k].reserved &&
            l[k].quantity == levels[k].quantity && (levels[k].available >= 0 ==> l[k].available >= 0)
  {
    if rs != [] { StockConserved(catalog, levels, rs[..|rs| - 1], levelFails, allocFails, k); }
  }

  // ---- The same acceptance test as creating an order ----

  function Available(levels: Levels): Stock { map k | k in levels :: levels[k].available }

  predicate AllFound(catalog: Catalog, rs: seq<Request>) {
    forall i :: 0 <= i < |rs| ==>
      (rs[i].product.Some? || rs[i].sku != "") && Resolve(catalog, rs[i]).Some?
  }

  /** The lines as an order would list them. */
  function Wanted(catalog: Catalog, rs: seq<Request>): (lines: seq<Line>)
    requires AllFound(catalog, rs)
    ensures |lines| == |rs|
  {
    seq(|rs|, i requires 0 <= i < |rs| => Line(Key(rs[i], Resolve(catalog, rs[i]).value), rs[i].quantity))
  }

  ghost predicate NoFaults(f: Faults) { forall i :: !f(i) }

  lemma {:induction false} AvailableAfter(levels: Levels, k: Product, q: int)
    requires CanAllocate(levels, k, q)
    ensures TakeLine(Available(levels), Line(k, q)) == Placed(Available(Allocate(levels, k, q)))
  {
    assert Available(levels)[k := levels[k].available - q] == Available(Allocate(levels, k, q));
  }

  /** With no database failure and every item found, the reservation succeeds exactly when creating the order would,
      and leaves exactly the stock that would leave. */
  lemma {:induction false} ReservesWhatOrderTakes(
    catalog: Catalog, levels: Levels, rs: seq<Request>, levelFails: Faults, allocFails: Faults)
    requires NoFaults(levelFails) && NoFaults(allocFails) && AllFound(catalog, rs)
    ensures var o := Reserve(catalog, levels, rs, levelFails, allocFails);
            var p := Place(Available(levels), Wanted(catalog, rs));
            o.Returned? && (o.success <==> p.Placed?) && (o.success ==> Available(o.levels) == p.stock)
  {
    if rs != [] {
      var n := |rs| - 1;
      ReservesWhatOrderTakes(catalog, levels, rs[..n], levelFails, allocFails);
      var o := Reserve(catalog, levels, rs[..n], levelFails, allocFails);
      var lines := Wanted(catalog, rs);
      assert lines[..n] == Wanted(catalog, rs[..n]);
      var l := lines[n];
      assert !levelFails(n) && !allocFails(n);
      if o.success && CanAllocate(o.levels, l.product, l.quantity) {
        AvailableAfter(o.levels, l.product, l.quantity);
      }
    }
  }

  /** So with non-negative quantities it succeeds exactly when every product's summed demand fits. */
  lemma {:induction false} SucceedsByTotals(
    catalog: Catalog, levels: Levels, rs: seq<Request>, levelFails: Faults, allocFails: Faults)
    requires NoFaults(levelFails) && NoFaults(allocFails) && AllFound(catalog, rs)
    requires NonNegativeQuantities(Wanted(catalog, rs))
    ensures var o := Reserve(catalog, levels, rs, levelFails, allocFails);
            o.Returned? && (o.success <==> TotalsFit(Available(levels), Wanted(catalog, rs)))
  {
    ReservesWhatOrderTakes(catalog, levels, rs, levelFails, allocFails);
    AcceptedByTotals(Available(levels), Wanted(catalog, rs));
  }
}
