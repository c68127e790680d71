/** Orders and the inventory quantities they draw on, as the logistics engine updates them:
    `create_order` and `update_order_status` of the order service, `adjust_quantity` and
    `create_transaction` of the inventory service, run one call at a time. */
module OrderStore {
  import opened OrderLines

  datatype Status = Pending | Processing | Shipped | Delivered | Cancelled | Returned | OutOfStock

  datatype Order = Order(lines: seq<Line>, status: Status)

  /** A row of the inventory ledger. */
  datatype Entry = Entry(item: Product, kind: string, quantity: int)

  /** Order ids are positions: a new id is never the id of a stored order. */
  datatype Store = Store(stock: Stock, orders: seq<Order>, ledger: seq<Entry>, warehouses: set<nat>)

  datatype Action =
    | CreateOrder(lines: seq<Line>)
    | SetStatus(id: nat, status: Status)
    | Adjust(item: Product, delta: int)
    | Transact(entry: Entry, warehouse: nat)

  datatype Reply =
    | Stored(id: int)
    | Insufficient(product: Product)
    | Done
    | NotFound
    | Invalid

  datatype Result = Result(store: Store, reply: Reply)

  // ---- Specification of each call ----

  function Create(s: Store, lines: seq<Line>): Result {
    match Place(s.stock, lines)
    case Short(p) => Result(s, Insufficient(p))
    case Placed(stock) => Result(s.(stock := stock, orders := s.orders + [Order(lines, Pending)]), Stored(|s.orders|))
  }

  /** `UPDATE ... SET quantity = quantity + q WHERE id = p` for each line; a missing row is skipped. */
  function Restore(stock: Stock, lines: seq<Line>): Stock {
    if lines == [] then stock
    else
      var s := Restore(stock, lines[..|lines| - 1]);
      var l := lines[|lines| - 1];
      if l.product in s then s[l.product := s[l.product] + l.quantity] else s
  }

  function ChangeStatus(s: Store, id: nat, status: Status): Result {
    if id >= |s.orders| then Result(s, NotFound)
    else if s.orders[id].status == status then Result(s, Done)
    else
      var stock := if status == Cancelled then Restore(s.stock, s.orders[id].lines) else s.stock;
      Result(s.(stock := stock, orders := s.orders[id := s.orders[id].(status := status)]), Done)
  }

  function AdjustQuantity(s: Store, item: Product, delta: int): Result {
    if item !in s.stock then Result(s, NotFound)
    else if s.stock[item] + delta < 0 then Result(s, Invalid)
    else Result(s.(stock := s.stock[item := s.stock[item] + delta]), Done)
  }

  /** What a ledger entry does to its item's quantity; an unknown kind does nothing. */
  function Signed(e: Entry): int {
    if e.kind == "add" || e.kind == "release" then e.quantity
    else if e.kind == "remove" || e.kind == "allocate" then -e.quantity
    else 0
  }

  predicate KnownKind(kind: string) {
    kind == "add" || kind == "release" || kind == "remove" || kind == "allocate"
  }

  /** The entry is written before its kind is checked, and its quantity is not guarded. */
  function RecordTransaction(s: Store, e: Entry, warehouse: nat): Result {
    if e.item !in s.stock || warehouse !in s.warehouses then Result(s, NotFound)
    else
      var s' := s.(ledger := s.ledger + [e]);
      if !KnownKind(e.kind) then Result(s', Invalid)
      else Result(s'.(stock := s.stock[e.item := s.stock[e.item] + Signed(e)]), Done)
  }

  function Step(s: Store, a: Action): Result {
    match a
    case CreateOrder(lines) => Create(s, lines)
    case SetStatus(id, status) => ChangeStatus(s, id, status)
    case Adjust(item, delta) => AdjustQuantity(s, item, delta)
    case Transact(e, w) => RecordTransaction(s, e, w)
  }

  function Run(s: Store, acts: seq<Action>): Store {
    if acts == [] then s else Step(Run(s, acts[..|acts| - 1]), acts[|acts| - 1]).store
  }

  // ---- The services, in place ----

  class LogisticsService {
    var stock: Stock
    var orders: seq<Order>
    var ledger: seq<Entry>
    const warehouses: set<nat>

    constructor (stock: Stock, warehouses: set<nat>)
      ensures View() == Store(stock, [], [], warehouses)
    {
      this.stock, this.orders, this.ledger, this.warehouses := stock, [], [], warehouses;
    }

    ghost function View(): Store reads this { Store(stock, orders, ledger, warehouses) }

    /** `order_repository.update`: sets the status of a stored order, if there is one. */
    method UpdateOrder(id: nat, status: Status) returns (found: bool)
      modifies this`orders
      ensures found <==> id < |old(orders)|
      ensures orders == if found then old(orders)[id := old(orders)[id].(status := status)] else old(orders)
    {
      found := id < |orders|;
      if found { orders := orders[id := orders[id].(status := status)]; }
    }

    /** The transaction works on `txStock` and `txOrders`; commit publishes them, rollback drops them. */
    method CreateOrder(lines: seq<Line>) returns (reply: Reply)
      modifies this`stock, this`orders
      ensures Result(View(), reply) == Create(old(View()), lines)
    {
      var txStock, txOrders := stock, orders;
      var id := |txOrders|;
      txOrders := txOrders + [Order(lines, Pending)];
      for i := 0 to |lines|
        invariant stock == old(stock) && orders == old(orders)
        invariant Place(stock, lines[..i]) == Placed(txStock)
      {
        var l := lines[i];
        assert lines[..i + 1] == lines[..i] + [l];
        PlaceSnoc(stock, lines[..i], l);
        if l.product in txStock && txStock[l.product] >= l.quantity {
          txStock := txStock[l.product := txStock[l.product] - l.quantity];
        } else {
          ShortPersists(stock, lines, i + 1);
          var found := UpdateOrder(id, OutOfStock);
          reply := if found then Stored(id) else Insufficient(l.product);
          return;
        }
      }
      assert lines[..|lines|] == lines;
      stock, orders := txStock, txOrders;
      reply := Stored(id);
    }

    method UpdateOrderStatus(id: nat, status: Status) returns (reply: Reply)
      modifies this`stock, this`orders
      ensures Result(View(), reply) == ChangeStatus(old(View()), id, status)
    {
      if id >= |orders| { return NotFound; }
      var order := orders[id];
      if order.status == status { return Done; }
      var txStock := stock;
      if status == Cancelled {
        for i := 0 to |order.lines|
          invariant txStock == Restore(stock, order.lines[..i])
        {
          var l := order.lines[i];
          assert order.lines[..i + 1][..i] == order.lines[..i];
          if l.product in txStock {
            txStock := txStock[l.product := txStock[l.product] + l.quantity];
          }
        }
        assert order.lines[..|order.lines|] == order.lines;
      }
      stock, orders := txStock, orders[id := order.(status := status)];
      reply := Done;
    }

    method AdjustItem(item: Product, delta: int) returns (reply: Reply)
      modifies this`stock
      ensures Result(View(), reply) == AdjustQuantity(old(View()), item, delta)
    {
      if item !in stock { return NotFound; }
      if stock[item] + delta < 0 { return Invalid; }
      stock := stock[item := stock[item] + delta];
      reply := Done;
    }

    method CreateTransaction(e: Entry, warehouse: nat) returns (reply: Reply)
      modifies this`stock, this`ledger
      ensures Result(View(), reply) == RecordTransaction(old(View()), e, warehouse)
    {
      if e.item !in stock { return NotFound; }
      if warehouse !in warehouses { return NotFound; }
      ledger := ledger + [e];
      var delta;
      if e.kind == "add" || e.kind == "release" {
        delta := e.quantity;
      } else if e.kind == "remove" || e.kind == "allocate" {
        delta := -e.quantity;
      } else {
        return Invalid;
      }
      stock := stock[e.item := stock[e.item] + delta];
      reply := Done;
    }
  }

  // ---- The stock equation ----

  /** Quantity of `p` held by orders that are not cancelled. */
  function Held(orders: seq<Order>, p: Product): int {
    if orders == [] then 0
    else
      var o := orders[|orders| - 1];
      Held(orders[..|orders| - 1], p) + if o.status == Cancelled then 0 else Demand(o.lines, p)
  }

  /** Summed quantity of the ledger entries of one kind for one item. */
  function Entered(ledger: seq<Entry>, kind: string, p: Product): int {
    if ledger == [] then 0
    else
      var e := ledger[|ledger| - 1];
      Entered(ledger[..|ledger| - 1], kind, p) + if e.kind == kind && e.item == p then e.quantity else 0
  }

  /** What the ledger says was put in, less what it says was taken out. */
  function LedgerNet(ledger: seq<Entry>, p: Product): int {
    Entered(ledger, "add", p) + Entered(ledger, "release", p)
    - Entered(ledger, "remove", p) - Entered(ledger, "allocate", p)
  }

  lemma LedgerSnoc(ledger: seq<Entry>, e: Entry, p: Product)
    ensures LedgerNet(ledger + [e], p) == LedgerNet(ledger, p) + if e.item == p then Signed(e) else 0
  {
    assert (ledger + [e])[..|ledger|] == ledger;
  }

  /** Adjustments that took effect, as seen by `p`. */
  function Adjusted(s: Store, a: Action, p: Product): int
    requires p in s.stock
  {
    if a.Adjust? && a.item == p && s.stock[p] + a.delta >= 0 then a.delta else 0
  }

  /** The lines of an accepted order. */
  ghost function Taken(s: Store, a: Action, p: Product): int
    requires p in s.stock
  {
    if a.CreateOrder? && PrefixesFit(s.stock, a.lines) then Demand(a.lines, p) else 0
  }

  /** The lines of an order that goes from another status into Cancelled. */
  function GivenBack(s: Store, a: Action, p: Product): int
    requires p in s.stock
  {
    if a.SetStatus? && a.status == Cancelled && a.id < |s.orders| && s.orders[a.id].status != Cancelled
    then Demand(s.orders[a.id].lines, p) else 0
  }

  /** Adjustments that took effect, and demand of orders taken out of Cancelled. */
  function Injected(s: Store, a: Action, p: Product): int
    requires p in s.stock
  {
    Adjusted(s, a, p) +
    if a.SetStatus? && a.status != Cancelled && a.id < |s.orders| && s.orders[a.id].status == Cancelled
    then Demand(s.orders[a.id].lines, p) else 0
  }

  lemma {:induction false} RestoreAdds(stock: Stock, lines: seq<Line>)
    ensures Restore(stock, lines).Keys == stock.Keys
    ensures forall p :: p in stock ==> Restore(stock, lines)[p] == stock[p] + Demand(lines, p)
  {
    if lines != [] { RestoreAdds(stock, lines[..|lines| - 1]); }
  }

  lemma StepChanges(s: Store, a: Action, p: Product)
    requires p in s.stock
    ensures Step(s, a).store.stock.Keys == s.stock.Keys
    ensures Step(s, a).store.stock[p] == s.stock[p] + Adjusted(s, a, p) - Taken(s, a, p) + GivenBack(s, a, p)
                                         + LedgerNet(Step(s, a).store.ledger, p) - LedgerNet(s.ledger, p)
  {
    match a
    case CreateOrder(lines) => PlaceByPrefixes(s.stock, lines);
    case SetStatus(id, status) => if id < |s.orders| { RestoreAdds(s.stock, s.orders[id].lines); }
    case Adjust(_, _) =>
    case Transact(e, _) => LedgerSnoc(s.ledger, e, p);
  }

  lemma {:induction false} ItemsKept(s: Store, acts: seq<Action>)
    ensures Run(s, acts).stock.Keys == s.stock.Keys
  {
    if acts != [] {
      ItemsKept(s, acts[..|acts| - 1]);
      var t := Run(s, acts[..|acts| - 1]);
      match acts[|acts| - 1]
      case CreateOrder(lines) => PlaceByPrefixes(t.stock, lines);
      case SetStatus(id, status) => if id < |t.orders| { RestoreAdds(t.stock, t.orders[id].lines); }
      case _ =>
    }
  }

  /** Sum over a run of what `f` says of each call in the state the call meets. */
  ghost function Total(f: (Store, Action, Product) --> int, s: Store, acts: seq<Action>, p: Product): int
    requires p in s.stock
    requires forall t: Store, a: Action :: p in t.stock ==> f.requires(t, a, p)
  {
    if acts == [] then 0
    else
      ItemsKept(s, acts[..|acts| - 1]);
      Total(f, s, acts[..|acts| - 1], p) + f(Run(s, acts[..|acts| - 1]), acts[|acts| - 1], p)
  }

  /** On every run and for every product, stock is the start, plus adjustments, less the lines of accepted orders,
      plus the lines of each step into Cancelled, plus what was added and released and less what was removed and
      allocated through the ledger. */
  lemma {:induction false} StockEquation(s: Store, acts: seq<Action>, p: Product)
    requires p in s.stock
    ensures p in Run(s, acts).stock
    ensures var t := Run(s, acts);
            && t.stock[p] - s.stock[p] ==
               Total(Adjusted, s, acts, p) - Total(Taken, s, acts, p) + Total(GivenBack, s, acts, p)
               + (Entered(t.ledger, "add", p) - Entered(s.ledger, "add", p))
               + (Entered(t.ledger, "release", p) - Entered(s.ledger, "release", p))
               - (Entered(t.ledger, "remove", p) - Entered(s.ledger, "remove", p))
               - (Entered(t.ledger, "allocate", p) - Entered(s.ledger, "allocate", p))
  {
    ItemsKept(s, acts);
    if acts != [] {
      StockEquation(s, acts[..|acts| - 1], p);
      ItemsKept(s, acts[..|acts| - 1]);
      StepChanges(Run(s, acts[..|acts| - 1]), acts[|acts| - 1], p);
    }
  }

  lemma HeldSnoc(orders: seq<Order>, o: Order, p: Product)
    ensures Held(orders + [o], p) == Held(orders, p) + if o.status == Cancelled then 0 else Demand(o.lines, p)
  {
    assert (orders + [o])[..|orders|] == orders;
  }

  lemma {:induction false} HeldUpdate(orders: seq<Order>, id: nat, o: Order, p: Product)
    requires id < |orders|
    ensures Held(orders[id := o], p) ==
            Held(orders, p) - (if orders[id].status == Cancelled then 0 else Demand(orders[id].lines, p))
                            + (if o.status == Cancelled then 0 else Demand(o.lines, p))
  {
    var n := |orders| - 1;
    if id == n {
      assert orders[id := o][..n] == orders[..n];
    } else {
      assert orders[id := o][..n] == orders[..n][id := o];
      HeldUpdate(orders[..n], id, o, p);
    }
  }

  /** Stock plus what open orders hold, less what the ledger put in. */
  function Balance(s: Store, p: Product): int
    requires p in s.stock
  {
    s.stock[p] + Held(s.orders, p) - LedgerNet(s.ledger, p)
  }

  lemma StepBalances(s: Store, a: Action, p: Product)
    requires p in s.stock
    ensures p in Step(s, a).store.stock
    ensures Balance(Step(s, a).store, p) == Balance(s, p) + Injected(s, a, p)
  {
    StepChanges(s, a, p);
    match a
    case CreateOrder(lines) => PlaceByPrefixes(s.stock, lines); HeldSnoc(s.orders, Order(lines, Pending), p);
    case SetStatus(id, status) =>
      if id < |s.orders| { HeldUpdate(s.orders, id, s.orders[id].(status := status), p); }
    case Adjust(_, _) =>
    case Transact(e, w) =>
  }

  /** On every run the balance moves only by adjustments and by orders that leave Cancelled. */
  lemma {:induction false} BalanceEquation(s: Store, acts: seq<Action>, p: Product)
    requires p in s.stock
    ensures p in Run(s, acts).stock && Balance(Run(s, acts), p) == Balance(s, p) + Total(Injected, s, acts, p)
  {
    ItemsKept(s, acts);
    if acts != [] {
      BalanceEquation(s, acts[..|acts| - 1], p);
      ItemsKept(s, acts[..|acts| - 1]);
      StepBalances(Run(s, acts[..|acts| - 1]), acts[|acts| - 1], p);
    }
  }

  /** No call adjusts `p`, and none takes an order out of Cancelled. */
  ghost predicate NothingInjected(s: Store, acts: seq<Action>, p: Product) {
    acts == [] ||
    (NothingInjected(s, acts[..|acts| - 1], p) &&
     match acts[|acts| - 1]
     case Adjust(item, _) => item != p
     case SetStatus(id, status) =>
       var t := Run(s, acts[..|acts| - 1]);
       status == Cancelled || id >= |t.orders| || t.orders[id].status != Cancelled
     case _ => true)
  }

  /** Then stock plus open demand is conserved, up to the ledger. */
  lemma {:induction false} StockAndDemandConserved(s: Store, acts: seq<Action>, p: Product)
    requires p in s.stock && NothingInjected(s, acts, p)
    ensures p in Run(s, acts).stock && Balance(Run(s, acts), p) == Balance(s, p)
  {
    if acts != [] {
      StockAndDemandConserved(s, acts[..|acts| - 1], p);
      StepBalances(Run(s, acts[..|acts| - 1]), acts[|acts| - 1], p);
    }
  }

  /** Reopening a cancelled order holds demand that no stock was taken for. */
  lemma ReopeningBreaksConservation(s: Store, id: nat, status: Status, p: Product)
    requires p in s.stock && id < |s.orders| && s.orders[id].status == Cancelled && status != Cancelled
    ensures p in ChangeStatus(s, id, status).store.stock
    ensures ChangeStatus(s, id, status).store.stock == s.stock
    ensures Balance(ChangeStatus(s, id, status).store, p) == Balance(s, p) + Demand(s.orders[id].lines, p)
  {
    StepBalances(s, SetStatus(id, status), p);
  }

  /** Cancelling twice in a row is cancelling once. */
  lemma CancelTwice(s: Store, id: nat)
    ensures var once := ChangeStatus(s, id, Cancelled).store;
            ChangeStatus(once, id, Cancelled).store == once
  {}

  /** Cancelling an order that was just accepted gives back exactly the stock it took. */
  lemma CreateThenCancelRestores(s: Store, lines: seq<Line>)
    ensures var r := Create(s, lines);
            r.reply.Stored? ==> r.reply.id >= 0 && ChangeStatus(r.store, r.reply.id, Cancelled).store.stock == s.stock
    ensures Create(s, lines).reply.Insufficient? ==> Create(s, lines).store == s
  {
    var r := Create(s, lines);
    if r.reply.Stored? {
      PlaceByPrefixes(s.stock, lines);
      RestoreAdds(r.store.stock, lines);
      assert Restore(r.store.stock, lines) == s.stock;
    }
  }

  /** The order the rejection path wants to mark is not stored: the rollback removed it. So an order is refused
      exactly when some running total does not fit, and then nothing is left behind. */
  lemma RejectedOrderIsNotKept(s: Store, lines: seq<Line>)
    ensures Create(s, lines).reply.Insufficient? <==> !PrefixesFit(s.stock, lines)
    ensures Create(s, lines).reply.Insufficient? ==> Create(s, lines).store == s
  {
    PlaceByPrefixes(s.stock, lines);
  }

  // ---- What each call answers and leaves ----

  /** Through the ledger, "add" and "release" put the quantity in, "remove" and "allocate" take it out,
      whatever its sign and however little is left. */
  lemma LedgerMovesStock(s: Store, item: Product, q: int, w: nat)
    requires item in s.stock && w in s.warehouses
    ensures forall kind :: kind == "add" || kind == "release" ==>
              var e := Entry(item, kind, q);
              RecordTransaction(s, e, w) ==
              Result(s.(ledger := s.ledger + [e], stock := s.stock[item := s.stock[item] + q]), Done)
    ensures forall kind :: kind == "remove" || kind == "allocate" ==>
              var e := Entry(item, kind, q);
              RecordTransaction(s, e, w) ==
              Result(s.(ledger := s.ledger + [e], stock := s.stock[item := s.stock[item] - q]), Done)
  {}

  /** An accepted order is stored last, pending, with its lines, under the id the caller gets. */
  lemma CreateStores(s: Store, lines: seq<Line>)
    ensures var r := Create(s, lines);
            if PrefixesFit(s.stock, lines) then
              && r.reply == Stored(|s.orders|) && r.store.orders == s.orders + [Order(lines, Pending)]
              && r.store.ledger == s.ledger && r.store.warehouses == s.warehouses
              && r.store.stock.Keys == s.stock.Keys
              && forall p :: p in s.stock ==> r.store.stock[p] == s.stock[p] - Demand(lines, p)
            else r.reply.Insufficient? && r.store == s
  {
    PlaceByPrefixes(s.stock, lines);
  }

  /** A refused order names the product of the first line that does not fit. */
  lemma RefusalNamesFirst(s: Store, lines: seq<Line>, p: Product)
    ensures Create(s, lines).reply == Insufficient(p) <==> exists k :: FirstShort(s.stock, lines, k, p)
  {
    ShortNamesFirst(s.stock, lines, p);
  }

  /** A status change answers for unknown orders, and otherwise leaves exactly the asked status on that order alone. */
  lemma StatusIsSet(s: Store, id: nat, status: Status)
    ensures var r := ChangeStatus(s, id, status);
            if id >= |s.orders| then r == Result(s, NotFound)
            else
              && r.reply == Done && r.store.orders == s.orders[id := Order(s.orders[id].lines, status)]
              && r.store.ledger == s.ledger && r.store.warehouses == s.warehouses
  {}

  /** The status an order was last given. */
  function LastStatus(acts: seq<Action>, id: nat, status: Status): Status {
    if acts == [] then status
    else
      var a := acts[|acts| - 1];
      if a.SetStatus? && a.id == id then a.status else LastStatus(acts[..|acts| - 1], id, status)
  }

  /** On every run an order keeps its lines and has the status it was last given. */
  lemma {:induction false} OrderIsLastSet(s: Store, acts: seq<Action>, id: nat)
    requires id < |s.orders|
    ensures id < |Run(s, acts).orders|
    ensures Run(s, acts).orders[id] == Order(s.orders[id].lines, LastStatus(acts, id, s.orders[id].status))
  {
    if acts != [] { OrderIsLastSet(s, acts[..|acts| - 1], id); }
  }

  /** An adjustment is refused exactly when the item is unknown or would go negative. */
  lemma AdjustAnswers(s: Store, item: Product, delta: int)
    ensures var r := AdjustQuantity(s, item, delta);
            if item !in s.stock then r == Result(s, NotFound)
            else if s.stock[item] < -delta then r == Result(s, Invalid)
            else r == Result(s.(stock := s.stock[item := s.stock[item] + delta]), Done)
  {}

  /** An unknown kind is refused exactly when the item and the warehouse exist, and its entry is kept all the same;
      stock and orders are as they were. */
  lemma UnknownKindIsKept(s: Store, e: Entry, warehouse: nat)
    ensures var r := RecordTransaction(s, e, warehouse);
            && (r.reply == Invalid <==> e.item in s.stock && warehouse in s.warehouses && !KnownKind(e.kind))
            && (r.reply == Invalid ==> r.store == s.(ledger := s.ledger + [e]))
            && (r.reply == NotFound <==> e.item !in s.stock || warehouse !in s.warehouses)
            && (r.reply == NotFound ==> r.store == s)
  {}

  // ---- When stock stays non-negative ----

  /** `create_transaction` does not look at the quantity left: removing from an empty item succeeds. */
  lemma UnguardedRemoval(s: Store, item: Product, q: int, w: nat)
    requires item in s.stock && s.stock[item] == 0 && q > 0 && w in s.warehouses
    ensures var r := RecordTransaction(s, Entry(item, "remove", q), w);
            r.reply == Done && item in r.store.stock && r.store.stock[item] == -q
  {}

  /** The calls that nothing in the code guards: a ledger entry, and giving back the lines of an order. */
  ghost predicate Safe(s: Store, a: Action) {
    match a
    case Transact(e, w) =>
      e.item in s.stock && w in s.warehouses ==>
        && (e.kind == "add" || e.kind == "release" ==> s.stock[e.item] + e.quantity >= 0)
        && (e.kind == "remove" || e.kind == "allocate" ==> s.stock[e.item] - e.quantity >= 0)
    case SetStatus(id, status) =>
      id < |s.orders| && status == Cancelled && s.orders[id].status != Cancelled ==>
        forall p :: p in s.stock ==> s.stock[p] + Demand(s.orders[id].lines, p) >= 0
    case _ => true
  }

  /** One call keeps stock non-negative exactly when it is safe. */
  lemma SafeExactly(s: Store, a: Action)
    requires NonNegative(s.stock)
    ensures NonNegative(Step(s, a).store.stock) <==> Safe(s, a)
  {
    var s' := Step(s, a).store;
    match a
    case CreateOrder(lines) => PlaceKeepsNonNegative(s.stock, lines);
    case SetStatus(id, status) => if id < |s.orders| { RestoreAdds(s.stock, s.orders[id].lines); }
    case Adjust(item, delta) =>
    case Transact(e, w) =>
      if e.item in s.stock && w in s.warehouses { assert s'.stock[e.item] == s.stock[e.item] + Signed(e); }
  }

  ghost predicate NeverNegative(s: Store, acts: seq<Action>) {
    NonNegative(Run(s, acts).stock) && (acts == [] || NeverNegative(s, acts[..|acts| - 1]))
  }

  ghost predicate AllSafe(s: Store, acts: seq<Action>) {
    acts == [] || (AllSafe(s, acts[..|acts| - 1]) && Safe(Run(s, acts[..|acts| - 1]), acts[|acts| - 1]))
  }

  /** Stock is non-negative after every call of a run exactly when every call is safe in the state it meets. */
  lemma {:induction false} NeverNegativeExactly(s: Store, acts: seq<Action>)
    requires NonNegative(s.stock)
    ensures NeverNegative(s, acts) <==> AllSafe(s, acts)
  {
    if acts != [] {
      var front := acts[..|acts| - 1];
      NeverNegativeExactly(s, front);
      if NonNegative(Run(s, front).stock) { SafeExactly(Run(s, front), acts[|acts| - 1]); }
      assert NeverNegative(s, front) ==> NonNegative(Run(s, front).stock);
    }
  }

  /** Every stored order has the quantities the DTO asks for. */
  ghost predicate OrdersNonNegative(s: Store) {
    forall id :: 0 <= id < |s.orders| ==> NonNegativeQuantities(s.orders[id].lines)
  }

  ghost predicate CreatesNonNegative(acts: seq<Action>) {
    forall k :: 0 <= k < |acts| && acts[k].CreateOrder? ==> NonNegativeQuantities(acts[k].lines)
  }

  ghost predicate LedgerSafe(s: Store, acts: seq<Action>) {
    acts == [] ||
    (LedgerSafe(s, acts[..|acts| - 1]) &&
     (acts[|acts| - 1].Transact? ==> Safe(Run(s, acts[..|acts| - 1]), acts[|acts| - 1])))
  }

  lemma {:induction false} OrdersStayNonNegative(s: Store, acts: seq<Action>)
    requires OrdersNonNegative(s) && CreatesNonNegative(acts)
    ensures OrdersNonNegative(Run(s, acts))
  {
    if acts != [] {
      var front := acts[..|acts| - 1];
      assert forall k :: 0 <= k < |front| ==> front[k] == acts[k];
      OrdersStayNonNegative(s, front);
    }
  }

  lemma CancelSafe(s: Store, a: Action)
    requires NonNegative(s.stock) && OrdersNonNegative(s) && !a.Transact?
    ensures Safe(s, a)
  {
    if a.SetStatus? && a.id < |s.orders| {
      var lines := s.orders[a.id].lines;
      forall p ensures Demand(lines, p) >= 0 {
        DemandMonotone(lines, 0, p);
        assert lines[..0] == [];
      }
    }
  }

  /** With those quantities only the ledger can make stock negative. */
  lemma {:induction false} OnlyLedgerGoesNegative(s: Store, acts: seq<Action>)
    requires NonNegative(s.stock) && OrdersNonNegative(s) && CreatesNonNegative(acts)
    ensures NeverNegative(s, acts) <==> LedgerSafe(s, acts)
  {
    if acts != [] {
      var front := acts[..|acts| - 1];
      assert forall k :: 0 <= k < |front| ==> front[k] == acts[k];
      OnlyLedgerGoesNegative(s, front);
      OrdersStayNonNegative(s, front);
      var t := Run(s, front);
      assert NeverNegative(s, front) ==> NonNegative(t.stock);
      if NonNegative(t.stock) {
        SafeExactly(t, acts[|acts| - 1]);
        if !acts[|acts| - 1].Transact? { CancelSafe(t, acts[|acts| - 1]); }
      }
    }
  }
}
