/** When concurrent `create_order` transactions can deadlock. Orders lock their products line by line in the
    order of the request, so whether a set of requests is safe can be read off the line lists. */
module OrderDeadlock {
  import opened OrderLines
  import opened OrderTransactions

  /** Some step other than a database failure is enabled for `t`. */
  ghost predicate CanMove(db: Db, t: TxnId) {
    Enabled(db, Lock(t)) || Enabled(db, Insert(t)) || Enabled(db, Update(t)) ||
    Enabled(db, Reject(t)) || Enabled(db, Commit(t))
  }

  /** There are unfinished transactions and none of them can move. */
  ghost predicate Deadlocked(db: Db) {
    (exists t :: Active(db, t)) && forall t :: Active(db, t) ==> !CanMove(db, t)
  }

  /** Every transaction of the run is for an order from `menu`. */
  ghost predicate FromMenu(menu: iset<seq<Line>>, steps: seq<Step>) {
    forall k :: 0 <= k < |steps| && steps[k].Begin? ==> steps[k].lines in menu
  }

  // ---- The condition on line lists ----

  /** An order stopped before line `next`. */
  datatype Stopped = Stopped(lines: seq<Line>, next: nat)

  /** The products with a row that the lines before the stop have locked. */
  ghost predicate HoldsProduct(stock: Stock, s: Stopped, p: Product) {
    p in stock && s.next <= |s.lines| && p in Products(s.lines[..s.next])
  }

  ghost predicate HeldBy(stock: Stock, jam: seq<Stopped>, i: nat, p: Product) {
    i < |jam| && HoldsProduct(stock, jam[i], p)
  }

  /** No two of the orders hold the same product. */
  ghost predicate Disjoint(stock: Stock, jam: seq<Stopped>) {
    forall i, j, p :: HeldBy(stock, jam, i, p) && HeldBy(stock, jam, j, p) ==> i == j
  }

  ghost predicate StoppedAt(menu: iset<seq<Line>>, s: Stopped) {
    s.lines in menu && s.next < |s.lines|
  }

  /** Order `i` is from `menu` and stopped before a product that order `j` holds. */
  ghost predicate WaitsFor(menu: iset<seq<Line>>, stock: Stock, jam: seq<Stopped>, i: nat, j: nat) {
    i < |jam| && i != j && StoppedAt(menu, jam[i]) && HeldBy(stock, jam, j, jam[i].lines[jam[i].next].product)
  }

  ghost predicate Stuck(menu: iset<seq<Line>>, stock: Stock, jam: seq<Stopped>, i: nat) {
    exists j :: WaitsFor(menu, stock, jam, i, j)
  }

  /** Orders from `menu` that hold disjoint products, each stopped before a product another of them holds. */
  ghost predicate Jam(menu: iset<seq<Line>>, stock: Stock, jam: seq<Stopped>) {
    jam != [] && Disjoint(stock, jam) && forall i :: 0 <= i < |jam| ==> Stuck(menu, stock, jam, i)
  }

  /** Whom an order of a jam waits for. */
  lemma Blocker(menu: iset<seq<Line>>, stock: Stock, jam: seq<Stopped>, i: nat) returns (j: nat)
    requires Jam(menu, stock, jam) && i < |jam|
    ensures WaitsFor(menu, stock, jam, i, j)
  {
    assert Stuck(menu, stock, jam, i);
    j :| WaitsFor(menu, stock, jam, i, j);
  }

  // ---- A deadlock shows a jam ----

  lemma LinesFixed(db: Db, step: Step, t: TxnId)
    requires t in Apply(db, step).txns
    ensures t !in db.txns ==> step.Begin? && Apply(db, step).txns[t].lines == step.lines
    ensures t in db.txns ==> Apply(db, step).txns[t].lines == db.txns[t].lines
  {}

  lemma {:induction false} MenuKept(menu: iset<seq<Line>>, stock: Stock, steps: seq<Step>)
    requires FromMenu(menu, steps)
    ensures forall t :: t in Run(Start(stock), steps).txns ==> Run(Start(stock), steps).txns[t].lines in menu
  {
    if steps != [] {
      var front, last := steps[..|steps| - 1], steps[|steps| - 1];
      assert forall k :: 0 <= k < |front| ==> front[k] == steps[k];
      MenuKept(menu, stock, front);
      var db, db' := Run(Start(stock), front), Run(Start(stock), steps);
      forall t | t in db'.txns ensures db'.txns[t].lines in menu {
        LinesFixed(db, last, t);
      }
    }
  }

  ghost predicate Waiting(db: Db, t: TxnId) {
    AtLine(db, t) && db.txns[t].phase.Locking? && !FreeFor(db, t, CurrentLine(db, t).product)
  }

  lemma StuckMeansWaiting(stock: Stock, steps: seq<Step>, t: TxnId)
    requires var db := Run(Start(stock), steps); Active(db, t) && !CanMove(db, t)
    ensures Waiting(Run(Start(stock), steps), t)
  {
    var db := Run(Start(stock), steps);
    RunKeeps(stock, steps);
    assert TxnOk(db, t);
    if db.txns[t].phase.Updating? {
      NeverWaitsAfterLocking(stock, steps, t);
    } else {
      assert !Enabled(db, Insert(t)) && !Enabled(db, Lock(t));
    }
  }

  /** A transaction in its locking loop, as a stopped order. */
  function AsStopped(db: Db, t: TxnId): Stopped
    requires AtLine(db, t)
  {
    Stopped(db.txns[t].lines, db.txns[t].phase.next)
  }

  /** What a waiting transaction holds as a stopped order, it has locked. */
  lemma StoppedHolds(stock: Stock, db: Db, t: TxnId, p: Product)
    requires Inv(stock, db) && db.committed.Keys == stock.Keys && Waiting(db, t)
    ensures HoldsProduct(stock, AsStopped(db, t), p) <==> p in db.locks && db.locks[p] == t
  {
    var txn := db.txns[t];
    assert TxnOk(db, t) && LockedLines(txn) == txn.lines[..txn.phase.next];
    if HoldsProduct(stock, AsStopped(db, t), p) {
      var l :| l in txn.lines[..txn.phase.next] && l.product == p;
    }
  }

  lemma {:induction false} Listed(ids: set<TxnId>) returns (list: seq<TxnId>)
    ensures forall t :: t in list <==> t in ids
    ensures forall i, j :: 0 <= i < j < |list| ==> list[i] != list[j]
    decreases |ids|
  {
    if t :| t in ids {
      var rest := Listed(ids - {t});
      list := [t] + rest;
    } else {
      list := [];
    }
  }

  /** The waiting transactions as stopped orders. */
  ghost function AllStopped(db: Db, list: seq<TxnId>): (jam: seq<Stopped>)
    requires forall i :: 0 <= i < |list| ==> AtLine(db, list[i])
    ensures |jam| == |list|
  {
    seq(|list|, i requires 0 <= i < |list| => AsStopped(db, list[i]))
  }

  ghost predicate AllWait(db: Db, list: seq<TxnId>) {
    && (forall i :: 0 <= i < |list| ==> Waiting(db, list[i]))
    && (forall i, j :: 0 <= i < j < |list| ==> list[i] != list[j])
    && (forall t :: Active(db, t) ==> t in list)
  }

  lemma WaitersHold(stock: Stock, db: Db, list: seq<TxnId>, i: nat, p: Product)
    requires Inv(stock, db) && db.committed.Keys == stock.Keys && AllWait(db, list)
    ensures HeldBy(stock, AllStopped(db, list), i, p) <==> i < |list| && p in db.locks && db.locks[p] == list[i]
  {
    if i < |list| { StoppedHolds(stock, db, list[i], p); }
  }

  lemma WaitersStuck(menu: iset<seq<Line>>, stock: Stock, db: Db, list: seq<TxnId>, i: nat)
    requires Inv(stock, db) && db.committed.Keys == stock.Keys && AllWait(db, list)
    requires forall t :: t in db.txns ==> db.txns[t].lines in menu
    requires i < |list|
    ensures Stuck(menu, stock, AllStopped(db, list), i)
  {
    var t := list[i];
    var p := CurrentLine(db, t).product;
    var u := db.locks[p];
    assert Active(db, u) && u in list;
    var j :| 0 <= j < |list| && list[j] == u;
    WaitersHold(stock, db, list, j, p);
    assert WaitsFor(menu, stock, AllStopped(db, list), i, j);
  }

  /** The waiting transactions, listed once each, are a jam. */
  lemma WaitersJam(menu: iset<seq<Line>>, stock: Stock, db: Db, list: seq<TxnId>)
    requires Inv(stock, db) && db.committed.Keys == stock.Keys && AllWait(db, list) && list != []
    requires forall t :: t in db.txns ==> db.txns[t].lines in menu
    ensures Jam(menu, stock, AllStopped(db, list))
  {
    var jam := AllStopped(db, list);
    forall i, j, p | HeldBy(stock, jam, i, p) && HeldBy(stock, jam, j, p) ensures i == j {
      WaitersHold(stock, db, list, i, p);
      WaitersHold(stock, db, list, j, p);
    }
    forall i | 0 <= i < |jam| ensures Stuck(menu, stock, jam, i) { WaitersStuck(menu, stock, db, list, i); }
  }

  lemma DeadlockShowsJam(menu: iset<seq<Line>>, stock: Stock, steps: seq<Step>)
    requires FromMenu(menu, steps) && Deadlocked(Run(Start(stock), steps))
    ensures exists jam :: Jam(menu, stock, jam)
  {
    var db := Run(Start(stock), steps);
    RunKeeps(stock, steps);
    MenuKept(menu, stock, steps);
    SerialStockSells(stock, db.history);
    forall t | Active(db, t) ensures Waiting(db, t) { StuckMeansWaiting(stock, steps, t); }
    var list := Listed(set t | t in db.txns && Active(db, t));
    var a :| Active(db, a);
    assert a in list;
    assert AllWait(db, list) by {
      forall i | 0 <= i < |list| ensures Waiting(db, list[i]) { assert list[i] in list; }
    }
    WaitersJam(menu, stock, db, list);
  }

  // ---- A jam can be run into ----

  lemma RunSnoc(db: Db, steps: seq<Step>, step: Step)
    ensures Run(db, steps + [step]) == Apply(Run(db, steps), step)
  {
    assert (steps + [step])[..|steps|] == steps;
  }

  lemma MenuSnoc(menu: iset<seq<Line>>, steps: seq<Step>, step: Step)
    requires FromMenu(menu, steps) && (step.Begin? ==> step.lines in menu)
    ensures FromMenu(menu, steps + [step])
  {}

  /** Order `t` of the list stands at its stop, and holds `p` just if its lines before the stop do. */
  ghost predicate StagedAt(stock: Stock, jam: seq<Stopped>, db: Db, t: nat, p: Product) {
    t < |jam| ==>
      && t in db.txns && db.txns[t] == Txn(jam[t].lines, Locking(jam[t].next), map[])
      && (HoldsProduct(stock, jam[t], p) <==> p in db.locks && db.locks[p] == t)
  }

  /** The orders of the list stand at their stops, and nothing else goes on. */
  ghost predicate Staged(stock: Stock, jam: seq<Stopped>, db: Db) {
    && db.committed == stock && (forall t :: t in db.txns ==> t < |jam|)
    && (forall p :: p in db.locks ==> db.locks[p] < |jam|)
    && (forall t, p :: StagedAt(stock, jam, db, t, p))
  }

  lemma HolderHolds(stock: Stock, jam: seq<Stopped>, s: Stopped, db: Db, p: Product)
    requires Staged(stock, jam + [s], db) && p in db.locks && db.locks[p] < |jam|
    ensures HoldsProduct(stock, jam[db.locks[p]], p)
  {
    assert StagedAt(stock, jam + [s], db, db.locks[p], p);
  }

  lemma StageLockFree(stock: Stock, jam: seq<Stopped>, s: Stopped, db: Db)
    requires s.next < |s.lines| && Staged(stock, jam + [s], db)
    requires forall i :: 0 <= i < |jam| ==> !HoldsProduct(stock, jam[i], s.lines[s.next].product)
    ensures Enabled(db, Lock(|jam|)) && CurrentLine(db, |jam|) == s.lines[s.next]
    ensures db.txns[|jam|] == Txn(s.lines, Locking(s.next), map[])
  {
    var p := s.lines[s.next].product;
    assert StagedAt(stock, jam + [s], db, |jam|, p);
    if p in db.locks && db.locks[p] < |jam| { HolderHolds(stock, jam, s, db, p); }
  }

  lemma OneMoreHeld(stock: Stock, s: Stopped, p: Product)
    requires s.next < |s.lines|
    ensures HoldsProduct(stock, s.(next := s.next + 1), p) <==>
            HoldsProduct(stock, s, p) || (p in stock && p == s.lines[s.next].product)
  {
    assert s.lines[..s.next + 1] == s.lines[..s.next] + [s.lines[s.next]];
    ProductsSnoc(s.lines[..s.next], s.lines[s.next]);
  }

  /** One more line of the last order. */
  lemma StageLock(stock: Stock, jam: seq<Stopped>, s: Stopped, db: Db)
    requires s.next < |s.lines| && Staged(stock, jam + [s], db)
    requires forall i :: 0 <= i < |jam| ==> !HoldsProduct(stock, jam[i], s.lines[s.next].product)
    ensures Staged(stock, jam + [s.(next := s.next + 1)], Apply(db, Lock(|jam|)))
  {
    var t, l, s' := |jam|, s.lines[s.next], s.(next := s.next + 1);
    StageLockFree(stock, jam, s, db);
    var db' := Apply(db, Lock(t));
    forall u: nat, p ensures StagedAt(stock, jam + [s'], db', u, p) {
      assert StagedAt(stock, jam + [s], db, u, p);
      OneMoreHeld(stock, s, p);
      if u < t {
        assert (jam + [s])[u] == jam[u] && (jam + [s'])[u] == jam[u];
      }
    }
  }

  /** The first `n` lines of a new order. */
  lemma {:induction false} StageOrder(menu: iset<seq<Line>>, stock: Stock, jam: seq<Stopped>, s: Stopped,
                                      n: nat, steps: seq<Step>) returns (more: seq<Step>)
    requires n <= s.next < |s.lines| && s.lines in menu && Disjoint(stock, jam + [s])
    requires FromMenu(menu, steps) && Staged(stock, jam, Run(Start(stock), steps))
    ensures FromMenu(menu, more) && Staged(stock, jam + [s.(next := n)], Run(Start(stock), more))
  {
    var t := |jam|;
    if n == 0 {
      more := steps + [Begin(t, s.lines)];
      MenuSnoc(menu, steps, Begin(t, s.lines));
      RunSnoc(Start(stock), steps, Begin(t, s.lines));
      StageBegin(stock, jam, s, Run(Start(stock), steps));
    } else {
      var before := StageOrder(menu, stock, jam, s, n - 1, steps);
      more := before + [Lock(t)];
      MenuSnoc(menu, before, Lock(t));
      RunSnoc(Start(stock), before, Lock(t));
      NotHeldElsewhere(stock, jam, s, n - 1);
      StageLock(stock, jam, s.(next := n - 1), Run(Start(stock), before));
    }
  }

  lemma StageBegin(stock: Stock, jam: seq<Stopped>, s: Stopped, db: Db)
    requires Staged(stock, jam, db)
    ensures Staged(stock, jam + [s.(next := 0)], Apply(db, Begin(|jam|, s.lines)))
  {
    var t, s' := |jam|, s.(next := 0);
    var db' := Apply(db, Begin(t, s.lines));
    forall u: nat, p ensures StagedAt(stock, jam + [s'], db', u, p) {
      assert StagedAt(stock, jam, db, u, p);
      assert s'.lines[..0] == [];
      if u < t { assert (jam + [s'])[u] == jam[u]; }
    }
  }

  lemma HeldInLonger(stock: Stock, jam: seq<Stopped>, s: Stopped, i: nat, p: Product)
    requires HeldBy(stock, jam, i, p)
    ensures HeldBy(stock, jam + [s], i, p)
  {}

  /** A line before the stop is of a product no other order holds. */
  lemma NotHeldElsewhere(stock: Stock, jam: seq<Stopped>, s: Stopped, n: nat)
    requires n < s.next <= |s.lines| && Disjoint(stock, jam + [s])
    ensures forall i :: 0 <= i < |jam| ==> !HoldsProduct(stock, jam[i], s.lines[n].product)
  {
    var p := s.lines[n].product;
    if p in stock {
      assert s.lines[..s.next][n] == s.lines[n];
      ProductsMember(s.lines[..s.next], s.lines[n]);
      assert HeldBy(stock, jam + [s], |jam|, p);
      forall i | 0 <= i < |jam| ensures !HoldsProduct(stock, jam[i], p) {
        if HoldsProduct(stock, jam[i], p) { HeldInLonger(stock, jam, s, i, p); assert false; }
      }
    }
  }

  /** Orders that hold disjoint products can all reach their stops. */
  lemma {:induction false} StageAll(menu: iset<seq<Line>>, stock: Stock, jam: seq<Stopped>) returns (steps: seq<Step>)
    requires Disjoint(stock, jam) && forall i :: 0 <= i < |jam| ==> StoppedAt(menu, jam[i])
    ensures FromMenu(menu, steps) && Staged(stock, jam, Run(Start(stock), steps))
  {
    if jam == [] {
      steps := [];
    } else {
      var front, s := jam[..|jam| - 1], jam[|jam| - 1];
      assert jam == front + [s];
      assert Disjoint(stock, front) by {
        forall i, j, p | HeldBy(stock, front, i, p) && HeldBy(stock, front, j, p) ensures i == j {
          assert HeldBy(stock, jam, i, p) && HeldBy(stock, jam, j, p);
        }
      }
      var before := StageAll(menu, stock, front);
      assert StoppedAt(menu, jam[|jam| - 1]);
      steps := StageOrder(menu, stock, front, s, s.next, before);
      assert s.(next := s.next) == s;
    }
  }

  lemma StagedCannotMove(menu: iset<seq<Line>>, stock: Stock, jam: seq<Stopped>, db: Db, t: nat)
    requires Jam(menu, stock, jam) && Staged(stock, jam, db) && t < |jam|
    ensures Active(db, t) && !CanMove(db, t)
  {
    var j := Blocker(menu, stock, jam, t);
    var p := jam[t].lines[jam[t].next].product;
    assert StagedAt(stock, jam, db, t, p) && StagedAt(stock, jam, db, j, p);
    assert CurrentLine(db, t).product == p && !FreeFor(db, t, p);
  }

  /** A staged jam is a deadlock. */
  lemma JamIsDeadlock(menu: iset<seq<Line>>, stock: Stock, jam: seq<Stopped>, db: Db)
    requires Jam(menu, stock, jam) && Staged(stock, jam, db)
    ensures Deadlocked(db)
  {
    StagedCannotMove(menu, stock, jam, db, 0);
    forall t | Active(db, t) ensures !CanMove(db, t) { StagedCannotMove(menu, stock, jam, db, t); }
  }

  // ---- Main results ----

  /** No run of orders from `menu` deadlocks, if and only if no orders from `menu` can jam. */
  lemma DeadlockFreeExactly(menu: iset<seq<Line>>, stock: Stock)
    ensures (forall steps :: FromMenu(menu, steps) ==> !Deadlocked(Run(Start(stock), steps)))
       <==> !exists jam :: Jam(menu, stock, jam)
  {
    if jam :| Jam(menu, stock, jam) {
      forall i | 0 <= i < |jam| ensures StoppedAt(menu, jam[i]) { var j := Blocker(menu, stock, jam, i); }
      var steps := StageAll(menu, stock, jam);
      JamIsDeadlock(menu, stock, jam, Run(Start(stock), steps));
    } else {
      forall steps | FromMenu(menu, steps) ensures !Deadlocked(Run(Start(stock), steps)) {
        if Deadlocked(Run(Start(stock), steps)) { DeadlockShowsJam(menu, stock, steps); }
      }
    }
  }

  /** Lines listed by non-decreasing rank, where rank tells products apart: one common order. */
  ghost predicate InOrder(rank: Product -> nat, lines: seq<Line>) {
    forall i, j :: 0 <= i < j < |lines| ==> rank(lines[i].product) <= rank(lines[j].product)
  }

  ghost function Ordered(rank: Product -> nat): iset<seq<Line>> {
    iset lines | InOrder(rank, lines)
  }

  ghost predicate Injective(rank: Product -> nat) {
    forall p, q :: rank(p) == rank(q) ==> p == q
  }

  function WantRank(rank: Product -> nat, s: Stopped): nat
    requires s.next < |s.lines|
  {
    rank(s.lines[s.next].product)
  }

  lemma {:induction false} HighestWant(rank: Product -> nat, jam: seq<Stopped>) returns (k: nat)
    requires jam != [] && forall i :: 0 <= i < |jam| ==> jam[i].next < |jam[i].lines|
    ensures k < |jam| && forall i :: 0 <= i < |jam| ==> WantRank(rank, jam[i]) <= WantRank(rank, jam[k])
  {
    k := |jam| - 1;
    if k > 0 {
      var front := jam[..k];
      assert forall i :: 0 <= i < k ==> front[i] == jam[i];
      var h := HighestWant(rank, front);
      if WantRank(rank, jam[h]) > WantRank(rank, jam[k]) { k := h; }
    }
  }

  /** In one common order, an order wants a product ranked above all it holds. */
  lemma HeldRanksLower(rank: Product -> nat, stock: Stock, s: Stopped, p: Product)
    requires Injective(rank) && InOrder(rank, s.lines) && s.next < |s.lines|
    requires HoldsProduct(stock, s, p) && p != s.lines[s.next].product
    ensures rank(p) < WantRank(rank, s)
  {
    var l :| l in s.lines[..s.next] && l.product == p;
    var i :| 0 <= i < s.next && s.lines[i] == l;
  }

  /** The order that another waits for wants a product ranked higher. */
  lemma BlockerWantsHigher(rank: Product -> nat, stock: Stock, jam: seq<Stopped>, i: nat) returns (j: nat)
    requires Injective(rank) && Jam(Ordered(rank), stock, jam) && i < |jam|
    ensures j < |jam| && jam[i].next < |jam[i].lines| && jam[j].next < |jam[j].lines|
    ensures WantRank(rank, jam[i]) < WantRank(rank, jam[j])
  {
    j := Blocker(Ordered(rank), stock, jam, i);
    var k := Blocker(Ordered(rank), stock, jam, j);
    var p, q := jam[i].lines[jam[i].next].product, jam[j].lines[jam[j].next].product;
    assert p == q ==> HeldBy(stock, jam, j, q) && HeldBy(stock, jam, k, q);
    HeldRanksLower(rank, stock, jam[j], p);
  }

  lemma OrderedNeverJam(rank: Product -> nat, stock: Stock, jam: seq<Stopped>)
    requires Injective(rank)
    ensures !Jam(Ordered(rank), stock, jam)
  {
    if Jam(Ordered(rank), stock, jam) {
      forall i | 0 <= i < |jam| ensures jam[i].next < |jam[i].lines| { var j := Blocker(Ordered(rank), stock, jam, i); }
      var k := HighestWant(rank, jam);
      var j := BlockerWantsHigher(rank, stock, jam, k);
      assert false;
    }
  }

  /** If all orders list products in one common order, no reachable state is a deadlock. */
  lemma Progress(rank: Product -> nat, stock: Stock, steps: seq<Step>)
    requires Injective(rank) && FromMenu(Ordered(rank), steps)
    ensures !Deadlocked(Run(Start(stock), steps))
  {
    var menu := Ordered(rank);
    DeadlockFreeExactly(menu, stock);
    forall jam ensures !Jam(menu, stock, jam) { OrderedNeverJam(rank, stock, jam); }
  }

  /** Orders that begin with product `gate`. */
  ghost function Gated(gate: Product): iset<seq<Line>> {
    iset lines: seq<Line> | lines != [] ==> lines[0].product == gate
  }

  /** Nor if every order begins with the same stocked product, whatever follows. */
  lemma CommonFirstProduct(gate: Product, stock: Stock, steps: seq<Step>)
    requires gate in stock && FromMenu(Gated(gate), steps)
    ensures !Deadlocked(Run(Start(stock), steps))
  {
    var menu := Gated(gate);
    DeadlockFreeExactly(menu, stock);
    forall jam ensures !Jam(menu, stock, jam) { GatedNeverJam(gate, stock, jam); }
  }

  /** Whoever holds anything holds the gate. */
  lemma GateHeld(gate: Product, stock: Stock, s: Stopped, p: Product)
    requires gate in stock && s.lines != [] && s.lines[0].product == gate && HoldsProduct(stock, s, p)
    ensures HoldsProduct(stock, s, gate)
  {
    assert s.lines[..s.next][0] == s.lines[0];
    ProductsMember(s.lines[..s.next], s.lines[0]);
  }

  lemma GatedNeverJam(gate: Product, stock: Stock, jam: seq<Stopped>)
    requires gate in stock
    ensures !Jam(Gated(gate), stock, jam)
  {
    if Jam(Gated(gate), stock, jam) {
      var i := Blocker(Gated(gate), stock, jam, 0);
      var j := Blocker(Gated(gate), stock, jam, i);
      var k := Blocker(Gated(gate), stock, jam, j);
      GateHeld(gate, stock, jam[i], jam[0].lines[jam[0].next].product);
      GateHeld(gate, stock, jam[j], jam[i].lines[jam[i].next].product);
      assert HeldBy(stock, jam, i, gate) && HeldBy(stock, jam, j, gate);
      assert false;
    }
  }

  /** Two orders for the same two products in opposite orders, whatever the quantities, can deadlock. */
  lemma OppositeOrdersDeadlock(stock: Stock, p: Product, q: Product, a: seq<Line>, b: seq<Line>)
    requires p != q && p in stock && q in stock
    requires |a| >= 2 && a[0].product == p && a[1].product == q
    requires |b| >= 2 && b[0].product == q && b[1].product == p
    ensures exists steps :: FromMenu(iset{a, b}, steps) && Deadlocked(Run(Start(stock), steps))
  {
    var jam := [Stopped(a, 1), Stopped(b, 1)];
    forall r ensures HoldsProduct(stock, jam[0], r) <==> r == p {
      assert a[..1] == [] + [a[0]];
      ProductsSnoc([], a[0]);
    }
    forall r ensures HoldsProduct(stock, jam[1], r) <==> r == q {
      assert b[..1] == [] + [b[0]];
      ProductsSnoc([], b[0]);
    }
    assert WaitsFor(iset{a, b}, stock, jam, 0, 1) && WaitsFor(iset{a, b}, stock, jam, 1, 0);
    assert Stuck(iset{a, b}, stock, jam, 0) && Stuck(iset{a, b}, stock, jam, 1);
    assert Jam(iset{a, b}, stock, jam);
    DeadlockFreeExactly(iset{a, b}, stock);
  }
}
