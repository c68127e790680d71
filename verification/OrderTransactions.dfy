/** Concurrent `create_order` transactions over one PostgreSQL database: row locks taken line by line,
    guarded decrements on the transaction's own view, then commit or rollback.
    A step that is not enabled leaves the database as it is (the transaction waits),
    so every interleaving is a sequence of steps. */
module OrderTransactions {
  import opened OrderLines

  type TxnId = nat

  datatype Outcome = Committed | OutOfStock(product: Product) | Failed

  datatype Phase =
    | Locking(next: nat)    // lines before `next` have been selected FOR UPDATE
    | Updating(next: nat)   // lines before `next` have been decremented
    | Ended(outcome: Outcome)

  /** `pending` holds the rows the transaction has written and nobody else can see yet. */
  datatype Txn = Txn(lines: seq<Line>, phase: Phase, pending: Stock)

  datatype Record = Record(txn: TxnId, lines: seq<Line>, outcome: Outcome)

  /** `history` lists the transactions in the order they ended. */
  datatype Db = Db(committed: Stock, locks: map<Product, TxnId>, txns: map<TxnId, Txn>, history: seq<Record>)

  datatype Step =
    | Begin(txn: TxnId, lines: seq<Line>)
    | Lock(txn: TxnId)
    | Insert(txn: TxnId)
    | Update(txn: TxnId)
    | Commit(txn: TxnId)
    | Reject(txn: TxnId)
    | Fail(txn: TxnId)      // any database error: lock, insert, update or commit

  function Start(stock: Stock): Db { Db(stock, map[], map[], []) }

  predicate Active(db: Db, t: TxnId) { t in db.txns && !db.txns[t].phase.Ended? }

  predicate FreeFor(db: Db, t: TxnId, p: Product) { p !in db.locks || db.locks[p] == t }

  /** The rows as transaction `t` sees them. */
  function View(db: Db, t: TxnId): Stock
    requires t in db.txns
  {
    db.committed + db.txns[t].pending
  }

  predicate AtLine(db: Db, t: TxnId) {
    Active(db, t) && db.txns[t].phase.next < |db.txns[t].lines|
  }

  function CurrentLine(db: Db, t: TxnId): Line
    requires AtLine(db, t)
  {
    db.txns[t].lines[db.txns[t].phase.next]
  }

  predicate Enabled(db: Db, step: Step) {
    var t := step.txn;
    match step
    case Begin(_, _) => t !in db.txns
    case Lock(_) => AtLine(db, t) && db.txns[t].phase.Locking? &&
                    FreeFor(db, t, CurrentLine(db, t).product)
    case Insert(_) => Active(db, t) && db.txns[t].phase == Locking(|db.txns[t].lines|)
    case Update(_) => AtLine(db, t) && db.txns[t].phase.Updating? &&
                      FreeFor(db, t, CurrentLine(db, t).product) &&
                      TakeLine(View(db, t), CurrentLine(db, t)).Placed?
    case Reject(_) => AtLine(db, t) && db.txns[t].phase.Updating? &&
                      FreeFor(db, t, CurrentLine(db, t).product) &&
                      TakeLine(View(db, t), CurrentLine(db, t)).Short?
    case Commit(_) => Active(db, t) && db.txns[t].phase == Updating(|db.txns[t].lines|)
    case Fail(_) => Active(db, t)
  }

  function End(db: Db, t: TxnId, outcome: Outcome): Db
    requires t in db.txns
  {
    var txn := db.txns[t];
    db.(locks := map p | p in db.locks && db.locks[p] != t :: db.locks[p],
        committed := if outcome.Committed? then db.committed + txn.pending else db.committed,
        txns := db.txns[t := txn.(phase := Ended(outcome))],
        history := db.history + [Record(t, txn.lines, outcome)])
  }

  function Effect(db: Db, step: Step): Db
    requires Enabled(db, step)
  {
    var t := step.txn;
    match step
    case Begin(_, lines) => db.(txns := db.txns[t := Txn(lines, Locking(0), map[])])
    case Lock(_) =>
      var p := CurrentLine(db, t).product;
      // SELECT ... FOR UPDATE on an id with no row locks nothing.
      db.(locks := if p in db.committed then db.locks[p := t] else db.locks,
          txns := db.txns[t := db.txns[t].(phase := Locking(db.txns[t].phase.next + 1))])
    case Insert(_) => db.(txns := db.txns[t := db.txns[t].(phase := Updating(0))])
    case Update(_) =>
      var l := CurrentLine(db, t);
      db.(txns := db.txns[t := db.txns[t].(
            phase := Updating(db.txns[t].phase.next + 1),
            pending := db.txns[t].pending[l.product := View(db, t)[l.product] - l.quantity])])
    case Commit(_) => End(db, t, Committed)
    case Reject(_) => End(db, t, OutOfStock(CurrentLine(db, t).product))
    case Fail(_) => End(db, t, Failed)
  }

  function Apply(db: Db, step: Step): Db {
    if Enabled(db, step) then Effect(db, step) else db
  }

  function Run(db: Db, steps: seq<Step>): Db {
    if steps == [] then db else Apply(Run(db, steps[..|steps| - 1]), steps[|steps| - 1])
  }

  // ---- The sequential reference: orders one by one ----

  /** One order run alone; a database failure leaves stock as it is. */
  function After(stock: Stock, r: Record): Stock {
    if r.outcome.Failed? then stock
    else match Place(stock, r.lines) { case Placed(s) => s case Short(_) => stock }
  }

  /** What running the orders one after another does to stock. */
  function SerialStock(stock: Stock, history: seq<Record>): Stock {
    if history == [] then stock
    else After(SerialStock(stock, history[..|history| - 1]), history[|history| - 1])
  }

  /** The order, run alone on `stock`, ends the same way. A database failure says nothing about stock. */
  ghost predicate SameOutcome(stock: Stock, r: Record) {
    match r.outcome
    case Committed => Place(stock, r.lines).Placed?
    case OutOfStock(p) => Place(stock, r.lines) == Short(p)
    case Failed => true
  }

  /** Every recorded order, run on what the earlier ones leave, ends the same way. */
  ghost predicate SerialOutcomes(stock: Stock, history: seq<Record>) {
    history == [] ||
    (var front := history[..|history| - 1];
     SerialOutcomes(stock, front) && SameOutcome(SerialStock(stock, front), history[|history| - 1]))
  }

  /** Each ended transaction is recorded, and each record is one transaction's end. */
  ghost predicate HistoryComplete(db: Db) {
    && (forall t :: t in db.txns && db.txns[t].phase.Ended? ==>
          exists k :: 0 <= k < |db.history| && db.history[k] == Record(t, db.txns[t].lines, db.txns[t].phase.outcome))
    && (forall k :: 0 <= k < |db.history| ==> var r := db.history[k];
          r.txn in db.txns && db.txns[r.txn].phase == Ended(r.outcome) && db.txns[r.txn].lines == r.lines)
    && (forall j, k :: 0 <= j < k < |db.history| ==> db.history[j].txn != db.history[k].txn)
  }

  // ---- Invariant ----

  ghost predicate Holds(db: Db, t: TxnId, lines: seq<Line>) {
    forall l :: l in lines && l.product in db.committed ==> l.product in db.locks && db.locks[l.product] == t
  }

  function LockedLines(txn: Txn): seq<Line> {
    match txn.phase
    case Locking(n) => if n <= |txn.lines| then txn.lines[..n] else txn.lines
    case Updating(_) => txn.lines
    case Ended(_) => []
  }

  ghost predicate TxnOk(db: Db, t: TxnId)
    requires t in db.txns
  {
    var txn := db.txns[t];
    match txn.phase
    case Ended(_) => true
    case Locking(n) => n <= |txn.lines| && txn.pending == map[] && Holds(db, t, txn.lines[..n])
    case Updating(n) =>
      && n <= |txn.lines| && Holds(db, t, txn.lines)
      && txn.pending.Keys <= Products(txn.lines) * db.committed.Keys
      && Place(db.committed, txn.lines[..n]) == Placed(db.committed + txn.pending)
  }

  ghost predicate LocksOk(db: Db) {
    forall p :: p in db.locks ==>
      p in db.committed && Active(db, db.locks[p]) && p in Products(LockedLines(db.txns[db.locks[p]]))
  }

  ghost predicate Inv(stock: Stock, db: Db) {
    && (forall t :: t in db.txns ==> TxnOk(db, t))
    && LocksOk(db)
    && SerialOutcomes(stock, db.history)
    && db.committed == SerialStock(stock, db.history)
    && HistoryComplete(db)
  }

  lemma ProductsMember(lines: seq<Line>, l: Line)
    requires l in lines
    ensures l.product in Products(lines)
  {}

  /** Committing rows that `lines` does not touch does not disturb a half-done transaction. */
  lemma {:induction false} PlaceFrame(stock: Stock, lines: seq<Line>, mine: Stock, theirs: Stock)
    requires Place(stock, lines) == Placed(stock + mine)
    requires theirs.Keys !! Products(lines) && theirs.Keys <= stock.Keys && mine.Keys <= stock.Keys
    requires mine.Keys !! theirs.Keys
    ensures Place(stock + theirs, lines) == Placed(stock + theirs + mine)
  {
    PlaceByPrefixes(stock, lines);
    PlaceByPrefixes(stock + theirs, lines);
    forall k | 0 <= k < |lines| ensures lines[k].product !in theirs { assert lines[k] in lines; }
    forall p | p in theirs ensures Demand(lines, p) == 0 { NoDemand(lines, p); }
    assert Subtract(stock + theirs, lines) == stock + theirs + mine by {
      forall p | p in stock ensures Subtract(stock + theirs, lines)[p] == (stock + theirs + mine)[p] {
        assert Subtract(stock, lines)[p] == (stock + mine)[p];
      }
    }
  }

  // ---- Every step keeps the invariant ----

  lemma BeginKeeps(stock: Stock, db: Db, t: TxnId, lines: seq<Line>)
    requires Inv(stock, db) && Enabled(db, Begin(t, lines))
    ensures Inv(stock, Apply(db, Begin(t, lines)))
  {
    var db' := Apply(db, Begin(t, lines));
    forall u | u in db'.txns ensures TxnOk(db', u) {
      if u != t { assert TxnOk(db, u); }
    }
  }

  /** A step that only moves the active transaction `t` on, perhaps taking a lock for it. */
  ghost predicate Advances(db: Db, db': Db, t: TxnId) {
    && Active(db, t) && Active(db', t)
    && db'.committed == db.committed && db'.history == db.history
    && db'.txns == db.txns[t := db'.txns[t]] && db'.txns[t].lines == db.txns[t].lines
    && (forall p :: p in db.locks ==> p in db'.locks && db'.locks[p] == db.locks[p])
    && (forall p :: p in db'.locks && p !in db.locks ==> db'.locks[p] == t)
  }

  lemma AdvanceKeepsHistory(db: Db, db': Db, t: TxnId)
    requires Advances(db, db', t) && HistoryComplete(db)
    ensures HistoryComplete(db')
  {
    forall u | u in db'.txns && db'.txns[u].phase.Ended?
      ensures exists k :: 0 <= k < |db'.history| &&
                          db'.history[k] == Record(u, db'.txns[u].lines, db'.txns[u].phase.outcome)
    {
      assert u != t;
    }
  }

  lemma AdvanceKeepsLocks(db: Db, db': Db, t: TxnId)
    requires Advances(db, db', t) && LocksOk(db)
    requires Products(LockedLines(db.txns[t])) <= Products(LockedLines(db'.txns[t]))
    requires forall p :: p in db'.locks && p !in db.locks ==>
               p in db.committed && p in Products(LockedLines(db'.txns[t]))
    ensures LocksOk(db')
  {
    forall p | p in db'.locks
      ensures p in db'.committed && Active(db', db'.locks[p]) && p in Products(LockedLines(db'.txns[db'.locks[p]]))
    {
      if p in db.locks && db.locks[p] != t {
        var u := db.locks[p];
        assert db'.txns[u] == db.txns[u];
        assert db'.locks[p] == u;
      }
    }
  }

  lemma AdvanceKeeps(stock: Stock, db: Db, db': Db, t: TxnId)
    requires Advances(db, db', t) && Inv(stock, db) && LocksOk(db') && TxnOk(db', t)
    ensures Inv(stock, db')
  {
    AdvanceKeepsHistory(db, db', t);
    forall u | u in db'.txns ensures TxnOk(db', u) {
      if u != t {
        assert TxnOk(db, u);
        assert db'.txns[u] == db.txns[u];
      }
    }
  }

  lemma LockAdvances(db: Db, t: TxnId)
    requires Enabled(db, Lock(t)) && TxnOk(db, t) && LocksOk(db)
    ensures Advances(db, Effect(db, Lock(t)), t)
    ensures TxnOk(Effect(db, Lock(t)), t) && LocksOk(Effect(db, Lock(t)))
  {
    var db' := Effect(db, Lock(t));
    var txn := db.txns[t];
    var n := txn.phase.next;
    assert txn.lines[..n + 1] == txn.lines[..n] + [txn.lines[n]];
    ProductsSnoc(txn.lines[..n], txn.lines[n]);
    assert LockedLines(txn) == txn.lines[..n];
    assert LockedLines(db'.txns[t]) == txn.lines[..n + 1];
    AdvanceKeepsLocks(db, db', t);
  }

  lemma InsertAdvances(db: Db, t: TxnId)
    requires Enabled(db, Insert(t)) && TxnOk(db, t) && LocksOk(db)
    ensures Advances(db, Effect(db, Insert(t)), t)
    ensures TxnOk(Effect(db, Insert(t)), t) && LocksOk(Effect(db, Insert(t)))
  {
    var db' := Effect(db, Insert(t));
    var txn := db.txns[t];
    assert txn.lines[..|txn.lines|] == txn.lines;
    assert txn.lines[..0] == [];
    assert db.committed + map[] == db.committed;
    AdvanceKeepsLocks(db, db', t);
  }

  lemma UpdatePlaces(db: Db, t: TxnId)
    requires Enabled(db, Update(t)) && TxnOk(db, t)
    ensures var txn, txn' := db.txns[t], Effect(db, Update(t)).txns[t];
            Place(db.committed, txn.lines[..txn.phase.next + 1]) == Placed(db.committed + txn'.pending) &&
            CurrentLine(db, t).product in db.committed
  {
    var txn := db.txns[t];
    var n := txn.phase.next;
    var l := txn.lines[n];
    assert txn.lines[..n + 1] == txn.lines[..n] + [l];
    PlaceSnoc(db.committed, txn.lines[..n], l);
    assert db.committed + txn.pending[l.product := View(db, t)[l.product] - l.quantity]
        == View(db, t)[l.product := View(db, t)[l.product] - l.quantity];
  }

  lemma UpdateAdvances(db: Db, t: TxnId)
    requires Enabled(db, Update(t)) && TxnOk(db, t) && LocksOk(db)
    ensures Advances(db, Effect(db, Update(t)), t)
    ensures TxnOk(Effect(db, Update(t)), t) && LocksOk(Effect(db, Update(t)))
  {
    var db' := Effect(db, Update(t));
    var txn := db.txns[t];
    var n := txn.phase.next;
    UpdatePlaces(db, t);
    ProductsMember(txn.lines, txn.lines[n]);
    AdvanceKeepsLocks(db, db', t);
  }

  lemma EndKeepsOthers(stock: Stock, db: Db, t: TxnId, outcome: Outcome, u: TxnId)
    requires Inv(stock, db) && Active(db, t) && u in db.txns && u != t
    requires outcome.Committed? ==> db.txns[t].phase.Updating?
    ensures TxnOk(End(db, t, outcome), u)
  {
    var db' := End(db, t, outcome);
    var txn, other := db.txns[t], db.txns[u];
    assert TxnOk(db, u) && TxnOk(db, t);
    if outcome.Committed? {
      var theirs := txn.pending;
      assert db'.committed.Keys == db.committed.Keys;
      if other.phase.Updating? {
        var n := other.phase.next;
        forall p | p in theirs ensures p !in Products(other.lines) {
          var l :| l in txn.lines && l.product == p;
          assert db.locks[p] == t;
        }
        assert Products(other.lines[..n]) <= Products(other.lines);
        PlaceFrame(db.committed, other.lines[..n], other.pending, theirs);
      }
    }
  }

  /** The transaction's own end is what the order does when run alone on the committed stock. */
  lemma CommitIsPlacement(db: Db, t: TxnId)
    requires Enabled(db, Commit(t)) && TxnOk(db, t)
    ensures Place(db.committed, db.txns[t].lines) == Placed(db.committed + db.txns[t].pending)
  {
    assert db.txns[t].lines[..|db.txns[t].lines|] == db.txns[t].lines;
  }

  lemma RejectIsShortage(db: Db, t: TxnId)
    requires Enabled(db, Reject(t)) && TxnOk(db, t)
    ensures Place(db.committed, db.txns[t].lines) == Short(CurrentLine(db, t).product)
  {
    var lines, n := db.txns[t].lines, db.txns[t].phase.next;
    assert lines[..n] + [lines[n]] == lines[..n + 1];
    PlaceSnoc(db.committed, lines[..n], lines[n]);
    ShortPersists(db.committed, lines, n + 1);
  }

  /** The transaction ends as its order would alone, with its pending rows as the result. */
  ghost predicate EndsAsAlone(db: Db, t: TxnId, outcome: Outcome)
    requires t in db.txns
  {
    match outcome
    case Committed => Place(db.committed, db.txns[t].lines) == Placed(db.committed + db.txns[t].pending)
    case OutOfStock(p) => Place(db.committed, db.txns[t].lines) == Short(p)
    case Failed => true
  }

  lemma EndKeepsSerial(stock: Stock, db: Db, t: TxnId, outcome: Outcome)
    requires t in db.txns && EndsAsAlone(db, t, outcome)
    requires SerialOutcomes(stock, db.history) && db.committed == SerialStock(stock, db.history)
    ensures var db' := End(db, t, outcome);
            SerialOutcomes(stock, db'.history) && db'.committed == SerialStock(stock, db'.history)
  {
    var r := Record(t, db.txns[t].lines, outcome);
    assert (db.history + [r])[..|db.history|] == db.history;
  }

  lemma EndKeeps(stock: Stock, db: Db, t: TxnId, outcome: Outcome)
    requires Inv(stock, db) && Active(db, t) && EndsAsAlone(db, t, outcome)
    requires outcome.Committed? ==> db.txns[t].phase.Updating?
    ensures Inv(stock, End(db, t, outcome))
  {
    EndKeepsSerial(stock, db, t, outcome);
    EndKeepsHistory(db, t, outcome);
    EndKeepsLocks(stock, db, t, outcome);
    var db' := End(db, t, outcome);
    forall u | u in db'.txns ensures TxnOk(db', u) {
      if u != t { EndKeepsOthers(stock, db, t, outcome, u); }
    }
  }

  lemma EndKeepsLocks(stock: Stock, db: Db, t: TxnId, outcome: Outcome)
    requires Inv(stock, db) && Active(db, t)
    ensures LocksOk(End(db, t, outcome))
  {
    var db' := End(db, t, outcome);
    forall p | p in db'.locks
      ensures p in db'.committed && Active(db', db'.locks[p]) && p in Products(LockedLines(db'.txns[db'.locks[p]]))
    {
      assert p in db.locks;
    }
  }

  lemma EndKeepsHistory(db: Db, t: TxnId, outcome: Outcome)
    requires HistoryComplete(db) && Active(db, t)
    ensures HistoryComplete(End(db, t, outcome))
  {
    var db' := End(db, t, outcome);
    forall u | u in db'.txns && db'.txns[u].phase.Ended?
      ensures exists k :: 0 <= k < |db'.history| &&
                          db'.history[k] == Record(u, db'.txns[u].lines, db'.txns[u].phase.outcome)
    {
      if u == t {
        assert db'.history[|db.history|] == Record(t, db.txns[t].lines, outcome);
      } else {
        var k :| 0 <= k < |db.history| && db.history[k] == Record(u, db.txns[u].lines, db.txns[u].phase.outcome);
        assert db'.history[k] == db.history[k];
      }
    }
  }

  lemma StepKeeps(stock: Stock, db: Db, step: Step)
    requires Inv(stock, db)
    ensures Inv(stock, Apply(db, step))
  {
    if Enabled(db, step) {
      match step
      case Begin(t, lines) => BeginKeeps(stock, db, t, lines);
      case Lock(t) => LockAdvances(db, t); AdvanceKeeps(stock, db, Effect(db, step), t);
      case Insert(t) => InsertAdvances(db, t); AdvanceKeeps(stock, db, Effect(db, step), t);
      case Update(t) => UpdateAdvances(db, t); AdvanceKeeps(stock, db, Effect(db, step), t);
      case Commit(t) => assert TxnOk(db, t); CommitIsPlacement(db, t); EndKeeps(stock, db, t, Committed);
      case Reject(t) => assert TxnOk(db, t); RejectIsShortage(db, t);
                        EndKeeps(stock, db, t, OutOfStock(CurrentLine(db, t).product));
      case Fail(t) => EndKeeps(stock, db, t, Failed);
    }
  }

  lemma {:induction false} RunKeeps(stock: Stock, steps: seq<Step>)
    ensures Inv(stock, Run(Start(stock), steps))
  {
    if steps != [] {
      RunKeeps(stock, steps[..|steps| - 1]);
      StepKeeps(stock, Run(Start(stock), steps[..|steps| - 1]), steps[|steps| - 1]);
    }
  }

  // ---- Main results ----

  /** Every interleaving has the outcomes and the final stock of running the orders one by one
      in the order they ended. */
  lemma Serializable(stock: Stock, steps: seq<Step>)
    ensures var db := Run(Start(stock), steps);
            && SerialOutcomes(stock, db.history)
            && db.committed == SerialStock(stock, db.history)
            && HistoryComplete(db)
  {
    RunKeeps(stock, steps);
  }

  /** Total quantity of `p` in the committed orders. */
  function Sold(history: seq<Record>, p: Product): int {
    if history == [] then 0
    else
      var r := history[|history| - 1];
      Sold(history[..|history| - 1], p) + if r.outcome.Committed? then Demand(r.lines, p) else 0
  }

  /** One record of the sequential run: stock drops by what was sold and stays non-negative. */
  lemma RecordSells(s: Stock, r: Record)
    requires SameOutcome(s, r)
    ensures var s' := After(s, r);
            s'.Keys == s.Keys && (NonNegative(s) ==> NonNegative(s')) &&
            forall p :: p in s ==> s'[p] == s[p] - if r.outcome.Committed? then Demand(r.lines, p) else 0
  {
    PlaceByPrefixes(s, r.lines);
    if NonNegative(s) { PlaceKeepsNonNegative(s, r.lines); }
  }

  lemma {:induction false} SerialStockSells(stock: Stock, history: seq<Record>)
    requires SerialOutcomes(stock, history)
    ensures SerialStock(stock, history).Keys == stock.Keys
    ensures forall p :: p in stock ==> SerialStock(stock, history)[p] == stock[p] - Sold(history, p)
    ensures NonNegative(stock) ==> NonNegative(SerialStock(stock, history))
  {
    if history != [] {
      var n := |history| - 1;
      SerialStockSells(stock, history[..n]);
      RecordSells(SerialStock(stock, history[..n]), history[n]);
    }
  }

  /** At every point of every interleaving, committed stock is what the committed orders left,
      and it is never negative: concurrent orders cannot oversell. */
  lemma NeverOversold(stock: Stock, steps: seq<Step>)
    requires NonNegative(stock)
    ensures var db := Run(Start(stock), steps);
            db.committed.Keys == stock.Keys && NonNegative(db.committed) &&
            forall p :: p in stock ==>
              db.committed[p] == stock[p] - Sold(db.history, p) && Sold(db.history, p) <= stock[p]
  {
    RunKeeps(stock, steps);
    SerialStockSells(stock, Run(Start(stock), steps).history);
  }

  /** A transaction past its locking loop never waits: its update, rejection or commit is enabled. */
  lemma NeverWaitsAfterLocking(stock: Stock, steps: seq<Step>, t: TxnId)
    requires var db := Run(Start(stock), steps); Active(db, t) && db.txns[t].phase.Updating?
    ensures var db := Run(Start(stock), steps);
            Enabled(db, Update(t)) || Enabled(db, Reject(t)) || Enabled(db, Commit(t))
  {
    RunKeeps(stock, steps);
    var db := Run(Start(stock), steps);
    var txn := db.txns[t];
    assert TxnOk(db, t);
    if txn.phase.next < |txn.lines| {
      var l := CurrentLine(db, t);
      assert l in txn.lines;
      assert FreeFor(db, t, l.product) by {
        if l.product in db.locks { assert l.product in db.committed; }
      }
    }
  }
}
