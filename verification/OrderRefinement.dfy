/** Interleaved `create_order` transactions refine the order store that handles one call at a time. */
module OrderRefinement {
  import opened OrderLines
  import T = OrderTransactions
  import S = OrderStore

  /** The orders that ended without a database failure, as calls in the order they ended. */
  function Calls(history: seq<T.Record>): seq<S.Action> {
    if history == [] then []
    else
      var n := |history| - 1;
      Calls(history[..n]) + if history[n].outcome.Failed? then [] else [S.CreateOrder(history[n].lines)]
  }

  /** The committed orders, in the order they committed. */
  function Committed(history: seq<T.Record>): seq<S.Order> {
    if history == [] then []
    else
      var n := |history| - 1;
      Committed(history[..n]) + if history[n].outcome.Committed? then [S.Order(history[n].lines, S.Pending)] else []
  }

  lemma {:induction false} RunSnoc(s: S.Store, acts: seq<S.Action>, a: S.Action)
    ensures S.Run(s, acts + [a]) == S.Step(S.Run(s, acts), a).store
  {
    assert (acts + [a])[..|acts|] == acts;
  }

  lemma {:induction false} CallsReplay(s: S.Store, history: seq<T.Record>)
    requires T.SerialOutcomes(s.stock, history)
    ensures S.Run(s, Calls(history)) ==
            s.(stock := T.SerialStock(s.stock, history), orders := s.orders + Committed(history))
  {
    if history == [] {
      assert s.orders + [] == s.orders;
    } else {
      var n := |history| - 1;
      CallsReplay(s, history[..n]);
      var r := history[n];
      if r.outcome.Failed? {
        assert Calls(history) == Calls(history[..n]);
        assert Committed(history) == Committed(history[..n]);
      } else {
        RunSnoc(s, Calls(history[..n]), S.CreateOrder(r.lines));
        assert s.orders + Committed(history[..n]) + [S.Order(r.lines, S.Pending)]
            == s.orders + (Committed(history[..n]) + [S.Order(r.lines, S.Pending)]);
      }
    }
  }

  /** Every interleaving leaves the stock, and its commits the orders, that the sequential store has
      after the same calls made one by one in the order the transactions ended. */
  lemma {:induction false} InterleavingRefinesStore(stock: Stock, steps: seq<T.Step>, warehouses: set<nat>)
    ensures var db := T.Run(T.Start(stock), steps);
            S.Run(S.Store(stock, [], [], warehouses), Calls(db.history)) ==
            S.Store(db.committed, Committed(db.history), [], warehouses)
  {
    var db := T.Run(T.Start(stock), steps);
    T.Serializable(stock, steps);
    CallsReplay(S.Store(stock, [], [], warehouses), db.history);
    assert [] + Committed(db.history) == Committed(db.history);
  }
}
