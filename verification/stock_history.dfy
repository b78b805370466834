/** What holds of stock, orders and jobs over every run. */
module StockHistory {
  import opened Options
  import opened OrderLines
  import opened Money
  import opened Catalogue
  import opened Transactions
  import opened TransactionInvariant
  import opened Serializability

  // ---- Quantities sold

  function QuantityIn(items: seq<Item>, id: ProductId): nat {
    if items == [] then 0
    else
      var last := items[|items| - 1];
      QuantityIn(items[..|items| - 1], id) + if last.productId == id then last.quantity else 0
  }

  /** Sum over all order items of the product. */
  ghost function Sold(orders: map<OrderId, Order>, id: ProductId): nat
    decreases |orders|
  {
    if orders == map[] then 0
    else
      var k :| k in orders;
      assert |orders - {k}| < |orders| by { Smaller(orders, k); }
      QuantityIn(orders[k].items, id) + Sold(orders - {k}, id)
  }

  lemma {:induction false} Smaller(orders: map<OrderId, Order>, k: OrderId)
    requires k in orders
    ensures |orders - {k}| == |orders| - 1
  {
    assert (orders - {k}).Keys == orders.Keys - {k};
    assert |(orders - {k}).Keys| == |orders - {k}|;
    assert |orders.Keys| == |orders|;
  }

  /** The order in which the sum is taken does not matter. */
  lemma {:induction false} SoldWithout(orders: map<OrderId, Order>, id: ProductId, k: OrderId)
    requires k in orders
    ensures Sold(orders, id) == QuantityIn(orders[k].items, id) + Sold(orders - {k}, id)
    decreases |orders|
  {
    var j :| j in orders && Sold(orders, id) == QuantityIn(orders[j].items, id) + Sold(orders - {j}, id);
    if j != k {
      Smaller(orders, j);
      Smaller(orders, k);
      SoldWithout(orders - {j}, id, k);
      SoldWithout(orders - {k}, id, j);
      assert orders - {j} - {k} == orders - {k} - {j};
    }
  }

  lemma {:induction false} SoldOneMore(orders: map<OrderId, Order>, id: ProductId, k: OrderId, order: Order)
    requires k !in orders
    ensures Sold(orders[k := order], id) == Sold(orders, id) + QuantityIn(order.items, id)
  {
    SoldWithout(orders[k := order], id, k);
    assert orders[k := order] - {k} == orders;
  }

  lemma {:induction false} QuantityOfItems(products: map<ProductId, Product>, lines: seq<Line>, id: ProductId)
    ensures QuantityIn(ItemsOf(products, lines), id) == SumFor(lines, id)
  {
    if lines == [] {
    } else {
      var front := lines[..|lines| - 1];
      QuantityOfItems(products, front, id);
      assert ItemsOf(products, lines)[..|lines| - 1] == ItemsOf(products, front);
    }
  }

  // ---- Stock conservation

  /** What one logged transaction changed by setting the stock column outright. */
  function StockEdit(before: Db, entry: Entry, id: ProductId): int {
    match entry.request
    case EditProduct(p, edit) =>
      if p == id && entry.outcome.Edited? && edit.stock.Some? && id in before.products
      then edit.stock.value - before.products[id].stock else 0
    case _ => 0
  }

  /** The net of all admin stock edits of the product. */
  function NetEdits(db: Db, log: seq<Entry>, id: ProductId): int {
    if log == [] then 0
    else
      var front := log[..|log| - 1];
      NetEdits(db, front, id) + StockEdit(Replay(db, front), log[|log| - 1], id)
  }

  lemma {:induction false} AtomicConserves(db: Db, entry: Entry, id: ProductId)
    requires id in db.products && entry.tx !in db.orders
    requires entry.outcome == Atomic(db, entry.tx, entry.request).1
    ensures var db' := Atomic(db, entry.tx, entry.request).0;
      && id in db'.products
      && db'.products[id].stock + Sold(db'.orders, id) ==
           db.products[id].stock + Sold(db.orders, id) + StockEdit(db, entry, id)
  {
    if entry.outcome.Placed? {
      var items := entry.request.items;
      SoldOneMore(db.orders, id, entry.tx, entry.outcome.order);
      QuantityOfItems(db.products, Normalized(items), id);
      NormalFormIsCanonical(items);
    }
  }

  lemma {:induction false} ReplayConserves(db: Db, log: seq<Entry>, id: ProductId)
    requires Explains(db, log) && id in db.products
    requires forall i :: 0 <= i < |log| ==> log[i].tx !in Replay(db, log[..i]).orders
    ensures var db' := Replay(db, log);
      && id in db'.products
      && db'.products[id].stock + Sold(db'.orders, id) ==
           db.products[id].stock + Sold(db.orders, id) + NetEdits(db, log, id)
  {
    if log == [] {
    } else {
      var n := |log| - 1;
      var front := log[..n];
      ExplainsPrefix(db, log, n);
      forall i | 0 <= i < |front|
        ensures front[i].tx !in Replay(db, front[..i]).orders
      {
        assert front[..i] == log[..i];
      }
      ReplayConserves(db, front, id);
      AtomicConserves(Replay(db, front), log[n], id);
    }
  }

  lemma {:induction false} AtomicOrders(db: Db, t: TxId, request: Request)
    ensures forall k :: k in db.orders && k != t ==>
      k in Atomic(db, t, request).0.orders && Atomic(db, t, request).0.orders[k] == db.orders[k]
    ensures forall k :: k in Atomic(db, t, request).0.orders ==> k in db.orders || k == t
  {
  }

  lemma {:induction false} ReplayOrders(db: Db, log: seq<Entry>, k: OrderId)
    requires k in Replay(db, log).orders
    ensures k in db.orders || exists i :: 0 <= i < |log| && log[i].tx == k
  {
    if log == [] {
    } else {
      var front, last := log[..|log| - 1], log[|log| - 1];
      AtomicOrders(Replay(db, front), last.tx, last.request);
      if k in Replay(db, front).orders {
        ReplayOrders(db, front, k);
        if k !in db.orders {
          var i :| 0 <= i < |front| && front[i].tx == k;
          assert log[i].tx == k;
        }
      }
    }
  }

  /** Begun transactions never reuse an id of the initial orders, and committed orders stay. */
  ghost predicate FreshIds(db: Db, s: State) {
    && (forall t :: t in s.txs ==> t !in db.orders)
    && (forall k :: k in db.orders ==> k in s.db.orders)
  }

  lemma {:induction false} StepKeepsOrders(s: State, a: Action)
    requires Inv(s) && Enabled(s, a)
    ensures forall k :: k in s.db.orders ==> k in Apply(s, a).db.orders && Apply(s, a).db.orders[k] == s.db.orders[k]
  {
  }

  lemma {:induction false} RunKeepsFreshIds(db: Db, actions: seq<Action>)
    requires WellFormed(db) && Admissible(Initial(db), actions)
    ensures FreshIds(db, Execute(Initial(db), actions))
    decreases |actions|
  {
    if actions == [] {
    } else {
      var front, a := actions[..|actions| - 1], actions[|actions| - 1];
      RunKeepsFreshIds(db, front);
      EveryRunIsSerializable(db, front);
      var s := Execute(Initial(db), front);
      StepKeepsOrders(s, a);
      forall t | t in Apply(s, a).txs
        ensures t !in db.orders
      {
        assert t in s.txs || (a.Begin? && t == a.tx);
      }
    }
  }

  lemma {:induction false} LoggedIdsAreNew(db: Db, s: State)
    requires LogComplete(s) && FreshIds(db, s)
    ensures forall i :: 0 <= i < |s.log| ==> s.log[i].tx !in Replay(db, s.log[..i]).orders
  {
    forall i | 0 <= i < |s.log|
      ensures s.log[i].tx !in Replay(db, s.log[..i]).orders
    {
      if s.log[i].tx in Replay(db, s.log[..i]).orders {
        ReplayOrders(db, s.log[..i], s.log[i].tx);
        assert false;
      }
    }
  }

  /** Stock conservation: in every reachable state the committed stock of a product is its initial stock, plus the net
      of the admin stock edits, minus the quantities in all order items committed since; and it is never negative. */
  lemma {:induction false} StockIsConserved(db: Db, actions: seq<Action>, id: ProductId)
    requires WellFormed(db) && Admissible(Initial(db), actions) && id in db.products
    ensures var s := Execute(Initial(db), actions);
      && id in s.db.products
      && s.db.products[id].stock ==
           db.products[id].stock + NetEdits(db, s.log, id) - (Sold(s.db.orders, id) - Sold(db.orders, id))
      && s.db.products[id].stock >= 0
  {
    var s := Execute(Initial(db), actions);
    EveryRunIsSerializable(db, actions);
    RunKeepsFreshIds(db, actions);
    LoggedIdsAreNew(db, s);
    ReplayConserves(db, s.log, id);
  }

  /** No lost update: whatever the others do, a locked row still is what its holder read. */
  lemma {:induction false} SnapshotIsCommittedRow(db: Db, actions: seq<Action>, t: TxId, i: nat)
    requires WellFormed(db) && Admissible(Initial(db), actions)
    requires t in Execute(Initial(db), actions).txs && Unfinished(Execute(Initial(db), actions).txs[t])
    requires i < |Execute(Initial(db), actions).txs[t].snapshots|
    ensures var s := Execute(Initial(db), actions);
      var tx := s.txs[t];
      && i < |tx.lines| && tx.lines[i].productId in s.db.products
      && s.db.products[tx.lines[i].productId] == tx.snapshots[i]
  {
    EveryRunIsSerializable(db, actions);
  }

  lemma {:induction false} NotRollingBackForStock(s: State, t: TxId, id: ProductId)
    requires Inv(s) && t in s.txs
    ensures s.txs[t].phase != RollingBack(StockUpdateFailed(id))
  {
    if s.txs[t].phase == RollingBack(StockUpdateFailed(id)) {
      RefusalIsAtomic(s.db, s.locks, t, s.txs[t], StockUpdateFailed(id));
    }
  }

  lemma {:induction false} NotFailedForStock(db: Db, s: State, t: TxId, id: ProductId)
    requires Serialized(db, s) && t in s.txs
    ensures s.txs[t].phase != Finished(Failed(StockUpdateFailed(id)))
  {
    if s.txs[t].phase == Finished(Failed(StockUpdateFailed(id))) {
      var e := Entry(t, s.txs[t].request, Failed(StockUpdateFailed(id)));
      assert e in s.log;
      var i :| 0 <= i < |s.log| && s.log[i] == e;
      AtomicErrors(Replay(db, s.log[..i]), t, e.request);
    }
  }

  /** The branch STOCK_UPDATE_FAILED is never reached: every stock update about to be made changes exactly one row. */
  lemma {:induction false} StockUpdateNeverFails(db: Db, actions: seq<Action>, t: TxId, id: ProductId)
    requires WellFormed(db) && Admissible(Initial(db), actions)
    requires t in Execute(Initial(db), actions).txs
    ensures Execute(Initial(db), actions).txs[t].phase != RollingBack(StockUpdateFailed(id))
    ensures Execute(Initial(db), actions).txs[t].phase != Finished(Failed(StockUpdateFailed(id)))
    ensures var s := Execute(Initial(db), actions);
      s.txs[t].phase.WritingStock? ==> NextUpdateAffectsOneRow(s.db, s.txs[t])
  {
    EveryRunIsSerializable(db, actions);
    var s := Execute(Initial(db), actions);
    NotRollingBackForStock(s, t, id);
    NotFailedForStock(db, s, t, id);
    if s.txs[t].phase.WritingStock? {
      StockUpdateAffectsOneRow(s.db, s.locks, t, s.txs[t]);
    }
  }

  lemma {:induction false} AtomicErrors(db: Db, t: TxId, request: Request)
    ensures Atomic(db, t, request).1.Failed? ==> !Atomic(db, t, request).1.error.StockUpdateFailed?
  {
    if request.PlaceOrder? {
      var k := FirstRefusalAt(db.products, Normalized(request.items));
    }
  }

  // ---- The order book

  function ItemsTotal(items: seq<Item>): int {
    if items == [] then 0
    else ItemsTotal(items[..|items| - 1]) + items[|items| - 1].price * items[|items| - 1].quantity
  }

  /** One item per distinct product, and the total is the exact sum of price times quantity. */
  predicate Consistent(order: Order) {
    && (forall i, j :: 0 <= i < j < |order.items| ==> order.items[i].productId < order.items[j].productId)
    && (|order.items| <= MAX_LINES ==> order.total == ItemsTotal(order.items))
  }

  lemma {:induction false} ItemsTotalIsWorth(products: map<ProductId, Product>, lines: seq<Line>)
    ensures ItemsTotal(ItemsOf(products, lines)) == Worth(products, lines)
  {
    if lines == [] {
    } else {
      var front := lines[..|lines| - 1];
      ItemsTotalIsWorth(products, front);
      assert ItemsOf(products, lines)[..|lines| - 1] == ItemsOf(products, front);
    }
  }

  lemma {:induction false} PlacedOrderIsConsistent(db: Db, t: TxId, userId: UserId, items: seq<Line>)
    requires AtomicOrder(db, t, userId, items).1.Placed?
    ensures Consistent(AtomicOrder(db, t, userId, items).1.order)
  {
    NormalFormIsCanonical(items);
    var lines := Normalized(items);
    if |lines| <= MAX_LINES {
      PrintedTotalIsExact(ChargesOf(db.products, lines));
      ExactTotalIsWorth(db.products, lines);
      ItemsTotalIsWorth(db.products, lines);
    }
  }

  lemma {:induction false} ReplayedOrdersConsistent(db: Db, log: seq<Entry>, k: OrderId)
    requires k in Replay(db, log).orders
    ensures Consistent(Replay(db, log).orders[k]) || (k in db.orders && Replay(db, log).orders[k] == db.orders[k])
  {
    if log == [] {
    } else {
      var front, last := log[..|log| - 1], log[|log| - 1];
      var before := Replay(db, front);
      if last.request.PlaceOrder? && Atomic(before, last.tx, last.request).1.Placed? && k == last.tx {
        PlacedOrderIsConsistent(before, k, last.request.userId, last.request.items);
      } else {
        ReplayedOrdersConsistent(db, front, k);
      }
    }
  }

  /** Order-book invariant: every order committed by the run is consistent. */
  lemma {:induction false} OrderBookIsConsistent(db: Db, actions: seq<Action>, k: OrderId)
    requires WellFormed(db) && Admissible(Initial(db), actions)
    requires k in Execute(Initial(db), actions).db.orders
    ensures Consistent(Execute(Initial(db), actions).db.orders[k])
      || (k in db.orders && Execute(Initial(db), actions).db.orders[k] == db.orders[k])
  {
    EveryRunIsSerializable(db, actions);
    ReplayedOrdersConsistent(db, Execute(Initial(db), actions).log, k);
  }

  lemma {:induction false} AdmissiblePrefix(s: State, actions: seq<Action>, n: nat)
    requires Admissible(s, actions) && n <= |actions|
    ensures Admissible(s, actions[..n])
    decreases |actions|
  {
    if n == |actions| {
      assert actions[..n] == actions;
    } else {
      AdmissiblePrefix(s, actions[..|actions| - 1], n);
      assert actions[..|actions| - 1][..n] == actions[..n];
    }
  }

  /** A committed order never changes: not by later price edits, soft deletes or other orders. */
  lemma {:induction false} OrdersAreImmutable(db: Db, actions: seq<Action>, n: nat, k: OrderId)
    requires WellFormed(db) && Admissible(Initial(db), actions) && n <= |actions|
    requires Admissible(Initial(db), actions[..n]) && k in Execute(Initial(db), actions[..n]).db.orders
    ensures k in Execute(Initial(db), actions).db.orders
    ensures Execute(Initial(db), actions).db.orders[k] == Execute(Initial(db), actions[..n]).db.orders[k]
    decreases |actions|
  {
    if n == |actions| {
      assert actions[..n] == actions;
    } else {
      var front := actions[..|actions| - 1];
      assert front[..n] == actions[..n];
      OrdersAreImmutable(db, front, n, k);
      EveryRunIsSerializable(db, front);
      StepKeepsOrders(Execute(Initial(db), front), actions[|actions| - 1]);
    }
  }

  // ---- Jobs

  ghost predicate OrdersOfPlaced(s: State) {
    forall t :: t in s.txs && s.txs[t].phase.Finished? && s.txs[t].phase.outcome.Placed? ==>
      t in s.db.orders && s.db.orders[t] == s.txs[t].phase.outcome.order
  }

  /** Every queued job is about a committed order, with its user and total; one job per order id. */
  ghost predicate JobsSound(s: State) {
    forall k :: k in s.jobs ==>
      && k in s.txs && s.txs[k].phase.Finished? && s.txs[k].phase.outcome.Placed?
      && k in s.db.orders
      && s.jobs[k] == Job(k, s.db.orders[k].userId, s.db.orders[k].total)
  }

  /** A transaction only becomes `Placed` by committing. */
  lemma {:induction false} BecomesPlaced(s: State, a: Action, t: TxId)
    requires Enabled(s, a) && t in Apply(s, a).txs
    requires Apply(s, a).txs[t].phase.Finished? && Apply(s, a).txs[t].phase.outcome.Placed?
    ensures (t in s.txs && s.txs[t] == Apply(s, a).txs[t])
      || (a == Advance(t) && s.txs[t].phase.Committing? && s.txs[t].request.PlaceOrder?)
  {
    if a == Advance(t) && !s.txs[t].phase.Committing? && !s.txs[t].phase.RollingBack? {
      QuietStep(s, t);
    }
  }

  lemma {:induction false} StepKeepsPlaced(s: State, a: Action)
    requires Inv(s) && Enabled(s, a) && OrdersOfPlaced(s)
    ensures OrdersOfPlaced(Apply(s, a))
  {
    var s' := Apply(s, a);
    StepKeepsOrders(s, a);
    forall t | t in s'.txs && s'.txs[t].phase.Finished? && s'.txs[t].phase.outcome.Placed?
      ensures t in s'.db.orders && s'.db.orders[t] == s'.txs[t].phase.outcome.order
    {
      BecomesPlaced(s, a, t);
      if t in s.txs && s.txs[t] == s'.txs[t] {
        assert t in s.db.orders;
      }
    }
  }

  lemma {:induction false} StepKeepsJobs(s: State, a: Action)
    requires Inv(s) && Enabled(s, a) && OrdersOfPlaced(s) && JobsSound(s)
    ensures JobsSound(Apply(s, a))
  {
    StepKeepsOrders(s, a);
    var s' := Apply(s, a);
    forall k | k in s'.jobs
      ensures k in s'.txs && s'.txs[k].phase.Finished? && s'.txs[k].phase.outcome.Placed?
      ensures k in s'.db.orders && s'.jobs[k] == Job(k, s'.db.orders[k].userId, s'.db.orders[k].total)
    {
      FinishedStays(s, a, k);
      JobsOnlyByQueue(s, a);
    }
  }

  lemma {:induction false} FinishedStays(s: State, a: Action, t: TxId)
    requires Enabled(s, a) && t in s.txs && s.txs[t].phase.Finished?
    ensures t in Apply(s, a).txs && Apply(s, a).txs[t] == s.txs[t]
  {
  }

  lemma {:induction false} JobsOnlyByQueue(s: State, a: Action)
    requires Enabled(s, a)
    ensures !a.Queue? ==> Apply(s, a).jobs == s.jobs
  {
  }

  lemma {:induction false} JobsAreSound(db: Db, actions: seq<Action>)
    requires WellFormed(db) && Admissible(Initial(db), actions)
    ensures OrdersOfPlaced(Execute(Initial(db), actions))
    ensures JobsSound(Execute(Initial(db), actions))
    decreases |actions|
  {
    if actions == [] {
    } else {
      var front := actions[..|actions| - 1];
      JobsAreSound(db, front);
      EveryRunIsSerializable(db, front);
      var s, a := Execute(Initial(db), front), actions[|actions| - 1];
      StepKeepsPlaced(s, a);
      StepKeepsJobs(s, a);
    }
  }

  // ---- Racing for the last units

  function Winners(log: seq<Entry>): nat {
    if log == [] then 0
    else Winners(log[..|log| - 1]) + if log[|log| - 1].outcome.Placed? then 1 else 0
  }

  predicate OrdersOneUnit(request: Request, id: ProductId) {
    request.PlaceOrder? && request.items == [Line(id, 1)]
  }

  lemma {:induction false} UnitOrder(db: Db, t: TxId, userId: UserId, id: ProductId)
    requires Live(db.products, id) && WellFormed(db)
    ensures AtomicOrder(db, t, userId, [Line(id, 1)]).1.Placed? <==> db.products[id].stock >= 1
    ensures var db' := AtomicOrder(db, t, userId, [Line(id, 1)]).0;
      && Live(db'.products, id)
      && db'.products[id].stock == db.products[id].stock - if db.products[id].stock >= 1 then 1 else 0
  {
    SingleLine(Line(id, 1));
    var items := [Line(id, 1)];
    OrderSucceedsIff(db, t, userId, items);
    assert Worth(db.products, items) == db.products[id].price by {
      assert items[..0] == [];
    }
    assert Available(db.products, items, id) <==> db.products[id].stock >= 1;
  }

  lemma {:induction false} WinnersAreLimitedByStock(db: Db, log: seq<Entry>, id: ProductId)
    requires WellFormed(db) && Explains(db, log) && Live(db.products, id)
    requires forall i :: 0 <= i < |log| ==> OrdersOneUnit(log[i].request, id)
    ensures var stock := db.products[id].stock;
      && Winners(log) == (if |log| <= stock then |log| else stock)
      && WellFormed(Replay(db, log))
      && Live(Replay(db, log).products, id)
      && Replay(db, log).products[id].stock == stock - Winners(log)
  {
    if log == [] {
    } else {
      var n := |log| - 1;
      var front, last := log[..n], log[n];
      ExplainsPrefix(db, log, n);
      WinnersAreLimitedByStock(db, front, id);
      UnitOrder(Replay(db, front), last.tx, last.request.userId, id);
      AtomicKeepsWellFormed(Replay(db, front), last.tx, last.request);
    }
  }

  /** Any number of concurrent one-unit orders of a product: exactly as many succeed as there are units, or all do. */
  lemma {:induction false} RacingOrdersSellExactlyTheStock(db: Db, actions: seq<Action>, id: ProductId)
    requires WellFormed(db) && Admissible(Initial(db), actions) && Live(db.products, id)
    requires forall t :: t in Execute(Initial(db), actions).txs ==>
      OrdersOneUnit(Execute(Initial(db), actions).txs[t].request, id)
    ensures var s := Execute(Initial(db), actions);
      var stock := db.products[id].stock;
      && Winners(s.log) == (if |s.log| <= stock then |s.log| else stock)
      && id in s.db.products && s.db.products[id].stock == stock - Winners(s.log)
  {
    EveryRunIsSerializable(db, actions);
    WinnersAreLimitedByStock(db, Execute(Initial(db), actions).log, id);
  }
}
