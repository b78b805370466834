/** The services statement by statement, as one transaction among others: at every `await` the others may commit. */
module OrderService {
  import opened Options
  import opened OrderLines
  import opened Money
  import opened Catalogue
  import opened Transactions
  import opened TransactionInvariant
  import opened Serializability
  import opened StockHistory
  import opened ServiceResults

  /** What other transactions may do to the committed tables while transaction `t` holds the locks `held`. */
  ghost predicate Tolerated(before: Db, after: Db, held: set<ProductId>, t: TxId) {
    && after.products.Keys == before.products.Keys
    && (forall id :: id in held && id in before.products ==> after.products[id] == before.products[id])
    && (forall k :: k in before.orders ==> k in after.orders && after.orders[k] == before.orders[k])
    && (t in after.orders ==> t in before.orders)
    && (WellFormed(before) ==> WellFormed(after))
  }

  function HeldBy(locks: map<ProductId, TxId>, t: TxId): set<ProductId> {
    set id | id in locks && locks[id] == t
  }

  /** Every step of another transaction of the interleaved machine is tolerated. */
  lemma {:induction false} OthersAreTolerated(s: State, a: Action, t: TxId)
    requires Inv(s) && Enabled(s, a) && a.tx != t
    ensures Tolerated(s.db, Apply(s, a).db, HeldBy(s.locks, t), t)
  {
    StepKeepsInv(s, a);
    StepKeepsOrders(s, a);
    if a.Advance? && s.txs[a.tx].phase.Committing? {
      CommitKeepsForeignRows(s, a.tx, t);
    }
  }

  lemma {:induction false} CommitKeepsForeignRows(s: State, u: TxId, t: TxId)
    requires Inv(s) && Enabled(s, Advance(u)) && s.txs[u].phase.Committing? && u != t
    ensures Commit(s, u).db.products.Keys == s.db.products.Keys
    ensures forall id :: id in HeldBy(s.locks, t) && id in s.db.products ==>
      Commit(s, u).db.products[id] == s.db.products[id]
    ensures t in Commit(s, u).db.orders ==> t in s.db.orders
  {
    WritesAreLocked(s.db, s.locks, u, s.txs[u]);
    forall id | id in HeldBy(s.locks, t)
      ensures id !in s.txs[u].writes
    {
      assert !Holds(s.locks, u, id);
    }
  }

  lemma {:induction false} ToleratedTwice(a: Db, b: Db, c: Db, held: set<ProductId>, t: TxId)
    requires Tolerated(a, b, {}, t) && Tolerated(b, c, held, t)
    ensures Tolerated(a, c, {}, t)
  {
  }

  /** The first `n` targets hold the rows that were read, and none of them refused. */
  ghost predicate Locked(db: Db, lines: seq<Line>, rows: seq<Product>, n: nat) {
    && n == |rows| <= |lines|
    && forall i :: 0 <= i < n ==>
         && lines[i].productId in db.products
         && db.products[lines[i].productId] == rows[i]
         && Refusal(db.products, lines[i]).None?
  }

  /** The targets of the first `n` lines. */
  function TargetSet(lines: seq<Line>, n: nat): set<ProductId>
    requires n <= |lines|
  {
    set i | 0 <= i < n :: lines[i].productId
  }

  lemma {:induction false} LockedStays(before: Db, after: Db, lines: seq<Line>, rows: seq<Product>, n: nat, t: TxId)
    requires Locked(before, lines, rows, n) && Tolerated(before, after, TargetSet(lines, n), t)
    ensures Locked(after, lines, rows, n)
  {
    forall i | 0 <= i < n
      ensures after.products[lines[i].productId] == rows[i]
    {
      assert lines[i].productId in TargetSet(lines, n);
    }
  }

  /** The absolute stock values written so far. */
  predicate PendingUpTo(lines: seq<Line>, rows: seq<Product>, pending: map<ProductId, int>, n: nat)
    requires n <= |rows| <= |lines|
  {
    && (forall i :: 0 <= i < n ==>
          lines[i].productId in pending && pending[lines[i].productId] == rows[i].stock - lines[i].quantity)
    && (forall id :: id in pending ==> AmongFirst(lines, n, id))
  }

  /** The affected-row count of a stock update within the transaction: a row that already holds the value does not
      count. */
  function UpdatedRows(products: map<ProductId, Product>, pending: map<ProductId, int>, id: ProductId, stock: int): nat
  {
    if id in products && (if id in pending then pending[id] else products[id].stock) != stock then 1 else 0
  }

  /** Under the locks an update that orders at least one unit changes its row. */
  lemma {:induction false} NextUpdateCounts(
      db: Db, lines: seq<Line>, rows: seq<Product>, pending: map<ProductId, int>, n: nat)
    requires n < |rows| == |lines| && Ascending(lines) && Locked(db, lines, rows, |lines|)
    requires PendingUpTo(lines, rows, pending, n) && lines[n].quantity >= 1
    ensures UpdatedRows(db.products, pending, lines[n].productId, rows[n].stock - lines[n].quantity) == 1
  {
    assert !AmongFirst(lines, n, lines[n].productId);
    assert db.products[lines[n].productId] == rows[n];
  }

  lemma {:induction false} NormalizedQuantities(items: seq<Line>)
    requires ValidItems(items)
    ensures forall i :: 0 <= i < |Normalized(items)| ==> Normalized(items)[i].quantity >= 1
  {
    forall i | 0 <= i < |Normalized(items)|
      ensures Normalized(items)[i].quantity >= 1
    {
      RefusalOfNormalized(map[], items, i);
      MentionedSumIsPositive(items, Normalized(items)[i].productId);
    }
  }

  lemma {:induction false} PendingOneMore(lines: seq<Line>, rows: seq<Product>, pending: map<ProductId, int>, n: nat)
    requires n < |rows| <= |lines| && Ascending(lines) && PendingUpTo(lines, rows, pending, n)
    ensures PendingUpTo(lines, rows, pending[lines[n].productId := rows[n].stock - lines[n].quantity], n + 1)
  {
    assert AmongFirst(lines, n + 1, lines[n].productId);
  }

  /** Under the locks the absolute writes amount to deducting the raw request lines. */
  lemma {:induction false} PendingDeducts(db: Db, items: seq<Line>, rows: seq<Product>, pending: map<ProductId, int>)
    requires Locked(db, Normalized(items), rows, |Normalized(items)|)
    requires PendingUpTo(Normalized(items), rows, pending, |rows|)
    ensures WithStocks(db.products, pending) == Deducted(db.products, items)
  {
    var lines := Normalized(items);
    NormalFormIsCanonical(items);
    forall id | id in db.products
      ensures WithStocks(db.products, pending)[id] == Deducted(db.products, items)[id]
    {
      if Mentions(lines, id) {
        var i :| 0 <= i < |lines| && lines[i].productId == id;
        assert db.products[id] == rows[i];
      } else {
        UnmentionedSum(items, id);
      }
    }
  }

  function WithStocks(products: map<ProductId, Product>, stocks: map<ProductId, int>): map<ProductId, Product> {
    map id | id in products :: if id in stocks then products[id].(stock := stocks[id]) else products[id]
  }

  lemma {:induction false} LockedCharges(db: Db, lines: seq<Line>, rows: seq<Product>)
    requires Locked(db, lines, rows, |lines|)
    ensures SnapshotCharges(lines, rows) == ChargesOf(db.products, lines)
  {
  }

  lemma {:induction false} LockedItems(db: Db, lines: seq<Line>, rows: seq<Product>)
    requires WellFormed(db) && Locked(db, lines, rows, |lines|)
    ensures ItemsUpTo(lines, rows, |lines|) == ItemsOf(db.products, lines)
  {
    forall i | 0 <= i < |lines|
      ensures ToFixedCents(NumberOf(rows[i].price)) == rows[i].price
    {
      PrintedPriceIsExact(rows[i].price);
    }
  }

  /** The committed tables, shared by all transactions. */
  class Database {
    var products: map<ProductId, Product>
    var orders: map<OrderId, Order>

    function Contents(): Db
      reads this
    {
      Db(products, orders)
    }

    constructor (products: map<ProductId, Product>, orders: map<OrderId, Order>)
      ensures Contents() == Db(products, orders)
    {
      this.products, this.orders := products, orders;
    }

    /** An `await` of transaction `t`. Its callers know nothing but the contract: any tolerated change may happen. */
    method Await(ghost held: set<ProductId>, ghost t: TxId)
      modifies this
      ensures Tolerated(old(Contents()), Contents(), held, t)
    {
    }

    /** `createOrder`: whatever the others do meanwhile, it takes effect atomically on the tables `at` its end. */
    method CreateOrder(orderId: OrderId, userId: UserId, items: seq<Line>) returns (outcome: Outcome, ghost at: Db)
      requires WellFormed(Contents()) && ValidItems(items) && orderId !in orders
      modifies this
      ensures (Contents(), outcome) == AtomicOrder(at, orderId, userId, items)
      ensures Meets(at, Contents(), orderId, PlaceOrder(userId, items), outcome)
      ensures Tolerated(old(Contents()), at, {}, orderId)
    {
      var merged := MergeOrderItems(items);
      var lines := SortById(merged);
      NormalFormIsCanonical(items);

      var rows, refusal := LockProducts(orderId, lines);
      at := Contents();
      if refusal.Some? {
        FirstRefusalIs(products, lines, |rows|);
        AtomicMeets(at, orderId, PlaceOrder(userId, items));
        return Failed(refusal.value), at;
      }

      var sum := ReduceTotal(lines, rows);
      var total := ToFixedCents(sum);
      if total > MAX_CENTS {
        FirstRefusalIs(products, lines, |rows|);
        LockedCharges(at, lines, rows);
        AtomicMeets(at, orderId, PlaceOrder(userId, items));
        return Failed(TotalOutOfRange), at;
      }

      NormalizedQuantities(items);
      var pending, rowsWritten, failure := WriteLines(orderId, lines, rows);
      ToleratedTwice(old(Contents()), at, Contents(), TargetSet(lines, |lines|), orderId);
      at := Contents();
      if failure.Some? {
        assert false;  // STOCK_UPDATE_FAILED is never thrown
      }

      var order := Order(userId, total, rowsWritten);
      FirstRefusalIs(products, lines, |rows|);
      LockedCharges(at, lines, rows);
      LockedItems(at, lines, rows);
      PendingDeducts(at, items, rows, pending);
      AtomicMeets(at, orderId, PlaceOrder(userId, items));
      products, orders := WithStocks(products, pending), orders[orderId := order];
      outcome := Placed(order);
    }

    /** The locking loop: one `SELECT ... FOR UPDATE` per line, in ascending order, up to the first refusal. */
    method LockProducts(orderId: OrderId, lines: seq<Line>) returns (rows: seq<Product>, refusal: Option<Error>)
      requires WellFormed(Contents())
      modifies this
      ensures WellFormed(Contents()) && Tolerated(old(Contents()), Contents(), {}, orderId)
      ensures |rows| <= |lines| && Locked(Contents(), lines, rows, |rows|)
      ensures refusal == if |rows| < |lines| then Refusal(products, lines[|rows|]) else None
      ensures |rows| < |lines| ==> refusal.Some?
    {
      rows, refusal := [], None;
      for i := 0 to |lines|
        invariant |rows| == i && Locked(Contents(), lines, rows, i)
        invariant WellFormed(Contents()) && Tolerated(old(Contents()), Contents(), {}, orderId)
        invariant refusal == None
      {
        label beforeRead:
        Await(TargetSet(lines, i), orderId);
        LockedStays(old@beforeRead(Contents()), Contents(), lines, rows, i, orderId);
        ToleratedTwice(old(Contents()), old@beforeRead(Contents()), Contents(), TargetSet(lines, i), orderId);
        var id := lines[i].productId;
        if id !in products || products[id].isDeleted {
          refusal := Some(ProductNotFound(id));
          return;
        }
        var row := products[id];
        if row.stock < lines[i].quantity {
          refusal := Some(InsufficientStock(id, row.sku, lines[i].quantity, row.stock));
          return;
        }
        rows := rows + [row];
      }
    }

    /** The `reduce` over the locked lines. */
    method ReduceTotal(lines: seq<Line>, rows: seq<Product>) returns (sum: real)
      requires |rows| == |lines|
      ensures sum == RunningTotal(SnapshotCharges(lines, rows))
    {
      ghost var charges := SnapshotCharges(lines, rows);
      sum := 0.0;
      for i := 0 to |rows|
        invariant sum == RunningTotal(charges[..i])
      {
        assert charges[..i + 1][..i] == charges[..i];
        sum := Additions(sum, Charge(rows[i].price, lines[i].quantity));
      }
      assert charges[..|rows|] == charges;
    }

    /** The write loop: per line an absolute stock update and an item row, both private until the commit. */
    method WriteLines(orderId: OrderId, lines: seq<Line>, rows: seq<Product>)
      returns (pending: map<ProductId, int>, items: seq<Item>, failure: Option<Error>)
      requires WellFormed(Contents()) && Ascending(lines) && Locked(Contents(), lines, rows, |lines|)
      requires forall i :: 0 <= i < |lines| ==> lines[i].quantity >= 1
      modifies this
      ensures failure.None?
      ensures WellFormed(Contents()) && Tolerated(old(Contents()), Contents(), TargetSet(lines, |lines|), orderId)
      ensures Locked(Contents(), lines, rows, |lines|)
      ensures PendingUpTo(lines, rows, pending, |rows|)
      ensures items == ItemsUpTo(lines, rows, |rows|)
    {
      ghost var held := TargetSet(lines, |lines|);
      pending, items, failure := map[], [], None;
      for i := 0 to |rows|
        invariant WellFormed(Contents()) && Tolerated(old(Contents()), Contents(), held, orderId)
        invariant Locked(Contents(), lines, rows, |lines|)
        invariant PendingUpTo(lines, rows, pending, i)
        invariant items == ItemsUpTo(lines, rows, i)
      {
        label beforeWrite:
        Await(held, orderId);
        LockedStays(old@beforeWrite(Contents()), Contents(), lines, rows, |lines|, orderId);
        var id, stock := lines[i].productId, rows[i].stock - lines[i].quantity;
        NextUpdateCounts(Contents(), lines, rows, pending, i);
        if UpdatedRows(products, pending, id, stock) == 0 {
          failure := Some(StockUpdateFailed(id));
          return;
        }
        PendingOneMore(lines, rows, pending, i);
        pending := pending[id := stock];
        items := items + [Item(lines[i].productId, lines[i].quantity, ToFixedCents(NumberOf(rows[i].price)))];
      }
    }

    /** The service answers with the row it wrote exactly when the product is live and the values fit. */
    method UpdateProduct(id: ProductId, edit: Edit, ghost t: TxId) returns (outcome: Outcome, ghost at: Db)
      requires WellFormed(Contents())
      modifies this
      ensures (Contents(), outcome) == AtomicEdit(at, id, edit)
      ensures Meets(at, Contents(), t, EditProduct(id, edit), outcome)
      ensures Tolerated(old(Contents()), at, {}, t)
    {
      Await({}, t);
      at := Contents();
      if id !in products || products[id].isDeleted {
        AtomicMeets(at, t, EditProduct(id, edit));
        return Failed(ProductNotFound(id)), at;
      }
      var row := products[id];
      label beforeWrite:
      Await({id}, t);
      ToleratedTwice(old(Contents()), old@beforeWrite(Contents()), Contents(), {id}, t);
      at := Contents();
      AtomicMeets(at, t, EditProduct(id, edit));
      if !ValidEdit(edit) {
        return Failed(InvalidValue), at;
      }
      outcome := Edited(EditedRow(row, edit));
      products := products[id := EditedRow(products[id], edit)];
    }

    /** A live product is marked deleted and nothing else changes; any other id is not found. */
    method SoftDeleteProduct(id: ProductId, ghost t: TxId) returns (outcome: Outcome, ghost at: Db)
      requires WellFormed(Contents())
      modifies this
      ensures (Contents(), outcome) == AtomicDelete(at, id)
      ensures Meets(at, Contents(), t, DeleteProduct(id), outcome)
      ensures Tolerated(old(Contents()), at, {}, t)
    {
      Await({}, t);
      at := Contents();
      if id !in products || products[id].isDeleted {
        AtomicMeets(at, t, DeleteProduct(id));
        return Failed(ProductNotFound(id)), at;
      }
      label beforeWrite:
      Await({id}, t);
      ToleratedTwice(old(Contents()), old@beforeWrite(Contents()), Contents(), {id}, t);
      at := Contents();
      AtomicMeets(at, t, DeleteProduct(id));
      products := products[id := products[id].(isDeleted := true)];
      outcome := Deleted(id);
    }
  }
}
