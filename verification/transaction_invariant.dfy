/** What every step of every interleaving keeps. */
module TransactionInvariant {
  import opened Options
  import opened OrderLines
  import opened Money
  import opened Catalogue
  import opened Transactions

  predicate Holds(locks: map<ProductId, TxId>, t: TxId, id: ProductId) {
    id in locks && locks[id] == t
  }

  /** While a transaction holds a row lock, its snapshot is the committed row. */
  ghost predicate SnapshotsCurrent(db: Db, locks: map<ProductId, TxId>, t: TxId, tx: Tx) {
    var lines := tx.lines;
    && |tx.snapshots| <= |lines|
    && forall i :: 0 <= i < |tx.snapshots| ==>
         && Holds(locks, t, lines[i].productId)
         && lines[i].productId in db.products
         && db.products[lines[i].productId] == tx.snapshots[i]
         && RowRefusal(tx.request, lines[i], tx.snapshots[i]).None?
  }

  function StockWrites(lines: seq<Line>, snapshots: seq<Product>, n: nat): map<ProductId, RowWrite>
    requires n <= |snapshots| <= |lines|
  {
    if n == 0 then map[]
    else
      var line := lines[n - 1];
      StockWrites(lines, snapshots, n - 1)[line.productId := SetStock(snapshots[n - 1].stock - line.quantity)]
  }

  function ItemsUpTo(lines: seq<Line>, snapshots: seq<Product>, n: nat): seq<Item>
    requires n <= |snapshots| <= |lines|
  {
    seq(n, i requires 0 <= i < n =>
      Item(lines[i].productId, lines[i].quantity, ToFixedCents(NumberOf(snapshots[i].price))))
  }

  predicate OrderSoFar(tx: Tx, n: nat) {
    && tx.request.PlaceOrder?
    && var lines := tx.lines;
    && n <= |tx.snapshots| == |lines|
    && var total := PrintedTotal(SnapshotCharges(lines, tx.snapshots));
    && total <= MAX_CENTS
    && tx.order == Some(Order(tx.request.userId, total, ItemsUpTo(lines, tx.snapshots, n)))
  }

  predicate EditBuffered(tx: Tx) {
    match tx.request
    case PlaceOrder(_, _) => false
    case EditProduct(id, edit) => ValidEdit(edit) && tx.writes == map[id := SetFields(edit)]
    case DeleteProduct(id) => tx.writes == map[id := SetDeleted]
  }

  /** A refused transaction still holds the lock of the row that refused it, or that row does not exist. */
  predicate Refused(db: Db, locks: map<ProductId, TxId>, t: TxId, tx: Tx, e: Error) {
    var lines, k := tx.lines, |tx.snapshots|;
    || (k < |lines| && lines[k].productId !in db.products && e == ProductNotFound(lines[k].productId))
    || (k < |lines| && Holds(locks, t, lines[k].productId) && lines[k].productId in db.products
        && RowRefusal(tx.request, lines[k], db.products[lines[k].productId]) == Some(e))
    || (k == |lines| && tx.request.PlaceOrder? && e == TotalOutOfRange
        && PrintedTotal(SnapshotCharges(lines, tx.snapshots)) > MAX_CENTS)
    || (k == |lines| && tx.request.EditProduct? && e == InvalidValue && !ValidEdit(tx.request.edit))
  }

  /** What the private buffer holds in each phase. */
  predicate Buffered(db: Db, locks: map<ProductId, TxId>, t: TxId, tx: Tx) {
    var lines, n := tx.lines, |tx.snapshots|;
    && n <= |lines|
    && match tx.phase
       case Locking => tx.writes == map[] && tx.order == None
       case InsertingOrder => tx.writes == map[] && tx.order == None
       case WritingEdit => tx.writes == map[] && tx.order == None
       case WritingStock(i) => OrderSoFar(tx, i) && i < n && tx.writes == StockWrites(lines, tx.snapshots, i)
       case InsertingItem(i) => OrderSoFar(tx, i) && i < n && tx.writes == StockWrites(lines, tx.snapshots, i + 1)
       case Committing =>
         if tx.request.PlaceOrder?
         then OrderSoFar(tx, n) && tx.writes == StockWrites(lines, tx.snapshots, n)
         else EditBuffered(tx) && tx.order == None
       case RollingBack(e) => e == DatabaseFailure || Refused(db, locks, t, tx, e)
       case Finished(_) => true
  }

  predicate AmongFirst(lines: seq<Line>, n: nat, id: ProductId) {
    exists i :: 0 <= i < |lines| && i < n && lines[i].productId == id
  }

  /** Locks are only held on targets; while locking, exactly on the targets already read. */
  ghost predicate LocksOwned(locks: map<ProductId, TxId>, t: TxId, tx: Tx) {
    var n := if tx.phase.Locking? then |tx.snapshots| else if tx.phase.Finished? then 0 else |tx.lines|;
    forall id :: Holds(locks, t, id) ==> AmongFirst(tx.lines, n, id)
  }

  ghost predicate TxInv(db: Db, locks: map<ProductId, TxId>, t: TxId, tx: Tx) {
    && ValidRequest(tx.request)
    && tx.lines == LinesOf(tx.request)
    && LocksOwned(locks, t, tx)
    && (Unfinished(tx) ==>
          && WellShaped(tx)
          && t !in db.orders
          && SnapshotsCurrent(db, locks, t, tx)
          && Buffered(db, locks, t, tx))
  }

  ghost predicate Inv(s: State) {
    && WellFormed(s.db)
    && (forall t :: t in s.txs ==> TxInv(s.db, s.locks, t, s.txs[t]))
    && (forall id :: id in s.locks ==> s.locks[id] in s.txs)
  }

  // ---- Preservation

  /** A step of another transaction that leaves the rows locked by `t` alone does not disturb `t`. */
  lemma {:induction false} Undisturbed(
      db: Db, locks: map<ProductId, TxId>, db': Db, locks': map<ProductId, TxId>, t: TxId, tx: Tx)
    requires TxInv(db, locks, t, tx)
    requires db'.products.Keys == db.products.Keys
    requires t in db'.orders ==> t in db.orders
    requires forall id :: Holds(locks', t, id) <==> Holds(locks, t, id)
    requires forall id :: Holds(locks, t, id) && id in db.products ==> db'.products[id] == db.products[id]
    ensures TxInv(db', locks', t, tx)
  {
    if Unfinished(tx) {
      assert forall id :: id in db'.products <==> id in db.products;
    }
  }

  lemma {:induction false} BeginKeepsTx(db: Db, locks: map<ProductId, TxId>, t: TxId, request: Request)
    requires ValidRequest(request) && t !in db.orders
    requires forall id :: !Holds(locks, t, id)
    ensures TxInv(db, locks, t, Tx(request, LinesOf(request), Locking, [], map[], None))
  {
    if request.PlaceOrder? {
      NormalFormIsCanonical(request.items);
      assert Mentions(request.items, request.items[0].productId);
      assert Mentions(Normalized(request.items), request.items[0].productId);
    }
  }

  lemma {:induction false} FailKeepsTx(db: Db, locks: map<ProductId, TxId>, t: TxId, tx: Tx)
    requires TxInv(db, locks, t, tx) && Unfinished(tx)
    ensures TxInv(db, locks, t, tx.(phase := RollingBack(DatabaseFailure)))
  {
  }

  lemma {:induction false} LinesAscend(request: Request)
    ensures Ascending(LinesOf(request))
  {
    if request.PlaceOrder? {
      NormalFormIsCanonical(request.items);
    }
  }

  lemma {:induction false} ReadTakesOneLock(locks: map<ProductId, TxId>, t: TxId, tx: Tx, row: Product)
    requires WellShaped(tx) && LocksOwned(locks, t, tx) && tx.phase.Locking?
    ensures LocksOwned(locks[NextTarget(tx) := t], t, AfterRead(tx, tx.lines[|tx.snapshots|], row))
  {
    var id, k := NextTarget(tx), |tx.snapshots|;
    var tx' := AfterRead(tx, tx.lines[k], row);
    var n := if tx'.phase.Locking? then k + 1 else |tx.lines|;
    forall other | Holds(locks[id := t], t, other)
      ensures AmongFirst(tx.lines, n, other)
    {
      if other == id {
        assert tx.lines[k].productId == other;
      } else {
        assert Holds(locks, t, other);
        assert AmongFirst(tx.lines, k, other);
      }
    }
  }

  lemma {:induction false} ReadTakesOneSnapshot(db: Db, locks: map<ProductId, TxId>, t: TxId, tx: Tx)
    requires WellShaped(tx) && SnapshotsCurrent(db, locks, t, tx) && tx.phase.Locking?
    requires NextTarget(tx) in db.products
    ensures SnapshotsCurrent(db, locks[NextTarget(tx) := t], t,
                             AfterRead(tx, tx.lines[|tx.snapshots|], db.products[NextTarget(tx)]))
  {
    forall i | 0 <= i < |tx.snapshots|
      ensures Holds(locks[NextTarget(tx) := t], t, tx.lines[i].productId)
    {
      assert Holds(locks, t, tx.lines[i].productId);
    }
  }

  lemma {:induction false} ReadKeepsTx(db: Db, locks: map<ProductId, TxId>, t: TxId, tx: Tx)
    requires TxInv(db, locks, t, tx) && tx.phase.Locking?
    requires NextTarget(tx) in db.products
    ensures TxInv(db, locks[NextTarget(tx) := t], t,
                  AfterRead(tx, tx.lines[|tx.snapshots|], db.products[NextTarget(tx)]))
  {
    ReadTakesOneLock(locks, t, tx, db.products[NextTarget(tx)]);
    ReadTakesOneSnapshot(db, locks, t, tx);
  }

  lemma {:induction false} MissingRowKeepsTx(db: Db, locks: map<ProductId, TxId>, t: TxId, tx: Tx)
    requires TxInv(db, locks, t, tx) && tx.phase.Locking?
    requires NextTarget(tx) !in db.products
    ensures TxInv(db, locks, t, tx.(phase := RollingBack(ProductNotFound(NextTarget(tx)))))
  {
  }

  lemma {:induction false} SamePlacesKeepTx(db: Db, locks: map<ProductId, TxId>, t: TxId, tx: Tx, tx': Tx)
    requires TxInv(db, locks, t, tx) && Unfinished(tx)
    requires tx'.request == tx.request && tx'.lines == tx.lines && tx'.snapshots == tx.snapshots
    requires !tx'.phase.Locking? && Unfinished(tx')
    requires WellShaped(tx') && Buffered(db, locks, t, tx')
    ensures TxInv(db, locks, t, tx')
  {
  }

  lemma {:induction false} InsertOrderBuffers(db: Db, locks: map<ProductId, TxId>, t: TxId, tx: Tx)
    requires WellShaped(tx) && Buffered(db, locks, t, tx) && tx.phase.InsertingOrder?
    ensures WellShaped(WriteStep(db, tx)) && Buffered(db, locks, t, WriteStep(db, tx))
  {
    assert ItemsUpTo(tx.lines, tx.snapshots, 0) == [];
  }

  predicate NextUpdateAffectsOneRow(db: Db, tx: Tx) {
    && WellShaped(tx) && tx.phase.WritingStock?
    && var i := tx.phase.next;
    AffectedRows(db, tx, tx.lines[i].productId, tx.snapshots[i].stock - tx.lines[i].quantity) == 1
  }

  /** A held lock, a current snapshot, distinct products and quantities of at least 1 make every stock update
      change exactly one row. */
  lemma {:induction false} StockUpdateAffectsOneRow(db: Db, locks: map<ProductId, TxId>, t: TxId, tx: Tx)
    requires WellShaped(tx) && SnapshotsCurrent(db, locks, t, tx) && Buffered(db, locks, t, tx)
    requires tx.phase.WritingStock? && ValidRequest(tx.request) && tx.lines == LinesOf(tx.request)
    ensures NextUpdateAffectsOneRow(db, tx)
  {
    var items, i := tx.request.items, tx.phase.next;
    var id := tx.lines[i].productId;
    LinesAscend(tx.request);
    StockWritesAt(tx.lines, tx.snapshots, i);
    assert !AmongFirst(tx.lines, i, id);
    assert RowSeen(db, tx, id) == tx.snapshots[i];
    RefusalOfNormalized(db.products, items, i);
    MentionedSumIsPositive(items, id);
  }

  lemma {:induction false} WriteStockBuffers(db: Db, locks: map<ProductId, TxId>, t: TxId, tx: Tx)
    requires Buffered(db, locks, t, tx) && NextUpdateAffectsOneRow(db, tx)
    ensures WriteStep(db, tx).phase.InsertingItem?
    ensures WellShaped(WriteStep(db, tx)) && Buffered(db, locks, t, WriteStep(db, tx))
  {
  }

  lemma {:induction false} InsertItemBuffers(db: Db, locks: map<ProductId, TxId>, t: TxId, tx: Tx)
    requires WellShaped(tx) && Buffered(db, locks, t, tx) && tx.phase.InsertingItem?
    ensures WellShaped(WriteStep(db, tx)) && Buffered(db, locks, t, WriteStep(db, tx))
  {
    var lines, i := tx.lines, tx.phase.next;
    var item := Item(lines[i].productId, lines[i].quantity, ToFixedCents(NumberOf(tx.snapshots[i].price)));
    assert ItemsUpTo(lines, tx.snapshots, i + 1) == ItemsUpTo(lines, tx.snapshots, i) + [item];
  }

  lemma {:induction false} WriteEditBuffers(db: Db, locks: map<ProductId, TxId>, t: TxId, tx: Tx)
    requires WellShaped(tx) && Buffered(db, locks, t, tx) && tx.phase.WritingEdit?
    ensures WellShaped(WriteStep(db, tx)) && Buffered(db, locks, t, WriteStep(db, tx))
  {
  }

  lemma {:induction false} WriteKeepsTx(db: Db, locks: map<ProductId, TxId>, t: TxId, tx: Tx)
    requires TxInv(db, locks, t, tx) && Unfinished(tx)
    requires !tx.phase.Locking? && !tx.phase.Committing? && !tx.phase.RollingBack?
    ensures TxInv(db, locks, t, WriteStep(db, tx))
  {
    match tx.phase
    case InsertingOrder => InsertOrderBuffers(db, locks, t, tx);
    case WritingStock(_) =>
      StockUpdateAffectsOneRow(db, locks, t, tx);
      WriteStockBuffers(db, locks, t, tx);
    case InsertingItem(_) => InsertItemBuffers(db, locks, t, tx);
    case WritingEdit => WriteEditBuffers(db, locks, t, tx);
    SamePlacesKeepTx(db, locks, t, tx, WriteStep(db, tx));
  }

  lemma {:induction false} ReleasedTx(db: Db, locks: map<ProductId, TxId>, t: TxId, tx: Tx, outcome: Outcome)
    requires ValidRequest(tx.request) && tx.lines == LinesOf(tx.request)
    ensures TxInv(db, Release(locks, t), t, tx.(phase := Finished(outcome)))
  {
  }

  lemma {:induction false} StockWritesAt(lines: seq<Line>, snapshots: seq<Product>, n: nat)
    requires n <= |snapshots| <= |lines| && Ascending(lines)
    ensures forall i :: 0 <= i < n ==>
      && lines[i].productId in StockWrites(lines, snapshots, n)
      && StockWrites(lines, snapshots, n)[lines[i].productId] == SetStock(snapshots[i].stock - lines[i].quantity)
    ensures forall id :: id in StockWrites(lines, snapshots, n) ==> AmongFirst(lines, n, id)
  {
    if n == 0 {
    } else {
      StockWritesAt(lines, snapshots, n - 1);
      assert AmongFirst(lines, n, lines[n - 1].productId);
    }
  }

  /** A committing transaction only changes rows it has locked. */
  lemma {:induction false} WritesAreLocked(db: Db, locks: map<ProductId, TxId>, t: TxId, tx: Tx)
    requires WellShaped(tx) && SnapshotsCurrent(db, locks, t, tx) && Buffered(db, locks, t, tx) && tx.phase.Committing?
    requires tx.lines == LinesOf(tx.request)
    ensures forall id :: id in tx.writes ==> Holds(locks, t, id)
  {
    var lines := tx.lines;
    if tx.request.PlaceOrder? {
      LinesAscend(tx.request);
      StockWritesAt(lines, tx.snapshots, |lines|);
      forall id | id in tx.writes
        ensures Holds(locks, t, id)
      {
        var i :| 0 <= i < |lines| && lines[i].productId == id;
      }
    } else {
      assert Holds(locks, t, lines[0].productId);
    }
  }
}
