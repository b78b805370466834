/** The three services as database transactions whose steps interleave freely.
    A locking read takes the exclusive lock of an existing row until commit or rollback and sees the latest committed
    row; everything a transaction writes stays private until it commits. */
module Transactions {
  import opened Options
  import opened OrderLines
  import opened Money
  import opened Catalogue

  type TxId = nat

  /** One pending UPDATE of a products row: only the named columns change. */
  datatype RowWrite =
    | SetStock(stock: int)
    | SetFields(edit: Edit)
    | SetDeleted

  function Overlay(row: Product, write: RowWrite): Product {
    match write
    case SetStock(stock) => row.(stock := stock)
    case SetFields(edit) => if ValidEdit(edit) then EditedRow(row, edit) else row
    case SetDeleted => row.(isDeleted := true)
  }

  datatype Phase =
    | Locking
    | InsertingOrder
    | WritingStock(next: nat)
    | InsertingItem(next: nat)
    | WritingEdit
    | Committing
    | RollingBack(error: Error)
    | Finished(outcome: Outcome)

  /** `lines` are the normalized lines, whose products are the lock targets in order;
      `snapshots[i]` is the row read under the lock of the i-th target. */
  datatype Tx = Tx(
    request: Request,
    lines: seq<Line>,
    phase: Phase,
    snapshots: seq<Product>,
    writes: map<ProductId, RowWrite>,
    order: Option<Order>)

  datatype Job = Job(orderId: OrderId, userId: UserId, total: int)

  /** `log` is a history variable: the transactions in the order in which they committed or were refused. */
  datatype Entry = Entry(tx: TxId, request: Request, outcome: Outcome)

  datatype State = State(
    db: Db,
    locks: map<ProductId, TxId>,
    txs: map<TxId, Tx>,
    jobs: map<OrderId, Job>,
    log: seq<Entry>)

  datatype Action =
    | Begin(tx: TxId, request: Request)
    | Advance(tx: TxId)
    | Fail(tx: TxId)
    | Queue(tx: TxId)

  function Initial(db: Db): State {
    State(db, map[], map[], map[], [])
  }

  function LinesOf(request: Request): seq<Line> {
    match request
    case PlaceOrder(_, items) => Normalized(items)
    case EditProduct(id, _) => [Line(id, 0)]
    case DeleteProduct(id) => [Line(id, 0)]
  }

  /** The check made on a row right after it was locked and read. */
  function RowRefusal(request: Request, line: Line, row: Product): Option<Error> {
    if row.isDeleted then Some(ProductNotFound(line.productId))
    else if request.PlaceOrder? && row.stock < line.quantity then
      Some(InsufficientStock(line.productId, row.sku, line.quantity, row.stock))
    else None
  }

  predicate Unfinished(tx: Tx) {
    !tx.phase.Finished?
  }

  /** Every index the next step uses is in range. */
  predicate WellShaped(tx: Tx) {
    var n := |tx.lines|;
    && |tx.snapshots| <= n
    && (!tx.request.PlaceOrder? ==> n == 1)
    && match tx.phase
       case Locking => |tx.snapshots| < n
       case InsertingOrder => tx.request.PlaceOrder? && |tx.snapshots| == n
       case WritingStock(i) => tx.request.PlaceOrder? && |tx.snapshots| == n && i < n && tx.order.Some?
       case InsertingItem(i) => tx.request.PlaceOrder? && |tx.snapshots| == n && i < n && tx.order.Some?
       case WritingEdit => !tx.request.PlaceOrder? && |tx.snapshots| == n
       case Committing => |tx.snapshots| == n && (tx.request.PlaceOrder? ==> tx.order.Some?)
       case RollingBack(_) => true
       case Finished(_) => true
  }

  function NextTarget(tx: Tx): ProductId
    requires tx.phase.Locking? && WellShaped(tx)
  {
    tx.lines[|tx.snapshots|].productId
  }

  predicate Waiting(s: State, t: TxId) {
    && t in s.txs && WellShaped(s.txs[t]) && s.txs[t].phase.Locking?
    && NextTarget(s.txs[t]) in s.locks
  }

  predicate Enabled(s: State, a: Action) {
    match a
    case Begin(t, request) => t !in s.txs && t !in s.db.orders && ValidRequest(request)
    case Advance(t) => t in s.txs && Unfinished(s.txs[t]) && WellShaped(s.txs[t]) && !Waiting(s, t)
    case Fail(t) => t in s.txs && Unfinished(s.txs[t]) && !s.txs[t].phase.RollingBack?
    case Queue(t) => t in s.txs && s.txs[t].phase.Finished? && s.txs[t].phase.outcome.Placed? && t !in s.jobs
  }

  function Apply(s: State, a: Action): State
    requires Enabled(s, a)
  {
    match a
    case Begin(t, request) => s.(txs := s.txs[t := Tx(request, LinesOf(request), Locking, [], map[], None)])
    case Advance(t) => Next(s, t)
    case Fail(t) => s.(txs := s.txs[t := s.txs[t].(phase := RollingBack(DatabaseFailure))])
    case Queue(t) =>
      var order := s.txs[t].phase.outcome.order;
      s.(jobs := s.jobs[t := Job(t, order.userId, order.total)])
  }

  function Next(s: State, t: TxId): State
    requires Enabled(s, Advance(t))
  {
    var tx := s.txs[t];
    match tx.phase
    case Locking => LockAndRead(s, t)
    case Committing => Commit(s, t)
    case RollingBack(e) => Rollback(s, t, e)
    case _ => s.(txs := s.txs[t := WriteStep(s.db, tx)])
  }

  function LockAndRead(s: State, t: TxId): State
    requires Enabled(s, Advance(t)) && s.txs[t].phase.Locking?
  {
    var tx := s.txs[t];
    var line := tx.lines[|tx.snapshots|];
    var id := line.productId;
    if id !in s.db.products then
      s.(txs := s.txs[t := tx.(phase := RollingBack(ProductNotFound(id)))])
    else
      s.(locks := s.locks[id := t], txs := s.txs[t := AfterRead(tx, line, s.db.products[id])])
  }

  function AfterRead(tx: Tx, line: Line, row: Product): Tx {
    var refusal := RowRefusal(tx.request, line, row);
    if refusal.Some? then tx.(phase := RollingBack(refusal.value))
    else
      var snapshots := tx.snapshots + [row];
      tx.(snapshots := snapshots,
          phase := if |snapshots| < |tx.lines| then Locking
                   else if tx.request.PlaceOrder? then InsertingOrder
                   else WritingEdit)
  }

  function SnapshotCharges(lines: seq<Line>, snapshots: seq<Product>): seq<Charge>
    requires |snapshots| == |lines|
  {
    seq(|snapshots|, i requires 0 <= i < |snapshots| => Charge(snapshots[i].price, lines[i].quantity))
  }

  /** The row as the transaction itself sees it: its own pending write over the committed row. */
  function RowSeen(db: Db, tx: Tx, id: ProductId): Product
    requires id in db.products
  {
    if id in tx.writes then Overlay(db.products[id], tx.writes[id]) else db.products[id]
  }

  /** The affected-row count of `UPDATE products SET stockQuantity = stock WHERE id = id`: a matched row that already
      holds the value does not count. */
  function AffectedRows(db: Db, tx: Tx, id: ProductId, stock: int): nat {
    if id in db.products && RowSeen(db, tx, id).stock != stock then 1 else 0
  }

  /** The steps that only touch the private buffer of the transaction. */
  function WriteStep(db: Db, tx: Tx): Tx
    requires WellShaped(tx)
  {
    var lines := tx.lines;
    match tx.phase
    case InsertingOrder =>
      var total := PrintedTotal(SnapshotCharges(lines, tx.snapshots));
      if total > MAX_CENTS then tx.(phase := RollingBack(TotalOutOfRange))
      else tx.(order := Some(Order(tx.request.userId, total, [])),
               phase := if |lines| == 0 then Committing else WritingStock(0))
    case WritingStock(i) =>
      var id, stock := lines[i].productId, tx.snapshots[i].stock - lines[i].quantity;
      if AffectedRows(db, tx, id, stock) == 0 then tx.(phase := RollingBack(StockUpdateFailed(id)))
      else tx.(writes := tx.writes[id := SetStock(stock)], phase := InsertingItem(i))
    case InsertingItem(i) =>
      var item := Item(lines[i].productId, lines[i].quantity, ToFixedCents(NumberOf(tx.snapshots[i].price)));
      tx.(order := Some(tx.order.value.(items := tx.order.value.items + [item])),
          phase := if i + 1 < |lines| then WritingStock(i + 1) else Committing)
    case WritingEdit =>
      if tx.request.EditProduct? then
        if ValidEdit(tx.request.edit)
        then tx.(writes := tx.writes[tx.request.id := SetFields(tx.request.edit)], phase := Committing)
        else tx.(phase := RollingBack(InvalidValue))
      else if tx.request.DeleteProduct? then tx.(writes := tx.writes[tx.request.id := SetDeleted], phase := Committing)
      else tx
    case _ => tx
  }

  function Release(locks: map<ProductId, TxId>, t: TxId): map<ProductId, TxId> {
    map id | id in locks && locks[id] != t :: locks[id]
  }

  function CommittedDb(db: Db, t: TxId, tx: Tx): Db {
    Db(map id | id in db.products :: RowSeen(db, tx, id),
       if tx.order.Some? then db.orders[t := tx.order.value] else db.orders)
  }

  function CommitOutcome(tx: Tx): Outcome
    requires tx.phase.Committing? && WellShaped(tx)
  {
    match tx.request
    case PlaceOrder(_, _) => Placed(tx.order.value)
    case EditProduct(id, _) =>
      Edited(if id in tx.writes then Overlay(tx.snapshots[0], tx.writes[id]) else tx.snapshots[0])
    case DeleteProduct(id) => Deleted(id)
  }

  function Commit(s: State, t: TxId): State
    requires Enabled(s, Advance(t)) && s.txs[t].phase.Committing?
  {
    var tx := s.txs[t];
    var outcome := CommitOutcome(tx);
    s.(db := CommittedDb(s.db, t, tx),
       locks := Release(s.locks, t),
       txs := s.txs[t := tx.(phase := Finished(outcome))],
       log := s.log + [Entry(t, tx.request, outcome)])
  }

  /** A failure of the database itself is not an answer of the service: it is not logged. */
  function Rollback(s: State, t: TxId, e: Error): State
    requires t in s.txs
  {
    var tx := s.txs[t];
    s.(locks := Release(s.locks, t),
       txs := s.txs[t := tx.(phase := Finished(Failed(e)))],
       log := if e.DatabaseFailure? then s.log else s.log + [Entry(t, tx.request, Failed(e))])
  }

  // ---- Runs

  /** Every action of the run is enabled when its turn comes. */
  predicate Admissible(s: State, actions: seq<Action>)
    decreases |actions|, 0
  {
    actions != [] ==>
      var front := actions[..|actions| - 1];
      Admissible(s, front) && Enabled(Execute(s, front), actions[|actions| - 1])
  }

  function Execute(s: State, actions: seq<Action>): State
    requires Admissible(s, actions)
    decreases |actions|, 1
  {
    if actions == [] then s else Apply(Execute(s, actions[..|actions| - 1]), actions[|actions| - 1])
  }
}
