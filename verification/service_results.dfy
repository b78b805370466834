/** What a client may rely on from each service, stated on the rows before and after. */
module ServiceResults {
  import opened Options
  import opened OrderLines
  import opened Money
  import opened Catalogue

  // ---- updateProduct

  /** What an update may set: a name of 3 to 200 characters, a price that prints as 0.01 to 99999999.99, and a stock
      that fits a signed 32-bit column. */
  predicate EditFits(edit: Edit) {
    && (edit.name.Some? ==> 3 <= |edit.name.value| <= 200)
    && (edit.price.Some? ==> 0.005 <= edit.price.value < 99999999.995)
    && (edit.stock.Some? ==> 0 <= edit.stock.value <= 2147483647)
  }

  /** Each given field is written, the price rounded to cents; every other column is kept. */
  ghost predicate RowAfterEdit(row: Product, edit: Edit, row': Product) {
    && row'.sku == row.sku && row'.isDeleted == row.isDeleted
    && (match edit.name case Some(name) => row'.name == name case None => row'.name == row.name)
    && (match edit.price case Some(price) => NearestCents(row'.price, price) case None => row'.price == row.price)
    && (match edit.stock case Some(stock) => row'.stock == stock case None => row'.stock == row.stock)
  }

  /** Only the row of `id` differs. */
  predicate OnlyRowDiffers(db: Db, db': Db, id: ProductId) {
    && db'.orders == db.orders && db'.products.Keys == db.products.Keys
    && forall other :: other in db.products && other != id ==> db'.products[other] == db.products[other]
  }

  ghost predicate EditResult(db: Db, db': Db, id: ProductId, edit: Edit, outcome: Outcome) {
    if !Live(db.products, id) then outcome == Failed(ProductNotFound(id)) && db' == db
    else if !EditFits(edit) then outcome == Failed(InvalidValue) && db' == db
    else
      && outcome.Edited? && RowAfterEdit(db.products[id], edit, outcome.product)
      && OnlyRowDiffers(db, db', id) && id in db'.products && db'.products[id] == outcome.product
  }

  lemma {:induction false} FitsIffValid(edit: Edit)
    ensures EditFits(edit) <==> ValidEdit(edit)
  {
  }

  /** `updateProduct` answers with the row it wrote exactly when the product is live and the values fit. */
  lemma {:induction false} EditMeetsItsResult(db: Db, id: ProductId, edit: Edit)
    ensures EditResult(db, AtomicEdit(db, id, edit).0, id, edit, AtomicEdit(db, id, edit).1)
  {
    FitsIffValid(edit);
    if edit.price.Some? {
      ToFixedIsNearest(edit.price.value);
    }
  }

  // ---- softDeleteProduct

  predicate DeleteResult(db: Db, db': Db, id: ProductId, outcome: Outcome) {
    if !Live(db.products, id) then outcome == Failed(ProductNotFound(id)) && db' == db
    else
      && outcome == Deleted(id) && OnlyRowDiffers(db, db', id)
      && id in db'.products && db'.products[id].isDeleted
      && db'.products[id].sku == db.products[id].sku && db'.products[id].name == db.products[id].name
      && db'.products[id].price == db.products[id].price && db'.products[id].stock == db.products[id].stock
  }

  lemma {:induction false} DeleteMeetsItsResult(db: Db, id: ProductId)
    ensures DeleteResult(db, AtomicDelete(db, id).0, id, AtomicDelete(db, id).1)
  {
  }

  // ---- createOrder

  /** The error about an unavailable product: what was asked of it in all, and what there is. */
  predicate RefusedFor(db: Db, items: seq<Line>, id: ProductId, error: Error) {
    if id in db.products && !db.products[id].isDeleted
    then
      && error.InsufficientStock? && error.id == id && error.sku == db.products[id].sku
      && error.requested == SumFor(items, id) && error.available == db.products[id].stock
    else error == ProductNotFound(id)
  }

  /** One item per requested product, in ascending order, with the summed quantity and the catalogue price; the total is
      the exact sum over the raw lines. */
  predicate RecordsOrder(db: Db, order: Order, userId: UserId, items: seq<Line>) {
    && order.userId == userId
    && (forall i, j :: 0 <= i < j < |order.items| ==> order.items[i].productId < order.items[j].productId)
    && (forall i :: 0 <= i < |order.items| ==> RecordsItem(db, order.items[i], items))
    && (forall k :: 0 <= k < |items| ==> HasItemFor(order, items[k].productId))
    && (|items| <= 450000 ==> order.total == Worth(db.products, items))
  }

  predicate RecordsItem(db: Db, item: Item, items: seq<Line>) {
    && Mentions(items, item.productId) && item.quantity == SumFor(items, item.productId)
    && item.productId in db.products && item.price == db.products[item.productId].price
  }

  predicate HasItemFor(order: Order, id: ProductId) {
    exists i :: 0 <= i < |order.items| && order.items[i].productId == id
  }

  /** Every stock is down by the sum of the raw lines of its product, and no other column changed. */
  predicate TakesStock(db: Db, db': Db, items: seq<Line>) {
    && db'.products.Keys == db.products.Keys
    && forall id :: id in db.products ==>
         && db'.products[id].stock == db.products[id].stock - SumFor(items, id)
         && db'.products[id].(stock := db.products[id].stock) == db.products[id]
  }

  ghost predicate OrderResult(db: Db, db': Db, k: OrderId, userId: UserId, items: seq<Line>, outcome: Outcome) {
    if !AllAvailable(db.products, items) then
      && db' == db && outcome.Failed?
      && exists id :: FirstUnavailable(db.products, items, id) && RefusedFor(db, items, id, outcome.error)
    else if outcome.Placed? then
      && RecordsOrder(db, outcome.order, userId, items) && TakesStock(db, db', items)
      && db'.orders == db.orders[k := outcome.order]
      && (|items| <= 450000 ==> Worth(db.products, items) <= 9999999999)
    else
      && db' == db && outcome == Failed(TotalOutOfRange)
      && (|items| <= 450000 ==> Worth(db.products, items) > 9999999999)
  }

  lemma {:induction false} OrderIsRecorded(db: Db, userId: UserId, items: seq<Line>)
    requires AllAvailable(db.products, items)
    requires |items| <= 450000 ==> Worth(db.products, items) <= 9999999999
    ensures RecordsOrder(db, OrderFor(db.products, userId, items), userId, items)
  {
    var lines, order := Normalized(items), OrderFor(db.products, userId, items);
    NormalFormIsCanonical(items);
    forall i | 0 <= i < |order.items|
      ensures RecordsItem(db, order.items[i], items)
    {
      RefusalOfNormalized(db.products, items, i);
      assert Available(db.products, items, lines[i].productId);
    }
    forall k | 0 <= k < |items|
      ensures HasItemFor(order, items[k].productId)
    {
      assert Mentions(items, items[k].productId);
      var i := PlaceInNormalized(items, items[k].productId);
      assert order.items[i].productId == items[k].productId;
    }
    if |items| <= 450000 {
      NormalizedIsNotLonger(items);
      PrintedTotalIsExact(ChargesOf(db.products, lines));
      ExactTotalIsWorth(db.products, lines);
      NormalizedWorth(db.products, items);
    }
  }

  lemma {:induction false} RefusalSaysWhy(db: Db, items: seq<Line>, id: ProductId, error: Error)
    requires Refusal(db.products, Line(id, SumFor(items, id))) == Some(error)
    ensures RefusedFor(db, items, id, error)
  {
  }

  /** `createOrder` does exactly this, for every request on every database. */
  lemma {:induction false} OrderMeetsItsResult(db: Db, k: OrderId, userId: UserId, items: seq<Line>)
    ensures OrderResult(db, AtomicOrder(db, k, userId, items).0, k, userId, items, AtomicOrder(db, k, userId, items).1)
  {
    OrderSucceedsIff(db, k, userId, items);
    NormalizedIsNotLonger(items);
    var (db', outcome) := AtomicOrder(db, k, userId, items);
    if !AllAvailable(db.products, items) {
      var id :| FirstUnavailable(db.products, items, id)
        && Some(outcome.error) == Refusal(db.products, Line(id, SumFor(items, id)));
      RefusalSaysWhy(db, items, id, outcome.error);
    } else if outcome.Placed? {
      OrderIsRecorded(db, userId, items);
    } else {
      RefusedIffUnavailable(db.products, items);
    }
  }

  // ---- Any request

  ghost predicate Meets(db: Db, db': Db, k: OrderId, request: Request, outcome: Outcome) {
    match request
    case PlaceOrder(userId, items) => OrderResult(db, db', k, userId, items, outcome)
    case EditProduct(id, edit) => EditResult(db, db', id, edit, outcome)
    case DeleteProduct(id) => DeleteResult(db, db', id, outcome)
  }

  lemma {:induction false} AtomicMeets(db: Db, k: OrderId, request: Request)
    ensures Meets(db, Atomic(db, k, request).0, k, request, Atomic(db, k, request).1)
  {
    match request
    case PlaceOrder(userId, items) => OrderMeetsItsResult(db, k, userId, items);
    case EditProduct(id, edit) => EditMeetsItsResult(db, id, edit);
    case DeleteProduct(id) => DeleteMeetsItsResult(db, id);
  }
}
