/** The committed tables and the whole-transaction meaning of the three services. */
module Catalogue {
  import opened Options
  import opened OrderLines
  import opened Money

  type UserId = string
  type OrderId = nat

  /** The largest value of an INTEGER column. */
  const MAX_INTEGER: int := 2147483647

  /** A products row. `price` is in cents. */
  datatype Product = Product(sku: string, name: string, price: nat, stock: int, isDeleted: bool)

  datatype Item = Item(productId: ProductId, quantity: nat, price: int)

  /** An orders row together with its order_items rows. `total` and prices are in cents. */
  datatype Order = Order(userId: UserId, total: int, items: seq<Item>)

  datatype Db = Db(products: map<ProductId, Product>, orders: map<OrderId, Order>)

  /** The optional fields of a product update; `price` is the JavaScript number of the request body. */
  datatype Edit = Edit(name: Option<string>, price: Option<real>, stock: Option<int>)

  datatype Request =
    | PlaceOrder(userId: UserId, items: seq<Line>)
    | EditProduct(id: ProductId, edit: Edit)
    | DeleteProduct(id: ProductId)

  datatype Error =
    | ProductNotFound(id: ProductId)
    | InsufficientStock(id: ProductId, sku: string, requested: nat, available: int)
    | StockUpdateFailed(id: ProductId)
    | TotalOutOfRange
    | InvalidValue
    | DatabaseFailure

  datatype Outcome =
    | Placed(order: Order)
    | Edited(product: Product)
    | Deleted(id: ProductId)
    | Failed(error: Error)

  /** What the request schema admits: at least one line, every quantity at least 1. */
  predicate ValidItems(items: seq<Line>) {
    items != [] && forall i :: 0 <= i < |items| ==> items[i].quantity >= 1
  }

  /** Of a valid request, every product is ordered at least once. */
  lemma {:induction false} MentionedSumIsPositive(items: seq<Line>, id: ProductId)
    requires forall i :: 0 <= i < |items| ==> items[i].quantity >= 1
    requires Mentions(items, id)
    ensures SumFor(items, id) >= 1
  {
    var front, last := items[..|items| - 1], items[|items| - 1];
    if last.productId != id {
      var i :| 0 <= i < |items| && items[i].productId == id;
      assert front[i].productId == id;
      MentionedSumIsPositive(front, id);
    }
  }

  predicate ValidRequest(request: Request) {
    request.PlaceOrder? ==> ValidItems(request.items)
  }

  /** The rows the columns admit. */
  predicate WellFormedRow(row: Product) {
    0 <= row.stock <= MAX_INTEGER && 1 <= row.price <= MAX_CENTS
  }

  ghost predicate WellFormed(db: Db) {
    forall id :: id in db.products ==> WellFormedRow(db.products[id])
  }

  predicate Live(products: map<ProductId, Product>, id: ProductId) {
    id in products && !products[id].isDeleted
  }

  /** Why a normalized line cannot be served, if it cannot. */
  function Refusal(products: map<ProductId, Product>, line: Line): Option<Error> {
    var id := line.productId;
    if !Live(products, id) then Some(ProductNotFound(id))
    else if products[id].stock < line.quantity then
      Some(InsufficientStock(id, products[id].sku, line.quantity, products[id].stock))
    else None
  }

  function FirstRefusal(products: map<ProductId, Product>, lines: seq<Line>): Option<Error> {
    if lines == [] then None
    else if Refusal(products, lines[0]).Some? then Refusal(products, lines[0])
    else FirstRefusal(products, lines[1..])
  }

  function PriceIn(products: map<ProductId, Product>, id: ProductId): nat {
    if id in products then products[id].price else 0
  }

  function ChargesOf(products: map<ProductId, Product>, lines: seq<Line>): seq<Charge> {
    seq(|lines|, i requires 0 <= i < |lines| => Charge(PriceIn(products, lines[i].productId), lines[i].quantity))
  }

  function ItemsOf(products: map<ProductId, Product>, lines: seq<Line>): seq<Item> {
    seq(|lines|, i requires 0 <= i < |lines| =>
      Item(lines[i].productId, lines[i].quantity, PriceIn(products, lines[i].productId)))
  }

  /** Every product loses the sum of the raw request lines that name it. */
  function Deducted(products: map<ProductId, Product>, items: seq<Line>): map<ProductId, Product> {
    map id | id in products :: products[id].(stock := products[id].stock - SumFor(items, id))
  }

  function OrderFor(products: map<ProductId, Product>, userId: UserId, items: seq<Line>): Order {
    var lines := Normalized(items);
    Order(userId, PrintedTotal(ChargesOf(products, lines)), ItemsOf(products, lines))
  }

  function AtomicOrder(db: Db, orderId: OrderId, userId: UserId, items: seq<Line>): (Db, Outcome) {
    var refusal := FirstRefusal(db.products, Normalized(items));
    var order := OrderFor(db.products, userId, items);
    if refusal.Some? then (db, Failed(refusal.value))
    else if order.total > MAX_CENTS then (db, Failed(TotalOutOfRange))
    else (Db(Deducted(db.products, items), db.orders[orderId := order]), Placed(order))
  }

  /** What the model validators and the column types accept. */
  predicate ValidEdit(edit: Edit) {
    && (edit.name.Some? ==> 3 <= |edit.name.value| <= 200)
    && (edit.price.Some? ==> 1 <= ToFixedCents(edit.price.value) <= MAX_CENTS)
    && (edit.stock.Some? ==> 0 <= edit.stock.value <= MAX_INTEGER)
  }

  function EditedRow(row: Product, edit: Edit): Product
    requires ValidEdit(edit)
  {
    row.(name := if edit.name.Some? then edit.name.value else row.name,
         price := if edit.price.Some? then ToFixedCents(edit.price.value) else row.price,
         stock := if edit.stock.Some? then edit.stock.value else row.stock)
  }

  function AtomicEdit(db: Db, id: ProductId, edit: Edit): (Db, Outcome) {
    if !Live(db.products, id) then (db, Failed(ProductNotFound(id)))
    else if !ValidEdit(edit) then (db, Failed(InvalidValue))
    else
      var row := EditedRow(db.products[id], edit);
      (db.(products := db.products[id := row]), Edited(row))
  }

  function AtomicDelete(db: Db, id: ProductId): (Db, Outcome) {
    if !Live(db.products, id) then (db, Failed(ProductNotFound(id)))
    else (db.(products := db.products[id := db.products[id].(isDeleted := true)]), Deleted(id))
  }

  /** A request run whole, with nothing else happening. An order takes the id `orderId`. */
  function Atomic(db: Db, orderId: OrderId, request: Request): (Db, Outcome) {
    match request
    case PlaceOrder(userId, items) => AtomicOrder(db, orderId, userId, items)
    case EditProduct(id, edit) => AtomicEdit(db, id, edit)
    case DeleteProduct(id) => AtomicDelete(db, id)
  }

  // ---- Functional correctness of one order

  lemma {:induction false} FirstRefusalAt(products: map<ProductId, Product>, lines: seq<Line>) returns (k: nat)
    ensures k <= |lines|
    ensures forall i :: 0 <= i < k ==> Refusal(products, lines[i]).None?
    ensures k < |lines| ==> Refusal(products, lines[k]).Some?
    ensures k < |lines| ==> FirstRefusal(products, lines) == Refusal(products, lines[k])
    ensures k == |lines| ==> FirstRefusal(products, lines).None?
  {
    if lines == [] || Refusal(products, lines[0]).Some? {
      k := 0;
    } else {
      var j := FirstRefusalAt(products, lines[1..]);
      k := j + 1;
      forall i | 0 <= i < k
        ensures Refusal(products, lines[i]).None?
      {
        assert i > 0 ==> lines[i] == lines[1..][i - 1];
      }
    }
  }

  lemma {:induction false} FirstRefusalIs(products: map<ProductId, Product>, lines: seq<Line>, k: nat)
    requires k <= |lines|
    requires forall i :: 0 <= i < k ==> Refusal(products, lines[i]).None?
    requires k < |lines| ==> Refusal(products, lines[k]).Some?
    ensures FirstRefusal(products, lines) == if k < |lines| then Refusal(products, lines[k]) else None
  {
    var j := FirstRefusalAt(products, lines);
    if j < k || k < j {
      assert false;
    }
  }

  predicate Available(products: map<ProductId, Product>, items: seq<Line>, id: ProductId) {
    Live(products, id) && SumFor(items, id) <= products[id].stock
  }

  lemma {:induction false} RefusalOfNormalized(products: map<ProductId, Product>, items: seq<Line>, i: nat)
    requires i < |Normalized(items)|
    ensures Normalized(items)[i] == Line(Normalized(items)[i].productId, SumFor(items, Normalized(items)[i].productId))
    ensures Refusal(products, Normalized(items)[i]).None? <==>
      Available(products, items, Normalized(items)[i].productId)
    ensures Mentions(items, Normalized(items)[i].productId)
  {
    NormalFormIsCanonical(items);
    assert Mentions(Normalized(items), Normalized(items)[i].productId);
  }

  lemma {:induction false} PlaceInNormalized(items: seq<Line>, id: ProductId) returns (i: nat)
    requires Mentions(items, id)
    ensures i < |Normalized(items)| && Normalized(items)[i].productId == id
  {
    NormalFormIsCanonical(items);
    assert Mentions(Normalized(items), id);
    i :| 0 <= i < |Normalized(items)| && Normalized(items)[i].productId == id;
  }

  /** The product an error of `createOrder` is about: requested, unavailable, and first of its kind in sorted order. */
  ghost predicate FirstUnavailable(products: map<ProductId, Product>, items: seq<Line>, id: ProductId) {
    && Mentions(items, id) && !Available(products, items, id)
    && forall other :: Mentions(items, other) && other < id ==> Available(products, items, other)
  }

  /** An order is refused exactly when some requested product is unavailable, and then the error is about the first
      such product in sorted order; the check is on the sum of all raw lines. */
  lemma {:induction false} RefusedIffUnavailable(products: map<ProductId, Product>, items: seq<Line>)
    ensures FirstRefusal(products, Normalized(items)).None? <==>
            forall id :: Mentions(items, id) ==> Available(products, items, id)
    ensures FirstRefusal(products, Normalized(items)).Some? ==>
              exists id :: FirstUnavailable(products, items, id)
                && FirstRefusal(products, Normalized(items)) == Refusal(products, Line(id, SumFor(items, id)))
  {
    var lines := Normalized(items);
    var k := FirstRefusalAt(products, lines);
    if k < |lines| {
      var id := lines[k].productId;
      RefusalOfNormalized(products, items, k);
      forall other | Mentions(items, other) && other < id
        ensures Available(products, items, other)
      {
        var i := PlaceInNormalized(items, other);
        NormalFormIsCanonical(items);
        assert i < k;
        RefusalOfNormalized(products, items, i);
      }
      assert FirstUnavailable(products, items, id);
    } else {
      forall id | Mentions(items, id)
        ensures Available(products, items, id)
      {
        var i := PlaceInNormalized(items, id);
        RefusalOfNormalized(products, items, i);
      }
    }
  }

  // ---- The total of an order is the sum over its raw lines

  /** Catalogue price times quantity, summed over the raw lines. */
  function Worth(products: map<ProductId, Product>, items: seq<Line>): nat {
    if items == [] then 0
    else
      var last := items[|items| - 1];
      Worth(products, items[..|items| - 1]) + PriceIn(products, last.productId) * last.quantity
  }

  lemma {:induction false} ExactTotalIsWorth(products: map<ProductId, Product>, lines: seq<Line>)
    ensures ExactTotal(ChargesOf(products, lines)) == Worth(products, lines)
  {
    if lines == [] {
    } else {
      var front := lines[..|lines| - 1];
      ExactTotalIsWorth(products, front);
      assert ChargesOf(products, lines)[..|lines| - 1] == ChargesOf(products, front);
    }
  }

  /** The same sum taken product by product. */
  function WorthBy(products: map<ProductId, Product>, ids: seq<ProductId>, items: seq<Line>): nat {
    if ids == [] then 0
    else
      var id := ids[|ids| - 1];
      WorthBy(products, ids[..|ids| - 1], items) + PriceIn(products, id) * SumFor(items, id)
  }

  lemma {:induction false} WorthByOneMore(products: map<ProductId, Product>, ids: seq<ProductId>, items: seq<Line>)
    requires items != []
    requires Distinct(ids)
    ensures WorthBy(products, ids, items) == WorthBy(products, ids, items[..|items| - 1])
      + if items[|items| - 1].productId in ids
        then PriceIn(products, items[|items| - 1].productId) * items[|items| - 1].quantity else 0
  {
    if ids == [] {
    } else {
      var front, id := ids[..|ids| - 1], ids[|ids| - 1];
      WorthByOneMore(products, front, items);
      assert ids == front + [id];
      var last := items[|items| - 1];
      if last.productId == id {
        Distribute(PriceIn(products, id), SumFor(items[..|items| - 1], id), last.quantity);
        assert id !in front;
      }
    }
  }

  lemma {:induction false} Distribute(a: nat, b: nat, c: nat)
    ensures a * (b + c) == a * b + a * c
  {
  }

  lemma {:induction false} WorthByUnseen(
      products: map<ProductId, Product>, seen: seq<ProductId>, id: ProductId, items: seq<Line>)
    requires SumFor(items, id) == 0
    ensures WorthBy(products, seen + [id], items) == WorthBy(products, seen, items)
  {
    var ids := seen + [id];
    assert ids[..|ids| - 1] == seen;
  }

  lemma {:induction false} WorthByFirstOccurrences(products: map<ProductId, Product>, items: seq<Line>)
    ensures WorthBy(products, FirstOccurrences(items), items) == Worth(products, items)
  {
    if items == [] {
    } else {
      WorthByFirstOccurrences(products, items[..|items| - 1]);
      WorthByLastLine(products, items);
    }
  }

  lemma {:induction false} WorthByLastLine(products: map<ProductId, Product>, items: seq<Line>)
    requires items != []
    ensures WorthBy(products, FirstOccurrences(items), items) ==
            WorthBy(products, FirstOccurrences(items[..|items| - 1]), items[..|items| - 1])
            + PriceIn(products, items[|items| - 1].productId) * items[|items| - 1].quantity
  {
    var front, last := items[..|items| - 1], items[|items| - 1];
    FirstOccurrencesDistinct(front);
    FirstOccurrencesDistinct(items);
    WorthByOneMore(products, FirstOccurrences(items), items);
    if last.productId !in FirstOccurrences(front) {
      UnmentionedSum(front, last.productId);
      WorthByUnseen(products, FirstOccurrences(front), last.productId, front);
    }
  }

  lemma {:induction false} WorthOfMerged(
      products: map<ProductId, Product>, ids: seq<ProductId>, items: seq<Line>, lines: seq<Line>)
    requires |lines| == |ids| && forall i :: 0 <= i < |ids| ==> lines[i] == Line(ids[i], SumFor(items, ids[i]))
    ensures Worth(products, lines) == WorthBy(products, ids, items)
  {
    if ids == [] {
    } else {
      WorthOfMerged(products, ids[..|ids| - 1], items, lines[..|lines| - 1]);
    }
  }

  lemma {:induction false} WorthOfCons(products: map<ProductId, Product>, line: Line, rest: seq<Line>)
    ensures Worth(products, [line] + rest) == PriceIn(products, line.productId) * line.quantity + Worth(products, rest)
  {
    var all := [line] + rest;
    if rest != [] {
      WorthOfCons(products, line, rest[..|rest| - 1]);
      assert all[..|all| - 1] == [line] + rest[..|rest| - 1];
    } else {
      assert all[..|all| - 1] == [];
    }
  }

  lemma {:induction false} WorthOfInsert(products: map<ProductId, Product>, line: Line, sorted: seq<Line>)
    ensures Worth(products, Insert(line, sorted)) ==
      PriceIn(products, line.productId) * line.quantity + Worth(products, sorted)
  {
    WorthOfCons(products, line, sorted);
    if sorted != [] && sorted[0].productId < line.productId {
      WorthOfInsert(products, line, sorted[1..]);
      WorthOfCons(products, sorted[0], Insert(line, sorted[1..]));
      WorthOfCons(products, sorted[0], sorted[1..]);
      assert sorted == [sorted[0]] + sorted[1..];
    }
  }

  lemma {:induction false} WorthOfSorted(products: map<ProductId, Product>, lines: seq<Line>)
    ensures Worth(products, SortById(lines)) == Worth(products, lines)
  {
    if lines == [] {
    } else {
      WorthOfSorted(products, lines[1..]);
      WorthOfInsert(products, lines[0], SortById(lines[1..]));
      WorthOfCons(products, lines[0], lines[1..]);
      assert lines == [lines[0]] + lines[1..];
    }
  }

  /** Merging and sorting neither lose nor invent worth. */
  lemma {:induction false} NormalizedWorth(products: map<ProductId, Product>, items: seq<Line>)
    ensures Worth(products, Normalized(items)) == Worth(products, items)
  {
    WorthOfSorted(products, Merged(items));
    WorthOfMerged(products, FirstOccurrences(items), items, Merged(items));
    WorthByFirstOccurrences(products, items);
  }

  ghost predicate AllAvailable(products: map<ProductId, Product>, items: seq<Line>) {
    forall id :: Mentions(items, id) ==> Available(products, items, id)
  }

  /** A successful order had every requested product live with at least the sum of all its raw lines in stock; otherwise
      the database is unchanged, and an unavailable product is reported, the first one in sorted order.
      Up to MAX_LINES products these are the only refusals but one: the worth of the raw lines must fit the total
      column, which then holds that worth to the cent. */
  lemma {:induction false} OrderSucceedsIff(db: Db, orderId: OrderId, userId: UserId, items: seq<Line>)
    ensures var outcome := AtomicOrder(db, orderId, userId, items).1;
      outcome.Placed? ==> AllAvailable(db.products, items)
    ensures var (db', outcome) := AtomicOrder(db, orderId, userId, items);
      !outcome.Placed? ==> outcome.Failed? && db' == db
    ensures var outcome := AtomicOrder(db, orderId, userId, items).1;
      AllAvailable(db.products, items)
      || exists id :: FirstUnavailable(db.products, items, id)
           && outcome.Failed? && Refusal(db.products, Line(id, SumFor(items, id))) == Some(outcome.error)
    ensures var outcome := AtomicOrder(db, orderId, userId, items).1;
      |Normalized(items)| <= MAX_LINES ==>
        && (outcome.Placed? <==> AllAvailable(db.products, items) && Worth(db.products, items) <= MAX_CENTS)
        && (outcome.Placed? ==> outcome.order.total == Worth(db.products, items))
  {
    RefusedIffUnavailable(db.products, items);
    var lines := Normalized(items);
    if |lines| <= MAX_LINES {
      PrintedTotalIsExact(ChargesOf(db.products, lines));
      ExactTotalIsWorth(db.products, lines);
      NormalizedWorth(db.products, items);
    }
  }

  // ---- An available order can still fail

  /** One product of the highest price, two in stock. */
  function CostlyShop(): Db {
    Db(map[1 := Product("SKU", "costly", MAX_CENTS, 2, false)], map[])
  }

  lemma {:induction false} SingleLine(line: Line)
    ensures Normalized([line]) == [line]
    ensures forall id :: Mentions([line], id) <==> id == line.productId
    ensures SumFor([line], line.productId) == line.quantity
  {
    var items := [line];
    assert items[..0] == [];
    assert items[0].productId == line.productId;
    NormalFormIsCanonical(items);
    AscendingIsDeterminedByContent(items, Normalized(items));
  }

  /** Live products and sufficient stock do not suffice: a valid order of everything in stock that is refused, because
      its total does not fit the total column. */
  lemma {:induction false} AvailableOrderCanOverflow(orderId: OrderId, userId: UserId)
    ensures WellFormed(CostlyShop()) && ValidItems([Line(1, 2)]) && AllAvailable(CostlyShop().products, [Line(1, 2)])
    ensures AtomicOrder(CostlyShop(), orderId, userId, [Line(1, 2)]) == (CostlyShop(), Failed(TotalOutOfRange))
  {
    var db, items := CostlyShop(), [Line(1, 2)];
    SingleLine(Line(1, 2));
    assert Available(db.products, items, 1);
    assert Worth(db.products, items) == MAX_CENTS * 2 by {
      assert items[..0] == [];
    }
    RefusedIffUnavailable(db.products, items);
    OrderSucceedsIff(db, orderId, userId, items);
  }
}
