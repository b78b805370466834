/** The two cached list routes against recomputation, for requests served one after another with Redis available. */
module CachedLists {
  import opened Options
  import opened OrderLines
  import opened Money
  import opened Catalogue
  import opened RedisCache

  /** The tables and what the lists need beyond them: creation times, the rows newest first, and the admins. */
  datatype Shop = Shop(
    db: Db,
    newestProducts: seq<ProductId>,
    newestOrders: seq<OrderId>,
    productTimes: map<ProductId, int>,
    orderTimes: map<OrderId, int>,
    admins: set<UserId>)

  function TimeOf<K>(times: map<K, int>, id: K): int {
    if id in times then times[id] else 0
  }

  datatype ProductQuery = ProductQuery(page: int, limit: int, search: Option<string>)

  datatype OrderQuery = OrderQuery(
    page: int,
    limit: int,
    status: Option<string>,
    startDate: Option<int>,
    endDate: Option<int>,
    minTotal: Option<int>)

  /** Library behaviour the lists depend on: query parsing, SQL LIKE, and the count of a joined query. */
  datatype Library = Library(
    parseProducts: string -> Option<ProductQuery>,
    parseOrders: string -> Option<OrderQuery>,
    like: (string, string) -> bool,
    countOrders: (Shop, UserId, OrderQuery) -> nat)

  datatype OrderRow = OrderRow(id: OrderId, order: Order, products: seq<(ProductId, string, string)>)

  datatype ListBody =
    | ProductPage(products: seq<(ProductId, Product)>, page: int, limit: int, total: nat)
    | OrderPage(orders: seq<OrderRow>, page: int, limit: int, total: nat)
    | ListError(code: string)

  datatype ListResponse = ListResponse(status: nat, body: ListBody)

  /** GET requests; `ip` and `userId` are the cache scopes of the two routes. */
  datatype ListRequest =
    | ListProducts(ip: string, url: string)
    | ListOrders(userId: UserId, url: string)

  predicate WellFormedList(r: ListRequest) {
    && r.url != "" && r.url[0] == '/'
    && '/' !in (if r.ListProducts? then r.ip else r.userId)
  }

  predicate ProductMatches(lib: Library, shop: Shop, q: ProductQuery, id: ProductId) {
    && id in shop.db.products && !shop.db.products[id].isDeleted
    && (q.search.Some? ==>
          lib.like(shop.db.products[id].name, q.search.value) || lib.like(shop.db.products[id].sku, q.search.value))
  }

  /** WHERE. */
  function Selected<K>(ids: seq<K>, keep: K -> bool): seq<K> {
    if ids == [] then [] else (if keep(ids[0]) then [ids[0]] else []) + Selected(ids[1..], keep)
  }

  function MatchingProducts(lib: Library, shop: Shop, q: ProductQuery): seq<ProductId> {
    Selected(shop.newestProducts, ProductFilter(lib, shop, q))
  }

  function ProductFilter(lib: Library, shop: Shop, q: ProductQuery): ProductId -> bool {
    id => ProductMatches(lib, shop, q, id)
  }

  /** An admin sees all orders, a user their own. Every order is still `pending`. */
  predicate OrderMatches(shop: Shop, userId: UserId, q: OrderQuery, id: OrderId) {
    && id in shop.db.orders && id in shop.orderTimes
    && (userId !in shop.admins ==> shop.db.orders[id].userId == userId)
    && (q.status.Some? ==> q.status.value == "pending")
    && (q.minTotal.Some? ==> shop.db.orders[id].total >= q.minTotal.value)
    && (q.startDate.Some? ==> shop.orderTimes[id] >= q.startDate.value)
    && (q.endDate.Some? ==> shop.orderTimes[id] <= q.endDate.value)
  }

  function MatchingOrders(shop: Shop, userId: UserId, q: OrderQuery): seq<OrderId> {
    Selected(shop.newestOrders, OrderFilter(shop, userId, q))
  }

  function OrderFilter(shop: Shop, userId: UserId, q: OrderQuery): OrderId -> bool {
    (id: OrderId) => OrderMatches(shop, userId, q, id)
  }

  /** LIMIT and OFFSET. */
  function Page<T>(items: seq<T>, page: int, limit: int): Option<seq<T>> {
    var offset := (page - 1) * limit;
    if offset < 0 || limit < 0 then None
    else if offset >= |items| then Some([])
    else if offset + limit >= |items| then Some(items[offset..])
    else Some(items[offset..offset + limit])
  }

  function ProductsView(lib: Library, shop: Shop, url: string): ListResponse {
    var query := lib.parseProducts(url);
    if query.None? then ListResponse(500, ListError("INTERNAL_ERROR"))
    else
      var q := query.value;
      var matching := MatchingProducts(lib, shop, q);
      var page := Page(matching, q.page, q.limit);
      if page.None? then ListResponse(500, ListError("INTERNAL_ERROR"))
      else
        var rows := seq(|page.value|, i requires 0 <= i < |page.value| =>
          (page.value[i], RowOf(shop.db.products, page.value[i])));
        ListResponse(200, ProductPage(rows, q.page, q.limit, |matching|))
  }

  function RowOf(products: map<ProductId, Product>, id: ProductId): Product {
    if id in products then products[id] else Product("", "", 0, 0, true)
  }

  function Embedded(shop: Shop, id: ProductId): (ProductId, string, string) {
    (id, RowOf(shop.db.products, id).sku, RowOf(shop.db.products, id).name)
  }

  /** An order row embeds the id, sku and name of each item's product. */
  function OrderRowOf(shop: Shop, id: OrderId): OrderRow {
    var order := if id in shop.db.orders then shop.db.orders[id] else Order("", 0, []);
    OrderRow(id, order,
             seq(|order.items|, i requires 0 <= i < |order.items| => Embedded(shop, order.items[i].productId)))
  }

  function OrdersView(lib: Library, shop: Shop, userId: UserId, url: string): ListResponse {
    var query := lib.parseOrders(url);
    if query.None? then ListResponse(400, ListError("VALIDATION_ERROR"))
    else
      var q := query.value;
      var matching := MatchingOrders(shop, userId, q);
      var page := Page(matching, q.page, q.limit);
      if page.None? then ListResponse(500, ListError("INTERNAL_ERROR"))
      else
        var rows := seq(|page.value|, i requires 0 <= i < |page.value| => OrderRowOf(shop, page.value[i]));
        ListResponse(200, OrderPage(rows, q.page, q.limit, lib.countOrders(shop, userId, q)))
  }

  /** What recomputing a request on the current database returns. */
  function View(lib: Library, shop: Shop, r: ListRequest): ListResponse {
    match r
    case ListProducts(_, url) => ProductsView(lib, shop, url)
    case ListOrders(userId, url) => OrdersView(lib, shop, userId, url)
  }

  function KeyOf(prefix: string, r: ListRequest): string {
    match r
    case ListProducts(ip, url) => BuildCacheKey(prefix, PRODUCTS, ip, url)
    case ListOrders(userId, url) => BuildCacheKey(prefix, ORDERS, userId, url)
  }

  // ---- Mutations

  datatype Mutation =
    | PlaceAnOrder(orderId: OrderId, userId: UserId, items: seq<Line>, now: int)
    | ChangeProduct(id: ProductId, edit: Edit)
    | RemoveProduct(id: ProductId)
    | AddProduct(id: ProductId, sku: string, name: string, price: real, stock: int, now: int)

  function GroupOf(m: Mutation): string {
    if m.PlaceAnOrder? then "orderMutation" else "productMutation"
  }

  /** ORDER BY createdAt DESC: a new row stands before the first one that is not newer. */
  function InsertNewest<K>(ids: seq<K>, times: map<K, int>, id: K, now: int): seq<K> {
    if ids == [] || TimeOf(times, ids[0]) <= now then [id] + ids
    else [ids[0]] + InsertNewest(ids[1..], times, id, now)
  }

  /** The shop after a mutation, and whether the service succeeded. Ids are primary keys. */
  function Mutate(shop: Shop, m: Mutation): (Shop, bool) {
    match m
    case PlaceAnOrder(orderId, userId, items, now) =>
      var (db, outcome) := AtomicOrder(shop.db, orderId, userId, items);
      if outcome.Placed? && orderId !in shop.db.orders
      then
        var orders := InsertNewest(shop.newestOrders, shop.orderTimes, orderId, now);
        (shop.(db := db, newestOrders := orders, orderTimes := shop.orderTimes[orderId := now]), true)
      else (shop, false)
    case ChangeProduct(id, edit) =>
      var (db, outcome) := AtomicEdit(shop.db, id, edit);
      (shop.(db := db), outcome.Edited?)
    case RemoveProduct(id) =>
      var (db, outcome) := AtomicDelete(shop.db, id);
      (shop.(db := db), outcome.Deleted?)
    case AddProduct(id, sku, name, price, stock, now) =>
      if (exists p :: p in shop.db.products && shop.db.products[p].sku == sku)
         || id in shop.db.products || !ValidEdit(Edit(Some(name), Some(price), Some(stock)))
      then (shop, false)
      else
        var row := Product(sku, name, ToFixedCents(price), stock, false);
        var db := shop.db.(products := shop.db.products[id := row]);
        var products := InsertNewest(shop.newestProducts, shop.productTimes, id, now);
        (shop.(db := db, newestProducts := products, productTimes := shop.productTimes[id := now]), true)
  }

  /** A mutation that fails leaves everything as it was. */
  lemma {:induction false} FailedMutationChangesNothing(shop: Shop, m: Mutation)
    requires !Mutate(shop, m).1
    ensures Mutate(shop, m).0 == shop
  {
  }

  // ---- The server, with and without its cache

  datatype Request =
    | Read(list: ListRequest)
    | Write(mutation: Mutation)
    | Expire(key: string)

  predicate WellFormedRequest(r: Request) {
    r.Read? ==> WellFormedList(r.list)
  }

  datatype Server = Server(shop: Shop, cache: map<string, ListResponse>)

  function Serve(lib: Library, prefix: string, s: Server, r: Request): (Server, Option<ListResponse>) {
    match r
    case Read(list) =>
      var key := KeyOf(prefix, list);
      if key in s.cache then (s, Some(s.cache[key]))
      else
        var response := View(lib, s.shop, list);
        (if response.status < 400 then s.(cache := s.cache[key := response]) else s, Some(response))
    case Write(m) =>
      var (shop, success) := Mutate(s.shop, m);
      (Server(shop, if success then Purged(s.cache, prefix, GROUPS[GroupOf(m)]) else s.cache), None)
    case Expire(key) => (s.(cache := s.cache - {key}), None)
  }

  function ServeUncached(lib: Library, shop: Shop, r: Request): (Shop, Option<ListResponse>) {
    match r
    case Read(list) => (shop, Some(View(lib, shop, list)))
    case Write(m) => (Mutate(shop, m).0, None)
    case Expire(_) => (shop, None)
  }

  function ServeAll(
      lib: Library, prefix: string, s: Server, requests: seq<Request>): (Server, seq<Option<ListResponse>>)
  {
    if requests == [] then (s, [])
    else
      var (s1, responses) := ServeAll(lib, prefix, s, requests[..|requests| - 1]);
      var (s2, last) := Serve(lib, prefix, s1, requests[|requests| - 1]);
      (s2, responses + [last])
  }

  function ServeAllUncached(lib: Library, shop: Shop, requests: seq<Request>): (Shop, seq<Option<ListResponse>>) {
    if requests == [] then (shop, [])
    else
      var (s1, responses) := ServeAllUncached(lib, shop, requests[..|requests| - 1]);
      var (s2, last) := ServeUncached(lib, s1, requests[|requests| - 1]);
      (s2, responses + [last])
  }

  /** Each cached list entry is what recomputing its request now returns. */
  ghost predicate Agrees(lib: Library, prefix: string, s: Server) {
    forall r :: WellFormedList(r) && KeyOf(prefix, r) in s.cache ==> s.cache[KeyOf(prefix, r)] == View(lib, s.shop, r)
  }

  lemma {:induction false} SameKeySameView(lib: Library, prefix: string, shop: Shop, r: ListRequest, r': ListRequest)
    requires WellFormedList(r) && WellFormedList(r') && KeyOf(prefix, r) == KeyOf(prefix, r')
    ensures View(lib, shop, r) == View(lib, shop, r')
  {
    var n := if r.ListProducts? then PRODUCTS else ORDERS;
    var n' := if r'.ListProducts? then PRODUCTS else ORDERS;
    var scope := if r.ListProducts? then r.ip else r.userId;
    var scope' := if r'.ListProducts? then r'.ip else r'.userId;
    KeysAreInjective(prefix, n, scope, r.url, n', scope', r'.url);
  }

  lemma {:induction false} ReadKeepsAgreement(lib: Library, prefix: string, s: Server, list: ListRequest)
    requires Agrees(lib, prefix, s) && WellFormedList(list)
    ensures Agrees(lib, prefix, Serve(lib, prefix, s, Read(list)).0)
  {
    var s' := Serve(lib, prefix, s, Read(list)).0;
    forall r | WellFormedList(r) && KeyOf(prefix, r) in s'.cache
      ensures s'.cache[KeyOf(prefix, r)] == View(lib, s'.shop, r)
    {
      if KeyOf(prefix, r) == KeyOf(prefix, list) {
        SameKeySameView(lib, prefix, s.shop, r, list);
      }
    }
  }

  lemma {:induction false} WriteKeepsAgreement(lib: Library, prefix: string, s: Server, m: Mutation)
    requires Agrees(lib, prefix, s)
    ensures Agrees(lib, prefix, Serve(lib, prefix, s, Write(m)).0)
  {
    if Mutate(s.shop, m).1 {
      var s' := Serve(lib, prefix, s, Write(m)).0;
      forall r
        ensures KeyOf(prefix, r) !in s'.cache
      {
        var n := if r.ListProducts? then PRODUCTS else ORDERS;
        KeyInItsNamespace(prefix, n, if r.ListProducts? then r.ip else r.userId, r.url, GROUPS[GroupOf(m)]);
      }
    } else {
      FailedMutationChangesNothing(s.shop, m);
    }
  }

  lemma {:induction false} ServeKeepsAgreement(lib: Library, prefix: string, s: Server, r: Request)
    requires Agrees(lib, prefix, s) && WellFormedRequest(r)
    ensures Agrees(lib, prefix, Serve(lib, prefix, s, r).0)
    ensures (Serve(lib, prefix, s, r).0.shop, Serve(lib, prefix, s, r).1) == ServeUncached(lib, s.shop, r)
  {
    match r
    case Read(list) => ReadKeepsAgreement(lib, prefix, s, list);
    case Write(m) => WriteKeepsAgreement(lib, prefix, s, m);
    case Expire(_) =>
  }

  /** Sequential cache agreement: over every sequence of requests the cache agrees with recomputation after each one,
      and the server answers exactly like a server without a cache. */
  lemma {:induction false} CachingIsTransparent(lib: Library, prefix: string, shop: Shop, requests: seq<Request>)
    requires forall i :: 0 <= i < |requests| ==> WellFormedRequest(requests[i])
    ensures var cached := ServeAll(lib, prefix, Server(shop, map[]), requests);
      && Agrees(lib, prefix, cached.0)
      && (cached.0.shop, cached.1) == ServeAllUncached(lib, shop, requests)
  {
    if requests == [] {
    } else {
      var front := requests[..|requests| - 1];
      CachingIsTransparent(lib, prefix, shop, front);
      ServeKeepsAgreement(lib, prefix, ServeAll(lib, prefix, Server(shop, map[]), front).0, requests[|requests| - 1]);
    }
  }

  // ---- Both namespaces must be purged

  /** One product, and one order of it by `userId`. */
  function SampleShop(userId: UserId, name: string): Shop {
    var order := Order(userId, 100, [Item(1, 1, 100)]);
    var db := Db(map[1 := Product("SKU", name, 100, 5, false)], map[7 := order]);
    Shop(db, [1], [7], map[1 := 0], map[7 := 0], {})
  }

  lemma {:induction false} SampleRow(userId: UserId, name: string)
    ensures OrderRowOf(SampleShop(userId, name), 7).products == [(1, "SKU", name)]
  {
    var row := OrderRowOf(SampleShop(userId, name), 7);
    assert row.order.items == [Item(1, 1, 100)];
    assert Embedded(SampleShop(userId, name), 1) == (1, "SKU", name);
    assert row.products[0] == Embedded(SampleShop(userId, name), row.order.items[0].productId);
  }

  lemma {:induction false} SampleView(lib: Library, userId: UserId, url: string, name: string)
    requires lib.parseOrders(url) == Some(OrderQuery(1, 10, None, None, None, None))
    ensures var v := OrdersView(lib, SampleShop(userId, name), userId, url);
      v.status == 200 && v.body.OrderPage? && v.body.orders == [OrderRowOf(SampleShop(userId, name), 7)]
  {
    var shop := SampleShop(userId, name);
    var q := lib.parseOrders(url).value;
    assert MatchingOrders(shop, userId, q) == [7] by {
      assert [7][1..] == [];
    }
  }

  lemma {:induction false} RenameSample(userId: UserId)
    ensures Mutate(SampleShop(userId, "old name"), ChangeProduct(1, Edit(Some("new name"), None, None))) ==
            (SampleShop(userId, "new name"), true)
  {
    var shop := SampleShop(userId, "old name");
    var edit := Edit(Some("new name"), None, None);
    assert ValidEdit(edit);
    assert EditedRow(shop.db.products[1], edit) == Product("SKU", "new name", 100, 5, false);
    var renamed := Product("SKU", "new name", 100, 5, false);
    assert shop.db.products[1 := renamed] == SampleShop(userId, "new name").db.products;
  }

  /** Purging only the products namespace on a product edit would leave a stale order list, which embeds the product's
      old name: a concrete shop, read, edit and entry. */
  lemma {:induction false} ProductEditMustPurgeOrders(lib: Library, prefix: string, userId: UserId, url: string)
    requires lib.parseOrders(url) == Some(OrderQuery(1, 10, None, None, None, None))
    ensures var r := ListOrders(userId, url);
      var cached := Serve(lib, prefix, Server(SampleShop(userId, "old name"), map[]), Read(r)).0;
      var edited := Mutate(cached.shop, ChangeProduct(1, Edit(Some("new name"), None, None)));
      var kept := Purged(cached.cache, prefix, [PRODUCTS]);
      && edited.1
      && KeyOf(prefix, r) in kept
      && kept[KeyOf(prefix, r)] != View(lib, edited.0, r)
  {
    SampleView(lib, userId, url, "old name");
    SampleView(lib, userId, url, "new name");
    SampleRow(userId, "old name");
    SampleRow(userId, "new name");
    RenameSample(userId);
    assert "old name"[0] != "new name"[0];
    NotInProducts(prefix, userId, url);
  }

  lemma {:induction false} NotInProducts(prefix: string, scope: string, path: string)
    ensures !InNamespaces(prefix, [PRODUCTS], BuildCacheKey(prefix, ORDERS, scope, path))
  {
    KeyInItsNamespace(prefix, ORDERS, scope, path, [PRODUCTS]);
    assert |ORDERS| != |PRODUCTS|;
  }
}
