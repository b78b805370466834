/** What the list routes answer and what the mutations leave behind, stated on the tables alone. */
module ListResults {
  import opened Options
  import opened OrderLines
  import opened Money
  import opened Catalogue
  import opened ServiceResults
  import opened CachedLists

  // ---- The tables as the lists see them

  predicate NewestFirst<K(==)>(ids: seq<K>, times: map<K, int>) {
    forall i, j :: 0 <= i < j < |ids| ==> ids[i] != ids[j] && TimeOf(times, ids[i]) >= TimeOf(times, ids[j])
  }

  /** Every row is listed once, newest first, and the products of all items exist. */
  ghost predicate Listed(shop: Shop) {
    && NewestFirst(shop.newestOrders, shop.orderTimes) && NewestFirst(shop.newestProducts, shop.productTimes)
    && shop.orderTimes.Keys == shop.db.orders.Keys && shop.productTimes.Keys == shop.db.products.Keys
    && (forall k :: k in shop.newestOrders <==> k in shop.db.orders)
    && (forall id :: id in shop.newestProducts <==> id in shop.db.products)
    && forall k :: k in shop.db.orders ==> ItemsExist(shop.db.products, shop.db.orders[k])
  }

  predicate ItemsExist(products: map<ProductId, Product>, order: Order) {
    forall i :: 0 <= i < |order.items| ==> order.items[i].productId in products
  }

  // ---- Lists

  /** How many rows a page shows of a list of `total`. */
  function RowCount(total: nat, page: int, limit: int): int {
    var left := total - (page - 1) * limit;
    if left <= 0 then 0 else if left <= limit then left else limit
  }

  /** The p-th of all rows is shown exactly on page p / limit + 1. */
  predicate OnItsPage<K(==)>(all: seq<K>, shown: seq<K>, page: int, limit: int) {
    limit >= 1 ==> forall p :: 0 <= p < |all| ==> (all[p] in shown <==> p / limit + 1 == page)
  }

  predicate PageOf<K(==)>(all: seq<K>, shown: seq<K>, page: int, limit: int)
    requires (page - 1) * limit >= 0
  {
    && |shown| == RowCount(|all|, page, limit)
    && (forall i :: 0 <= i < |shown| && (page - 1) * limit + i < |all| ==> shown[i] == all[(page - 1) * limit + i])
    && OnItsPage(all, shown, page, limit)
  }

  /** All orders the caller may see that pass the filters, newest first. An order is `pending` for ever. */
  ghost predicate OrdersToShow(shop: Shop, userId: UserId, q: OrderQuery, all: seq<OrderId>) {
    && NewestFirst(all, shop.orderTimes)
    && forall k :: k in all <==>
         && k in shop.db.orders && k in shop.orderTimes
         && (userId in shop.admins || shop.db.orders[k].userId == userId)
         && (match q.status case Some(status) => status == "pending" case None => true)
         && (match q.startDate case Some(date) => date <= shop.orderTimes[k] case None => true)
         && (match q.endDate case Some(date) => shop.orderTimes[k] <= date case None => true)
         && (match q.minTotal case Some(total) => total <= shop.db.orders[k].total case None => true)
  }

  /** A row shows the committed order, and id, sku and current name of each item's product. */
  predicate ShowsOrder(shop: Shop, row: OrderRow) {
    && row.id in shop.db.orders && row.order == shop.db.orders[row.id]
    && |row.products| == |row.order.items|
    && forall i :: 0 <= i < |row.products| ==> ShowsProduct(shop, row.order.items[i].productId, row.products[i])
  }

  predicate ShowsProduct(shop: Shop, id: ProductId, shown: (ProductId, string, string)) {
    id in shop.db.products && shown == (id, shop.db.products[id].sku, shop.db.products[id].name)
  }

  function OrderIds(rows: seq<OrderRow>): (ids: seq<OrderId>)
    ensures |ids| == |rows| && forall i :: 0 <= i < |rows| ==> ids[i] == rows[i].id
  {
    seq(|rows|, i requires 0 <= i < |rows| => rows[i].id)
  }

  ghost predicate OrdersAnswer(lib: Library, shop: Shop, userId: UserId, url: string, r: ListResponse) {
    match lib.parseOrders(url)
    case None => r == ListResponse(400, ListError("VALIDATION_ERROR"))
    case Some(q) =>
      if (q.page - 1) * q.limit < 0 || q.limit < 0 then r == ListResponse(500, ListError("INTERNAL_ERROR"))
      else
        && r.status == 200 && r.body.OrderPage? && r.body.page == q.page && r.body.limit == q.limit
        && r.body.total == lib.countOrders(shop, userId, q)
        && (forall i :: 0 <= i < |r.body.orders| ==> ShowsOrder(shop, r.body.orders[i]))
        && exists all :: OrdersToShow(shop, userId, q, all) && PageOf(all, OrderIds(r.body.orders), q.page, q.limit)
  }

  /** All live products that match the search, newest first. */
  ghost predicate ProductsToShow(lib: Library, shop: Shop, q: ProductQuery, all: seq<ProductId>) {
    && NewestFirst(all, shop.productTimes)
    && forall id :: id in all <==>
         && id in shop.db.products && !shop.db.products[id].isDeleted
         && (match q.search
             case Some(text) => lib.like(shop.db.products[id].name, text) || lib.like(shop.db.products[id].sku, text)
             case None => true)
  }

  function ProductIds(rows: seq<(ProductId, Product)>): (ids: seq<ProductId>)
    ensures |ids| == |rows| && forall i :: 0 <= i < |rows| ==> ids[i] == rows[i].0
  {
    seq(|rows|, i requires 0 <= i < |rows| => rows[i].0)
  }

  ghost predicate ProductsAnswer(lib: Library, shop: Shop, url: string, r: ListResponse) {
    match lib.parseProducts(url)
    case None => r == ListResponse(500, ListError("INTERNAL_ERROR"))
    case Some(q) =>
      if (q.page - 1) * q.limit < 0 || q.limit < 0 then r == ListResponse(500, ListError("INTERNAL_ERROR"))
      else
        && r.status == 200 && r.body.ProductPage? && r.body.page == q.page && r.body.limit == q.limit
        && (forall i :: 0 <= i < |r.body.products| ==>
              r.body.products[i].0 in shop.db.products
              && r.body.products[i].1 == shop.db.products[r.body.products[i].0])
        && exists all :: ProductsToShow(lib, shop, q, all)
             && r.body.total == |all| && PageOf(all, ProductIds(r.body.products), q.page, q.limit)
  }

  ghost predicate ListAnswer(lib: Library, shop: Shop, list: ListRequest, r: ListResponse) {
    match list
    case ListProducts(_, url) => ProductsAnswer(lib, shop, url, r)
    case ListOrders(userId, url) => OrdersAnswer(lib, shop, userId, url, r)
  }

  // ---- The views meet their answers

  lemma {:induction false} SelectedHas<K>(ids: seq<K>, keep: K -> bool, id: K)
    ensures id in Selected(ids, keep) <==> id in ids && keep(id)
  {
    if ids == [] {
    } else {
      SelectedHas(ids[1..], keep, id);
      assert ids == [ids[0]] + ids[1..];
    }
  }

  lemma {:induction false} SelectedStaySorted<K>(ids: seq<K>, times: map<K, int>, keep: K -> bool)
    requires NewestFirst(ids, times)
    ensures NewestFirst(Selected(ids, keep), times)
  {
    if ids == [] {
    } else {
      SelectedStaySorted(ids[1..], times, keep);
      var rest := Selected(ids[1..], keep);
      forall j | 0 <= j < |rest|
        ensures rest[j] != ids[0] && TimeOf(times, ids[0]) >= TimeOf(times, rest[j])
      {
        var other := rest[j];
        SelectedHas(ids[1..], keep, other);
        var k :| 0 <= k < |ids[1..]| && ids[1..][k] == other;
        assert ids[k + 1] == rest[j];
      }
    }
  }

  lemma {:induction false} PlaceOnPage(p: nat, page: int, limit: int)
    requires limit >= 1
    ensures (page - 1) * limit <= p < (page - 1) * limit + limit <==> p / limit + 1 == page
  {
    var k := p / limit;
    assert p == k * limit + p % limit;
    if page - 1 < k {
      Multiples(page, k, limit);
    } else if page - 1 > k {
      Multiples(k + 1, page - 1, limit);
    }
  }

  lemma {:induction false} Multiples(a: int, b: int, limit: int)
    requires a <= b && limit >= 1
    ensures a * limit <= b * limit
  {
  }

  lemma {:induction false} PageIsPageOf<K>(all: seq<K>, page: int, limit: int)
    requires forall i, j :: 0 <= i < j < |all| ==> all[i] != all[j]
    ensures Page(all, page, limit).None? <==> (page - 1) * limit < 0 || limit < 0
    ensures Page(all, page, limit).Some? ==> PageOf(all, Page(all, page, limit).value, page, limit)
  {
    if Page(all, page, limit).Some? && limit >= 1 {
      var shown, offset := Page(all, page, limit).value, (page - 1) * limit;
      forall p | 0 <= p < |all|
        ensures all[p] in shown <==> p / limit + 1 == page
      {
        PlaceOnPage(p, page, limit);
        if offset <= p < offset + limit {
          assert shown[p - offset] == all[p];
        }
      }
    }
  }

  lemma {:induction false} MatchingOrdersAreToShow(shop: Shop, userId: UserId, q: OrderQuery)
    requires Listed(shop)
    ensures OrdersToShow(shop, userId, q, MatchingOrders(shop, userId, q))
  {
    var keep := OrderFilter(shop, userId, q);
    forall id: OrderId
      ensures id in Selected(shop.newestOrders, keep) <==> id in shop.db.orders && OrderMatches(shop, userId, q, id)
    {
      SelectedHas(shop.newestOrders, keep, id);
    }
    SelectedStaySorted(shop.newestOrders, shop.orderTimes, keep);
  }

  lemma {:induction false} RowShowsOrder(shop: Shop, id: OrderId)
    requires Listed(shop) && id in shop.db.orders
    ensures ShowsOrder(shop, OrderRowOf(shop, id)) && OrderRowOf(shop, id).id == id
  {
    assert ItemsExist(shop.db.products, shop.db.orders[id]);
    var row := OrderRowOf(shop, id);
    forall i | 0 <= i < |row.products|
      ensures ShowsProduct(shop, row.order.items[i].productId, row.products[i])
    {
      assert row.products[i] == Embedded(shop, row.order.items[i].productId);
    }
  }

  lemma {:induction false} OrdersPageShows(lib: Library, shop: Shop, userId: UserId, url: string, q: OrderQuery)
    requires Listed(shop) && lib.parseOrders(url) == Some(q)
    requires Page(MatchingOrders(shop, userId, q), q.page, q.limit).Some?
    ensures var r := OrdersView(lib, shop, userId, url);
      && r.status == 200 && r.body.OrderPage? && r.body.page == q.page && r.body.limit == q.limit
      && r.body.total == lib.countOrders(shop, userId, q)
      && OrderIds(r.body.orders) == Page(MatchingOrders(shop, userId, q), q.page, q.limit).value
      && forall i :: 0 <= i < |r.body.orders| ==> ShowsOrder(shop, r.body.orders[i])
  {
    var r, all := OrdersView(lib, shop, userId, url), MatchingOrders(shop, userId, q);
    var ids := Page(all, q.page, q.limit).value;
    MatchingOrdersAreToShow(shop, userId, q);
    forall i | 0 <= i < |r.body.orders|
      ensures ShowsOrder(shop, r.body.orders[i])
      ensures OrderIds(r.body.orders)[i] == ids[i]
    {
      PageIsPart(all, q.page, q.limit, i);
      RowShowsOrder(shop, ids[i]);
      assert r.body.orders[i] == OrderRowOf(shop, ids[i]);
    }
    assert OrderIds(r.body.orders) == ids;
  }

  lemma {:induction false} OrdersViewIsAnswer(lib: Library, shop: Shop, userId: UserId, url: string)
    requires Listed(shop)
    ensures OrdersAnswer(lib, shop, userId, url, OrdersView(lib, shop, userId, url))
  {
    if lib.parseOrders(url).Some? {
      var q := lib.parseOrders(url).value;
      var all := MatchingOrders(shop, userId, q);
      MatchingOrdersAreToShow(shop, userId, q);
      PageIsPageOf(all, q.page, q.limit);
      if Page(all, q.page, q.limit).Some? {
        OrdersPageShows(lib, shop, userId, url, q);
      }
    }
  }

  lemma {:induction false} PageIsPart<K>(all: seq<K>, page: int, limit: int, i: nat)
    requires Page(all, page, limit).Some? && i < |Page(all, page, limit).value|
    ensures Page(all, page, limit).value[i] in all
  {
  }

  lemma {:induction false} ProductsViewIsAnswer(lib: Library, shop: Shop, url: string)
    requires Listed(shop)
    ensures ProductsAnswer(lib, shop, url, ProductsView(lib, shop, url))
  {
    if lib.parseProducts(url).Some? {
      var q, r := lib.parseProducts(url).value, ProductsView(lib, shop, url);
      var keep := ProductFilter(lib, shop, q);
      var all := MatchingProducts(lib, shop, q);
      forall id: ProductId
        ensures id in Selected(shop.newestProducts, keep) <==>
          id in shop.db.products && ProductMatches(lib, shop, q, id)
      {
        SelectedHas(shop.newestProducts, keep, id);
      }
      SelectedStaySorted(shop.newestProducts, shop.productTimes, keep);
      assert ProductsToShow(lib, shop, q, all);
      PageIsPageOf(all, q.page, q.limit);
      if r.status == 200 {
        assert ProductIds(r.body.products) == Page(all, q.page, q.limit).value;
        forall i | 0 <= i < |r.body.products|
          ensures r.body.products[i].0 in shop.db.products
        {
          PageIsPart(all, q.page, q.limit, i);
        }
      }
    }
  }

  /** Every list request is answered with exactly the rows it should show, in their order and on their pages. */
  lemma {:induction false} ViewIsAnswer(lib: Library, shop: Shop, list: ListRequest)
    requires Listed(shop)
    ensures ListAnswer(lib, shop, list, View(lib, shop, list))
  {
    match list
    case ListProducts(_, url) => ProductsViewIsAnswer(lib, shop, url);
    case ListOrders(userId, url) => OrdersViewIsAnswer(lib, shop, userId, url);
  }

  // ---- Mutations

  predicate SameLists(shop: Shop, shop': Shop) {
    && shop'.newestOrders == shop.newestOrders && shop'.newestProducts == shop.newestProducts
    && shop'.orderTimes == shop.orderTimes && shop'.productTimes == shop.productTimes && shop'.admins == shop.admins
  }

  ghost predicate AddResult(
      shop: Shop, shop': Shop, id: ProductId, sku: string, name: string, price: real, stock: int, now: int,
      success: bool)
  {
    && (success <==>
          && id !in shop.db.products && (forall p :: p in shop.db.products ==> shop.db.products[p].sku != sku)
          && 3 <= |name| <= 200 && 0.005 <= price < 99999999.995 && 0 <= stock <= 2147483647)
    && (!success ==> shop' == shop)
    && (success ==>
          && id in shop'.db.products
          && shop'.db.products[id] == Product(sku, name, shop'.db.products[id].price, stock, false)
          && NearestCents(shop'.db.products[id].price, price)
          && shop'.db == Db(shop.db.products[id := shop'.db.products[id]], shop.db.orders)
          && shop'.productTimes == shop.productTimes[id := now]
          && shop'.orderTimes == shop.orderTimes && shop'.admins == shop.admins)
  }

  /** The answer of the service, the rows it left, and the times of creation. */
  ghost predicate MutationResult(shop: Shop, shop': Shop, m: Mutation, success: bool) {
    match m
    case PlaceAnOrder(k, userId, items, now) =>
      && (k in shop.db.orders ==> !success)
      && (!success ==> shop' == shop)
      && (success ==>
            && k in shop'.db.orders
            && OrderResult(shop.db, shop'.db, k, userId, items, Placed(shop'.db.orders[k]))
            && shop'.orderTimes == shop.orderTimes[k := now]
            && shop'.productTimes == shop.productTimes && shop'.admins == shop.admins)
      && (k !in shop.db.orders && |items| <= 450000 ==>
            (success <==> AllAvailable(shop.db.products, items) && Worth(shop.db.products, items) <= 9999999999))
    case ChangeProduct(id, edit) =>
      && SameLists(shop, shop')
      && exists outcome :: EditResult(shop.db, shop'.db, id, edit, outcome) && success == outcome.Edited?
    case RemoveProduct(id) =>
      && SameLists(shop, shop')
      && exists outcome :: DeleteResult(shop.db, shop'.db, id, outcome) && success == outcome.Deleted?
    case AddProduct(id, sku, name, price, stock, now) =>
      AddResult(shop, shop', id, sku, name, price, stock, now, success)
  }

  /** Every mutation leaves exactly what its service promises. */
  lemma {:induction false} MutationMeetsItsResult(shop: Shop, m: Mutation)
    ensures MutationResult(shop, Mutate(shop, m).0, m, Mutate(shop, m).1)
  {
    match m
    case PlaceAnOrder(k, userId, items, _) => OrderMeetsItsResult(shop.db, k, userId, items);
    case ChangeProduct(id, edit) => EditMeetsItsResult(shop.db, id, edit);
    case RemoveProduct(id) => DeleteMeetsItsResult(shop.db, id);
    case AddProduct(_, _, name, price, stock, _) =>
      FitsIffValid(Edit(Some(name), Some(price), Some(stock)));
      ToFixedIsNearest(price);
  }

  lemma {:induction false} InsertedHas<K>(ids: seq<K>, times: map<K, int>, id: K, now: int, other: K)
    ensures other in InsertNewest(ids, times, id, now) <==> other == id || other in ids
  {
    if ids == [] || TimeOf(times, ids[0]) <= now {
    } else {
      InsertedHas(ids[1..], times, id, now, other);
      assert ids == [ids[0]] + ids[1..];
    }
  }

  lemma {:induction false} InsertedIsNewestFirst<K>(ids: seq<K>, times: map<K, int>, id: K, now: int)
    requires NewestFirst(ids, times) && id !in ids
    ensures NewestFirst(InsertNewest(ids, times, id, now), times[id := now])
  {
    if ids == [] {
    } else {
      var times' := times[id := now];
      forall i | 0 <= i < |ids|
        ensures TimeOf(times', ids[i]) == TimeOf(times, ids[i])
      {
        assert ids[i] in ids;
      }
      if TimeOf(times, ids[0]) > now {
        InsertedIsNewestFirst(ids[1..], times, id, now);
        var rest := InsertNewest(ids[1..], times, id, now);
        forall j | 0 <= j < |rest|
          ensures rest[j] != ids[0] && TimeOf(times', ids[0]) >= TimeOf(times', rest[j])
        {
          InsertedHas(ids[1..], times, id, now, rest[j]);
          if rest[j] != id {
            var k :| 0 <= k < |ids[1..]| && ids[1..][k] == rest[j];
            assert ids[k + 1] == rest[j];
          }
        }
      }
    }
  }

  lemma {:induction false} PlacedItemsExist(db: Db, k: OrderId, userId: UserId, items: seq<Line>)
    requires AtomicOrder(db, k, userId, items).1.Placed?
    ensures ItemsExist(db.products, AtomicOrder(db, k, userId, items).1.order)
  {
    OrderMeetsItsResult(db, k, userId, items);
    var order := AtomicOrder(db, k, userId, items).1.order;
    forall i | 0 <= i < |order.items|
      ensures order.items[i].productId in db.products
    {
      assert RecordsItem(db, order.items[i], items);
    }
  }

  lemma {:induction false} OrderKeepsListed(shop: Shop, k: OrderId, userId: UserId, items: seq<Line>, now: int)
    requires Listed(shop) && Mutate(shop, PlaceAnOrder(k, userId, items, now)).1
    ensures Listed(Mutate(shop, PlaceAnOrder(k, userId, items, now)).0)
  {
    PlacedItemsExist(shop.db, k, userId, items);
    InsertedIsNewestFirst(shop.newestOrders, shop.orderTimes, k, now);
    forall other: OrderId
      ensures other in InsertNewest(shop.newestOrders, shop.orderTimes, k, now) <==>
        other == k || other in shop.newestOrders
    {
      InsertedHas(shop.newestOrders, shop.orderTimes, k, now, other);
    }
  }

  lemma {:induction false} AddKeepsListed(shop: Shop, m: Mutation)
    requires Listed(shop) && m.AddProduct? && Mutate(shop, m).1
    ensures Listed(Mutate(shop, m).0)
  {
    InsertedIsNewestFirst(shop.newestProducts, shop.productTimes, m.id, m.now);
    forall other: ProductId
      ensures other in InsertNewest(shop.newestProducts, shop.productTimes, m.id, m.now) <==>
        other == m.id || other in shop.newestProducts
    {
      InsertedHas(shop.newestProducts, shop.productTimes, m.id, m.now, other);
    }
  }

  /** Every mutation keeps every row listed once, newest first. */
  lemma {:induction false} MutationKeepsListed(shop: Shop, m: Mutation)
    requires Listed(shop)
    ensures Listed(Mutate(shop, m).0)
  {
    match m
    case PlaceAnOrder(k, userId, items, now) =>
      if Mutate(shop, m).1 {
        OrderKeepsListed(shop, k, userId, items, now);
      }
    case ChangeProduct(_, _) =>
    case RemoveProduct(_) =>
    case AddProduct(_, _, _, _, _, _) =>
      if Mutate(shop, m).1 {
        AddKeepsListed(shop, m);
      }
  }
}
