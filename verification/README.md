# Verified model of the order and inventory backend

A Dafny model of the parts of the backend in which an error would sell stock that is not there, charge a wrong amount,
run a retried request twice, or serve a stale list. `dafny verify dfyconfig.toml` checks everything.

Four machines are modelled, each at the granularity at which the code can be interrupted:

* **Order and product transactions** (`catalogue.dfy`, `service_results.dfy`, `transactions.dfy`,
  `transaction_invariant.dfy`, `serializability.dfy`, `progress.dfy`, `stock_history.dfy`, `log_promises.dfy`). Any number
  of `createOrder`, `updateProduct` and `softDeleteProduct` transactions interleave: each locking read, each buffered
  write, each commit, rollback and database failure is one step. The main theorem is that every run equals the serial run
  of its log, in real-time order; conversely, every serial order of requests is the log of some run. What each service
  does is stated on the rows before and after, for every answer in the log. Conservation of stock, the order book, the
  jobs and the race for the last units follow. Waits always ascend in product id, so there is no deadlock, and every
  transaction acts a bounded number of times. `order_service.dfy` holds the services statement by statement, as methods
  of a `Database` object that other transactions may change at every `await`.
* **Idempotency** (`idempotency.dfy`, `idempotency_promises.dfy`, `idempotency_service.dfy`, `responses.dfy`,
  `response_capture.dfy`). Find, insert, find-again and every event on the wrapped response are separate steps over a
  table with a unique index, and clock readings may be older than the step that uses them. Every run is linearizable to
  one indivisible get-or-insert per call, and every answer is determined by the earlier events. `checkout.dfy` and
  `checkout_runs.dfy` put this machine and the transactions together: at most one order per key, each outcome with its
  response, and for every order a run in which it is answered and its retry gets the same response.
* **Lists and their cache** (`redis_cache.dfy`, `cached_lists.dfy`, `list_results.dfy`, `list_server.dfy`). Every list
  shows exactly the rows it should, in order and on their pages. The purge by namespace groups is exact, keys are
  injective, and for requests served one after another the cached server answers exactly like one without a cache.
* **Refresh tokens** (`auth_tokens.dfy`, `auth_controller.dfy`). A refresh token, a password or a one-time password is
  accepted exactly when the history of requests says so.

`order_lines.dfy` and `money.dfy` hold the two calculations below them: the normal form of order lines, and totals in
binary64 arithmetic. Rounding is not an assumed relative error: `Binary64.Round` is proved to yield a double, the nearest
one, with an even significand on a tie (section 4.3.1 of IEEE 754-2019), and the 2^-53 bound is a lemma about it.

What the database is assumed to do: a locking read by primary key takes the exclusive lock of an existing row, also of a
soft-deleted one, until commit or rollback, and sees the latest committed row; a throw inside the transaction callback
rolls back; a value a column does not accept makes the statement fail. The affected-row count of an update is taken in
its stricter form: a matched row that already holds the value does not count.

Properties that the code does not have, and what holds instead:

* A key does not become usable again after the 24 hours of its time to live. `IdempotencyPromises.ExpiredKeyIsNotReusable`
  is a run that shows it; `IdempotencyPromises.EveryAnswerIsDetermined` says for every run exactly when a call is admitted,
  and what it gets otherwise.
* Live products and sufficient stock do not suffice for `createOrder`: a total above 99,999,999.99 is refused by its
  DECIMAL(10,2) column. `Catalogue.AvailableOrderCanOverflow` is such an order; `Catalogue.OrderSucceedsIff` gives the
  exact condition.

Every lemma is marked `{:induction false}`: no proof relies on automatic induction.

## Model

| member | source | states |
|---|---|---|
| `OrderLines.MergeOrderItems` | src/modules/Orders/Order.service.ts:31-42 | the loop over a `Map` yields each product once, in order of first occurrence, with the sum of all its raw lines |
| `OrderLines.FirstOccurrencesDistinct` | src/modules/Orders/Order.service.ts:32-38 | the merged products are pairwise distinct and are exactly those the request mentions |
| `OrderLines.FirstOccurrencesInOrder` | src/modules/Orders/Order.service.ts:32-41 | of two merged products, the earlier one is mentioned before the later one is |
| `OrderLines.SumOfConcat` | src/modules/Orders/Order.service.ts:35 | the quantity of a product is the sum over the lines that name it, additive over parts of a request |
| `OrderLines.NormalFormIsCanonical` | src/modules/Orders/Order.service.ts:31-47 | merging then sorting gives strictly ascending ids, the same products, and the same sum per product |
| `OrderLines.SameNormalFormIff` | src/modules/Orders/Order.service.ts:31-47 | two requests have the same normal form if and only if they mention the same products with the same totals |
| `Binary64.RoundIsDouble` | src/modules/Orders/Order.service.ts:96-99 | the result of every operation is a significand of at most 53 bits times a power of two |
| `Binary64.RoundIsNearest` | src/modules/Orders/Order.service.ts:96-99 | no double, of whatever binade, is nearer to the exact result |
| `Binary64.TiesGoToEven` | src/modules/Orders/Order.service.ts:96-99 | when another double is as near, the chosen significand is even |
| `Binary64.RoundingError` | src/modules/Orders/Order.service.ts:96-99 | one operation errs by at most a relative 2^-53, proved from the definition of rounding |
| `Money.EveryOperationIsRounded` | src/modules/Orders/Order.service.ts:92-99 | the unit price, each line amount and each partial sum is the double nearest to the exact quotient, product and sum |
| `Money.ToFixedIsNearest` | src/modules/Orders/Order.service.ts:105 | `toFixed(2)` is the nearest number of cents, the larger one on a tie |
| `Money.PrintedTotalIsExact` | src/modules/Orders/Order.service.ts:92-105 | multiplying, summing in order and printing in binary64 gives the exact cents whenever these fit DECIMAL(10,2), and the column accepts the printed total if and only if the exact total fits |
| `Money.PriceRoundTrip` | src/modules/Orders/Order.service.ts:92-130 | for every DECIMAL(10,2) price string, `Number` followed by `toFixed(2)` returns the same string |
| `Catalogue.RefusedIffUnavailable` | src/modules/Orders/Order.service.ts:56-87 | the locking loop refuses if and only if some requested product is not live or has less stock than the sum of its raw lines, and the error is about the first such product in sorted order |
| `Catalogue.NormalizedWorth` | src/modules/Orders/Order.service.ts:31-99 | the total over the merged and sorted lines equals price times quantity summed over the raw lines |
| `Catalogue.OrderSucceedsIff` | src/modules/Orders/Order.service.ts:44-137 | when an order succeeds, what it charges to the cent, which product a failure names, and that a failure changes nothing |
| `Catalogue.AvailableOrderCanOverflow` | src/modules/Orders/Order.service.ts:96-108 | a valid order of live products in sufficient stock that is refused because its total does not fit the column |
| `ServiceResults.OrderMeetsItsResult` | src/modules/Orders/Order.service.ts:44-137 | for every request on every database: either an unavailable product, the first in sorted order, is reported with what was asked of it in all and what there is; or the order records user, items with summed quantities and catalogue prices, and the exact total, and exactly those quantities leave the stock; or the total is out of range; in the failing cases nothing changes |
| `ServiceResults.EditMeetsItsResult` | src/modules/Products/Product.service.ts:56-86 | the answer is the written row if and only if the product is live and name, price and stock are within written-out bounds; given fields are written, the price as the nearest cents, all other columns, rows and orders are kept; else nothing changes |
| `ServiceResults.DeleteMeetsItsResult` | src/modules/Products/Product.service.ts:88-111 | a live product is marked deleted and nothing else changes; any other id is not found |
| `TransactionInvariant.Undisturbed` | src/modules/Orders/Order.service.ts:57-61 | what other transactions do to rows a transaction has not locked keeps its whole invariant |
| `TransactionInvariant.WritesAreLocked` | src/modules/Orders/Order.service.ts:110-114 | a committing transaction writes only rows it has locked |
| `TransactionInvariant.StockUpdateAffectsOneRow` | src/modules/Orders/Order.service.ts:111-116 | the held lock, the current snapshot, the merged lines and quantities of at least 1 make every stock update change exactly one row |
| `Serializability.AbsoluteWritesDeduct` | src/modules/Orders/Order.service.ts:110-114 | under the locks the blind absolute stock writes deduct exactly the sum of the raw lines from every committed row |
| `Serializability.CommitIsAtomic` | src/modules/Orders/Order.service.ts:96-137 | at its commit a transaction does to the tables, and returns, what the whole request run alone would |
| `Serializability.RefusalIsAtomic` | src/modules/Orders/Order.service.ts:63-87 | at its rollback a refused transaction returns the error the whole request run alone would, and changes nothing |
| `Serializability.StepKeepsInv` | src/modules/Orders/Order.service.ts:49-137 | every step of every transaction keeps the invariant: snapshots current, locks owned, buffers as far as the program counter says, columns in range |
| `Serializability.EveryRunIsSerializable` | src/modules/Orders/Order.service.ts:49-137 | after any interleaving the committed tables are those of replaying the log serially, each transaction got the answer of its atomic version there, and the log lists every answered transaction once |
| `Serializability.LogRespectsRealTime` | src/utils/transaction.ts:4-8 | a transaction answered before another began stands before it in the serial order |
| `LogPromises.EveryAnswerMeetsItsResult` | src/modules/Orders/Order.service.ts:49-137 | over any run, each logged answer and the tables before and after it are related as the results above say |
| `LogPromises.DeletedStaysDeleted` | src/modules/Products/Product.service.ts:90-107 | over any run, once a delete is answered no later order, edit or delete of the product succeeds |
| `LogPromises.EverySerialOrderIsReachable` | src/utils/transaction.ts:4-8 | whatever valid requests with fresh ids are given, in whatever order, some run of the interleaved machine answers exactly these in this order |
| `Progress.WaitsAscend` | src/modules/Orders/Order.service.ts:45-61 | a transaction waits only for holders that themselves wait for a greater product id |
| `Progress.NoWaitCycle` | src/modules/Orders/Order.service.ts:45-61 | no chain of waiting transactions returns to its start |
| `Progress.SomeoneCanStep` | src/modules/Orders/Order.service.ts:45-61 | while a transaction is unfinished, some transaction can step |
| `Progress.StepsAreBounded` | src/modules/Orders/Order.service.ts:56-134 | a transaction over n products acts at most 3n + 3 times in any run |
| `Progress.StuckMeansFinished` | src/modules/Products/Product.service.ts:58-94 | a run in which nothing can act has finished every transaction: neither deadlock nor livelock |
| `StockHistory.SoldOneMore` | src/modules/Orders/Order.service.ts:125-133 | the quantity sold of a product, a sum over all orders in any sequence, grows by exactly the new order's items |
| `StockHistory.StockIsConserved` | src/modules/Orders/Order.service.ts:110-133 | in every reachable state the stock is the initial stock plus net admin edits minus quantities in order items committed since, and never negative |
| `StockHistory.SnapshotIsCommittedRow` | src/modules/Orders/Order.service.ts:57-75 | in every reachable state a row that was read under a held lock still is the committed row |
| `StockHistory.StockUpdateNeverFails` | src/modules/Orders/Order.service.ts:116-123 | in every reachable state a stock update about to be made affects exactly one row, and no transaction fails or failed with STOCK_UPDATE_FAILED |
| `StockHistory.OrderBookIsConsistent` | src/modules/Orders/Order.service.ts:96-134 | every order committed by a run has one item per product and a total equal to the sum of item price times quantity |
| `StockHistory.OrdersAreImmutable` | src/modules/Products/Product.service.ts:75-107 | no later price edit, soft delete or order changes a committed order |
| `StockHistory.JobsAreSound` | src/modules/Orders/Order.service.ts:141-151 | every queued job is about a committed order with its user and total, and a transaction that did not commit has none |
| `LogPromises.PlacedOrderGetsItsJob` | src/jobs/order.queue.ts:24-38 | in every reachable state a committed order without a job can be given the one with its id, user and total |
| `StockHistory.RacingOrdersSellExactlyTheStock` | tests/concurrency/stock.race.test.ts:37-63 | of any number of concurrent one-unit orders exactly as many succeed as there are units (or all), and the rest of the stock remains |
| `OrderService.OthersAreTolerated` | src/modules/Orders/Order.service.ts:57-61 | every step of another transaction of the machine is among the changes the methods below tolerate at an `await` |
| `OrderService.PendingDeducts` | src/modules/Orders/Order.service.ts:110-114 | the loop's absolute values, applied to the rows as they are at commit, deduct the raw lines |
| `OrderService.Database.LockProducts` | src/modules/Orders/Order.service.ts:56-94 | the locking loop stops at the first refusal and reports it; all rows read so far are still the committed ones |
| `OrderService.Database.ReduceTotal` | src/modules/Orders/Order.service.ts:96-99 | the `reduce` computes the left-to-right binary64 sum |
| `OrderService.Database.WriteLines` | src/modules/Orders/Order.service.ts:110-134 | the write loop leaves one absolute stock value and one item per line, with the printed price; its affected-row check never fires |
| `OrderService.Database.CreateOrder` | src/modules/Orders/Order.service.ts:44-137 | whatever others commit at its awaits, `createOrder` takes effect atomically on the tables at its end, with the result stated in `ServiceResults` |
| `OrderService.Database.UpdateProduct` | src/modules/Products/Product.service.ts:56-86 | likewise: on the tables at its end the given fields and no others are written to a live product, or nothing is and the error says why |
| `OrderService.Database.SoftDeleteProduct` | src/modules/Products/Product.service.ts:88-111 | likewise: a live product is marked deleted and nothing else changes |
| `Idempotency.StepKeepsInv` | src/services/idempotency.service.ts:55-137 | every step of every call keeps the invariant that ties rows to the calls that inserted, completed or replayed them |
| `Idempotency.EveryRunIsLinearizable` | src/services/idempotency.service.ts:55-121 | under any interleaving and clock, the table and all answers are those of one indivisible get-or-insert per call with a clock reading taken during the call |
| `Idempotency.HistoryRespectsRealTime` | src/services/idempotency.service.ts:55-121 | a call answered before another arrived takes effect before it |
| `Idempotency.StepEvolves` | src/services/idempotency.service.ts:79-137 | every step of any call is a change that `ResolveIdempotency` tolerates at its awaits |
| `IdempotencyPromises.AdmittedAtMostOnce` | DB/IdempotencyKeys/IdempotencyKey.model.ts:93-98 | over any run, two admitted calls never share scope and key |
| `IdempotencyPromises.ReplayIsFaithful` | src/middleware/idempotency.middleware.ts:51-99 | over any run, a replay serves what the first recording event of the admitted call with the same key and request hash recorded: its first JSON body with the status set before it, or the error status of a response that finished without one |
| `IdempotencyPromises.ScopesAreSeparate` | src/services/idempotency.service.ts:12-18 | users, addresses, and users and addresses never share a scope |
| `IdempotencyPromises.RecordsOnlyComplete` | src/services/idempotency.service.ts:124-137 | between any two points of a run no row disappears, a completed row stays as it is, and nothing but the status of a row changes |
| `IdempotencyPromises.EveryAnswerIsDetermined` | src/services/idempotency.service.ts:55-121 | over any run: a call is new if and only if no earlier event used its key; otherwise it fails with the unique violation if and only if the first use is 24 hours old, and before that it is a conflict, in progress, or a replay of r if and only if the hashes differ, no response of the first use is stored, or r is that response |
| `IdempotencyPromises.ExpiredKeyIsNotReusable` | src/services/idempotency.service.ts:91-100 | a concrete run: the second use of a key after its 24 hours fails |
| `IdempotencyService.KeyTable.ResolveIdempotency` | src/services/idempotency.service.ts:42-122 | whatever other calls do at the three awaits, the answer and the table are those of the indivisible operation |
| `IdempotencyService.KeyTable.CompleteIdempotency` | src/services/idempotency.service.ts:124-137 | at most one row changes, in its status only, and completing a row in progress is a change every other call tolerates |
| `ResponseCapture.FirstCaptureIff` | src/middleware/idempotency.middleware.ts:62-99 | a response is recorded if and only if the first recording event records it: a JSON body with the code of the last `res.status` before it, 200 if none or 0, or a finish whose status is at least 400, with a general error body |
| `ResponseCapture.CaptureIsFinal` | src/middleware/idempotency.middleware.ts:64-69 | nothing the handler does afterwards changes the recorded response |
| `IdempotencyService.CapturedResponse.Status` | src/middleware/idempotency.middleware.ts:81-84 | keeps: the record was completed at most once, with the first response captured |
| `IdempotencyService.CapturedResponse.Json` | src/middleware/idempotency.middleware.ts:86-89 | keeps the same; the first body is recorded with the status of the last `res.status` before it, later ones are not |
| `IdempotencyService.CapturedResponse.OnFinish` | src/middleware/idempotency.middleware.ts:91-99 | keeps the same; without a body an error status is recorded with a general error body, any other status is not |
| `Checkout.StepKeepsWorld` | src/modules/Orders/Order.controller.ts:24-43 | every step of requests, handlers and transactions keeps the two invariants and the link between them |
| `Checkout.EveryRunKeepsWorld` | src/middleware/idempotency.middleware.ts:42-101 | over every run of the combined machine the transactions stay serializable, the idempotency rows consistent, and order transactions belong to admitted calls |
| `Checkout.AtMostOneOrderPerKey` | src/middleware/idempotency.middleware.ts:42-101 | over every interleaving of requests and retries, calls sharing scope and key run at most one order transaction, so at most one order and one deduction; every order has its key |
| `Checkout.EverySuccessNamesTheOrder` | src/modules/Orders/Order.controller.ts:24-36 | every 201, first hand or replayed, names the committed order of that key, which is the caller's own: same user, and one item per product of the caller's own request with its summed quantity |
| `CheckoutRuns.EveryOutcomeIsAnswered` | src/modules/Orders/Order.controller.ts:24-43 | over any run, a handler whose first response is the outcome of its transaction is recorded for good with 201 and the committed order, 404 PRODUCT_NOT_FOUND, 409 INSUFFICIENT_STOCK or 500 ORDER_CREATE_FAILED, as the outcome is |
| `CheckoutRuns.EveryOrderCanBeAnsweredTwice` | src/middleware/idempotency.middleware.ts:42-101 | for every database and valid order there is a run that answers it, with 201 exactly when all products are available and the total fits, and answers its retry at any time within 24 hours with exactly the same response |
| `CheckoutRuns.LastUnitIsSoldOnce` | src/modules/Orders/Order.controller.ts:24-36 | a concrete run: the last unit is sold with 201, the stock is 0, and the retry gets the same 201 with the same order |
| `RedisCache.KeysAreInjective` | src/utils/redis.ts:51-52 | cache keys determine namespace, scope and path when scopes have no slash and paths start with one, even if scopes contain colons |
| `RedisCache.KeyInItsNamespace` | src/utils/redis.ts:104 | the scan pattern of a namespace matches a key if and only if the key was built for it |
| `RedisCache.RedisStore.SetEx` | src/utils/redis.ts:54-86 | round trip through the stored JSON text: exactly the given value is then found under the key, all other values are found as before, and nothing changes without Redis |
| `RedisCache.RedisStore.DeleteCacheKey` | src/utils/redis.ts:39-49 | removes exactly one key and returns how many keys went |
| `RedisCache.RedisStore.CollectKeysMatching` | src/utils/redis.ts:9-37 | despite repeated, empty or vanished keys and an empty scan, collects every matching key and no other kind |
| `RedisCache.PurgeIsExact` | src/constants/cache.namespaces.ts:7-14 | of all keys ever built, a group takes away exactly those of the namespaces it is there to purge, as written out for each of the six groups |
| `RedisCache.RedisStore.DeleteCache` | src/utils/redis.ts:88-115 | purging a group removes exactly the keys of its namespaces and returns the number of distinct keys removed |
| `CachedLists.SameKeySameView` | src/middleware/cache.middleware.ts:10-15 | requests that share a cache key get the same response |
| `CachedLists.ServeKeepsAgreement` | src/middleware/cache.middleware.ts:15-36 | every request keeps: each cached entry is what recomputing its request now returns |
| `CachedLists.CachingIsTransparent` | src/middleware/cache.middleware.ts:12-39 | over every sequence of requests the server answers like one without a cache |
| `ListResults.ViewIsAnswer` | src/modules/Orders/Order.service.ts:165-218 | an order list shows exactly the orders the caller may see that pass the filters, newest first, each on its page, with the current sku and name of each product; a product list exactly the live products that match, with their number |
| `ListResults.MutationMeetsItsResult` | src/modules/Products/Product.service.ts:21-54 | what each mutation leaves in the tables, written out; a product is created if and only if sku and id are unused and the values fit, with exactly these values |
| `ListResults.MutationKeepsListed` | src/modules/Orders/Order.service.ts:205 | every mutation keeps every row listed once, newest first |
| `CachedLists.ProductEditMustPurgeOrders` | src/constants/cache.namespaces.ts:7-14 | a concrete product edit after which a purge of the products namespace alone leaves a wrong order list |
| `ListServers.ListServer.List` | src/middleware/cache.middleware.ts:14-38 | hit or miss, the response is the one `ListResults` describes for the current tables; a successful one is then cached, an error is not, and the cache still agrees |
| `ListServers.ListServer.Change` | src/modules/Products/Product.controller.ts:88-103 | a controller's service call leaves what `ListResults` describes, its purge leaves no stale entry, and a failed call leaves the cache alone |
| `AuthTokens.RunKeepsRows` | src/modules/Auth/Auth.controller.ts:27-40 | after any history each user row holds the email of joining and the hashes of the last password, the current refresh token and the current OTP of the history, and emails are unique |
| `AuthTokens.CurrentTokensDiffer` | src/modules/Auth/Auth.controller.ts:25-40 | no token is current for two users |
| `AuthTokens.RefreshAcceptsExactlyTheValidToken` | src/modules/Auth/Auth.controller.ts:125-143 | a token is accepted if and only if it is the last one issued to some user, unexpired, with no password reset or change since; the row found is that user's |
| `AuthTokens.RefreshedTokenIsSpent` | src/modules/Auth/Auth.controller.ts:143-152 | a refreshed token is valid for nobody afterwards |
| `AuthTokens.LoginAcceptsExactly` | src/modules/Auth/Auth.controller.ts:89-106 | the row found and its password hash accept exactly the user who joined with the email and whose last password matches |
| `AuthTokens.ResetAcceptsExactly` | src/modules/Auth/Auth.controller.ts:211-225 | the row found accepts exactly the user to whom the OTP was last sent, unexpired and unused |
| `AuthTokens.EveryEffectIsDetermined` | src/modules/Auth/Auth.controller.ts:44-274 | over any run, what each request did is determined by the effects of the earlier ones: who joined, got a token, was sent an OTP or replaced a password, with exactly the values of the request; every other request did nothing |
| `AuthControllers.AuthController.SignUpUser` | src/modules/Auth/Auth.controller.ts:44-84 | a user is created if and only if nobody in the history joined with the email, with exactly the given values and the minted token; nothing else changes |
| `AuthControllers.AuthController.LoginUser` | src/modules/Auth/Auth.controller.ts:86-123 | a token is issued if and only if the email is a user's and the password matches the last one that user chose in the history; only that user's token columns change |
| `AuthControllers.AuthController.RefreshTokens` | src/modules/Auth/Auth.controller.ts:125-152 | accepts exactly the history's valid tokens, for exactly their user, whose token columns alone are then replaced |
| `AuthControllers.AuthController.ForgetPassword` | src/modules/Auth/Auth.controller.ts:164-183 | the OTP sent becomes the current one of exactly the user with the email; only the OTP columns change |
| `AuthControllers.AuthController.ResetPassword` | src/modules/Auth/Auth.controller.ts:204-240 | accepted if and only if the OTP is the history's valid one of the user with the email; it is then used up, the password replaced and the token revoked; a rejected reset changes nothing |
| `AuthControllers.AuthController.ChangePassword` | src/modules/Auth/Auth.controller.ts:242-274 | accepted if and only if the old password matches the last one of the history; the password is then replaced and the token revoked, and nothing else changes; a rejected change changes nothing |

## Left out

- Money.PrintedTotalIsExact: proved up to 450,000 order lines; beyond that nothing is claimed either way, because the bound on the accumulated rounding error reaches half a cent. `express.json()` accepts bodies of 100 kB by default, about two thousand lines. `StockHistory.OrderBookIsConsistent` and the exact-total part of `Catalogue.OrderSucceedsIff` carry the same bound.
- Binary64.RoundIsNearest: overflow, subnormals and negative numbers are not modelled; prices, quantities and totals in range never meet them. A sum of request quantities above 2^53 would itself be rounded; it is an integer here, and such a line is refused for stock either way.
- Checkout.EverySuccessNamesTheOrder: SHA-256 is an injective function of the JSON text of the body. Keys also used on the other idempotent routes are not part of this model; `method` and `route` are stored but never compared, so a replay is not claimed to be for the same route.
- Checkout.AtMostOneOrderPerKey: says nothing about errors; a failure after the commit (reading the order back, a rejected purge) answers 500 for a committed order, and that 500 is then what retries replay.
- CheckoutRuns.EveryOutcomeIsAnswered: messages and details of error bodies are omitted. The responses to calls that are not admitted (401, 400 for a missing key, 409 and 500 of the middleware) are not part of this model.
- ListResults.ViewIsAnswer: page numbers are whole, `totalPages` is omitted, and the order count is a library parameter.
- Idempotency.EveryRunIsLinearizable: a failed database access is not modelled, nor a process that dies between admission and completion (its key then stays in progress until it expires, and fails from then on).
- OrderService.Database.CreateOrder: database failures appear in the interleaved machine only. `Await` has an empty body; its callers rely on its contract alone, which stands for any interference `OrderService.OthersAreTolerated` allows.
- CachedLists.CachingIsTransparent: only for requests served one after another with Redis available throughout. Overlapping requests can leave a stale entry, because the cache fill is not awaited. All orders are pending (nothing changes a status), rows created in the same instant have a fixed order, and the profile route cached under the auth namespace is not modelled.
- RedisCache.RedisStore.CollectKeysMatching: `CACHE_KEY_PREFIX` is taken to contain no glob characters, and no other client writes during the purge. The expiry time is not part of the store; entries may expire at any moment in the sequential model.
- AuthTokens.RefreshAcceptsExactlyTheValidToken: each request is one event; two overlapping refreshes of the same token could both find the row. SHA-256 is an injective function and generated tokens never repeat; bcrypt hashing is a function of the password, without its salt, and its comparison is abstract. Whether the OTP mail arrives is not modelled.
- OrderLines.NormalFormIsCanonical: a product id is its rank under `localeCompare`, which is taken to be a strict total order on the lower-case ids the database holds.
- `createProduct` competes for no row lock of the other transactions; its lookup of a missing `sku` depends on gap locks of the database. It is a mutation of the sequential cache model only.
- A job that is skipped or lost because Redis is unavailable is a run without its queue step. BullMQ retries and the mail handler are omitted.
- The response of a new order embeds product names read after the commit; the body here is the committed order.
- Express routing, schema validation internals, JWT, rate limiting, mail, Swagger, migrations, seeding, startup and shutdown are omitted.
