/** POST /api/orders end to end: the idempotency calls and the transactions of their handlers in one machine. */
module Checkout {
  import opened Options
  import opened OrderLines
  import opened Catalogue
  import opened Responses
  import opened ResponseCapture
  import I = Idempotency
  import T = Transactions
  import opened TransactionInvariant
  import opened Serializability
  import opened StockHistory

  /** The authenticated user of a call, its idempotency key and the JSON text of its body. */
  datatype Cart = Cart(userId: UserId, key: string, body: string)

  /** `hashRequestBody`, and the `items` of a body. */
  datatype Library = Library(digest: string -> string, items: string -> seq<Line>)

  ghost predicate Injective(lib: Library) {
    forall a, b :: lib.digest(a) == lib.digest(b) ==> a == b
  }

  /** The transaction a handler runs, and the order it creates, carry the id of the call. */
  datatype World = World(idem: I.State, sys: T.State, carts: map<I.CallId, Cart>, lib: Library)

  datatype Action =
    | Arrive(call: I.CallId, cart: Cart, ip: Option<string>)
    | Middleware(step: I.Action)
    | StartHandler(call: I.CallId)
    | Database(statement: T.Action)
    | RespondWithOutcome(call: I.CallId)
    | RespondWithError(call: I.CallId, status: nat, code: string)
    | FinishResponse(call: I.CallId)

  function Initial(db: Db, codec: Codec, lib: Library, clock: int): World {
    World(I.Initial(codec, clock), T.Initial(db), map[], lib)
  }

  /** What the middleware passes to `resolveIdempotency`. */
  function AskOf(lib: Library, cart: Cart, ip: Option<string>): I.Ask {
    I.Ask(I.Slot(I.BuildScopeKey(Some(cart.userId), ip), cart.key), lib.digest(cart.body), "POST", "/api/orders/")
  }

  /** The request of the transaction that serves a cart. */
  function OrderRequest(lib: Library, cart: Cart): Request {
    PlaceOrder(cart.userId, lib.items(cart.body))
  }

  /** `res.status(response.status).json(response.body)`. */
  function Send(s: I.State, call: I.CallId, response: Response): I.State
    requires call in s.calls && I.Admitted(s.calls[call])
  {
    I.Apply(I.Apply(s, I.Emit(call, SetStatus(response.status))), I.Emit(call, SendJson(response.body)))
  }

  function ErrorStatus(e: Error): nat {
    match e
    case ProductNotFound(_) => 404
    case InsufficientStock(_, _, _, _) => 409
    case StockUpdateFailed(_) => 409
    case _ => 500
  }

  function ErrorCode(e: Error): string {
    match e
    case ProductNotFound(_) => "PRODUCT_NOT_FOUND"
    case InsufficientStock(_, _, _, _) => "INSUFFICIENT_STOCK"
    case StockUpdateFailed(_) => "STOCK_UPDATE_FAILED"
    case _ => "ORDER_CREATE_FAILED"
  }

  function ResponseFor(call: I.CallId, outcome: Outcome): Response {
    match outcome
    case Placed(order) => Response(201, OrderCreated(call, order))
    case Failed(e) => Response(ErrorStatus(e), ErrorBody(ErrorCode(e)))
    case _ => Response(500, ErrorBody("ORDER_CREATE_FAILED"))
  }

  predicate HandlerDone(w: World, call: I.CallId) {
    call in w.sys.txs && w.sys.txs[call].phase.Finished?
  }

  predicate MayRespond(w: World, call: I.CallId) {
    call in w.idem.calls && I.Admitted(w.idem.calls[call])
  }

  predicate Enabled(w: World, a: Action) {
    match a
    case Arrive(call, cart, ip) =>
      && cart.userId != "" && 8 <= |cart.key| <= 255
      && I.Enabled(w.idem, I.Arrive(call, AskOf(w.lib, cart, ip)))
      && call !in w.sys.txs && call !in w.sys.db.orders
    case Middleware(step) => !step.Arrive? && !step.Emit? && I.Enabled(w.idem, step)
    case StartHandler(call) =>
      && call in w.idem.calls && w.idem.calls[call].phase.Handling? && call in w.carts
      && T.Enabled(w.sys, T.Begin(call, OrderRequest(w.lib, w.carts[call])))
    case Database(statement) =>
      && T.Enabled(w.sys, statement)
      && (statement.Begin? ==> !statement.request.PlaceOrder? && statement.tx !in w.idem.calls)
    case RespondWithOutcome(call) => MayRespond(w, call) && HandlerDone(w, call)
    case RespondWithError(call, status, _) =>
      // the schema rejected the body, or something failed after the transaction ended, before or after a first response
      MayRespond(w, call) && status >= 400 && (call !in w.sys.txs || HandlerDone(w, call))
    case FinishResponse(call) => MayRespond(w, call)
  }

  function Apply(w: World, a: Action): World
    requires Enabled(w, a)
  {
    match a
    case Arrive(call, cart, ip) =>
      w.(idem := I.Apply(w.idem, I.Arrive(call, AskOf(w.lib, cart, ip))), carts := w.carts[call := cart])
    case Middleware(step) => w.(idem := I.Apply(w.idem, step))
    case StartHandler(call) => w.(sys := T.Apply(w.sys, T.Begin(call, OrderRequest(w.lib, w.carts[call]))))
    case Database(statement) => w.(sys := T.Apply(w.sys, statement))
    case RespondWithOutcome(call) =>
      w.(idem := Send(w.idem, call, ResponseFor(call, w.sys.txs[call].phase.outcome)))
    case RespondWithError(call, status, code) => w.(idem := Send(w.idem, call, Response(status, ErrorBody(code))))
    case FinishResponse(call) => w.(idem := I.Apply(w.idem, I.Emit(call, Finish)))
  }

  predicate Admissible(w: World, actions: seq<Action>)
    decreases |actions|, 0
  {
    actions != [] ==>
      var front := actions[..|actions| - 1];
      Admissible(w, front) && Enabled(Execute(w, front), actions[|actions| - 1])
  }

  function Execute(w: World, actions: seq<Action>): World
    requires Admissible(w, actions)
    decreases |actions|, 1
  {
    if actions == [] then w else Apply(Execute(w, actions[..|actions| - 1]), actions[|actions| - 1])
  }

  // ---- Invariant

  /** The key and the hash of a call are those of its cart. */
  ghost predicate AsksMatchCarts(w: World) {
    forall c :: c in w.idem.calls ==> AskMatchesCart(w, c)
  }

  predicate AskMatchesCart(w: World, c: I.CallId)
    requires c in w.idem.calls
  {
    && c in w.carts && w.carts[c].userId != ""
    && w.idem.calls[c].ask.slot == I.Slot("user:" + w.carts[c].userId, w.carts[c].key)
    && w.idem.calls[c].ask.requestHash == w.lib.digest(w.carts[c].body)
  }

  /** Order transactions are run by admitted calls only, for their own carts. */
  ghost predicate HandlersAdmitted(w: World) {
    forall t :: t in w.sys.txs && w.sys.txs[t].request.PlaceOrder? ==> RunsItsCart(w, t)
  }

  predicate RunsItsCart(w: World, t: T.TxId)
    requires t in w.sys.txs
  {
    && t in w.idem.calls && I.Admitted(w.idem.calls[t])
    && t in w.carts && w.sys.txs[t].request == OrderRequest(w.lib, w.carts[t])
  }

  /** The transaction of a call is an order transaction. */
  ghost predicate CallsRunOrders(w: World) {
    forall c :: c in w.idem.calls && c in w.sys.txs ==> w.sys.txs[c].request.PlaceOrder?
  }

  /** Orders committed by the run belong to order transactions. */
  ghost predicate OrdersHaveHandlers(db: Db, w: World) {
    forall k :: k in w.sys.db.orders ==> k in db.orders || (k in w.sys.txs && w.sys.txs[k].request.PlaceOrder?)
  }

  /** A first response of 201 names the order its own handler committed. */
  ghost predicate SuccessesCommitted(w: World) {
    forall c :: c in w.idem.calls && Succeeded(w.idem.calls[c]) ==> Names(w, c, w.idem.calls[c].phase.response)
  }

  predicate Succeeded(c: I.Call) {
    I.HasResponse(c.phase) && c.phase.response.status == 201
  }

  predicate Names(w: World, c: I.CallId, r: Response) {
    && c in w.sys.db.orders && r.body == OrderCreated(c, w.sys.db.orders[c])
    && c in w.sys.txs && w.sys.txs[c].phase == T.Finished(Placed(w.sys.db.orders[c]))
  }

  ghost predicate Link(db: Db, w: World) {
    && AsksMatchCarts(w)
    && HandlersAdmitted(w)
    && CallsRunOrders(w)
    && OrdersHaveHandlers(db, w)
    && SuccessesCommitted(w)
    && OrdersOfPlaced(w.sys)
  }

  ghost predicate WorldInv(db: Db, w: World) {
    && I.Inv(w.idem)
    && Inv(w.sys)
    && Serialized(db, w.sys)
    && Link(db, w)
  }

  lemma {:induction false} InitialWorld(db: Db, codec: Codec, lib: Library, clock: int)
    requires WellFormed(db) && Lawful(codec)
    ensures WorldInv(db, Initial(db, codec, lib, clock))
  {
    EveryRunIsSerializable(db, []);
  }

  /** The response a step of the idempotency machine starts to record. */
  function NewlyCaptured(s: I.State, a: I.Action): Option<Response>
    requires I.Enabled(s, a)
  {
    if a.Emit? then I.Captures(s.calls[a.call], a.event) else None
  }

  /** A step of the idempotency machine never un-admits a call and never changes a first response. */
  lemma {:induction false} MiddlewareKeeps(s: I.State, a: I.Action, c: I.CallId)
    requires I.Enabled(s, a) && c in s.calls && I.WrapInv(s.calls[c])
    ensures c in I.Apply(s, a).calls && I.Apply(s, a).calls[c].ask == s.calls[c].ask
    ensures I.Admitted(s.calls[c]) ==> I.Admitted(I.Apply(s, a).calls[c])
    ensures I.HasResponse(s.calls[c].phase) ==>
      I.HasResponse(I.Apply(s, a).calls[c].phase) && I.Apply(s, a).calls[c].phase.response == s.calls[c].phase.response
    ensures !I.HasResponse(s.calls[c].phase) && I.HasResponse(I.Apply(s, a).calls[c].phase) ==>
      a.Emit? && a.call == c && NewlyCaptured(s, a) == Some(I.Apply(s, a).calls[c].phase.response)
  {
  }

  lemma {:induction false} MiddlewareNewCalls(s: I.State, a: I.Action, c: I.CallId)
    requires I.Enabled(s, a) && c in I.Apply(s, a).calls && c !in s.calls
    ensures I.Apply(s, a).calls[c].phase.Finding? && a.Arrive? && a.call == c && I.Apply(s, a).calls[c].ask == a.ask
  {
  }

  /** What an idempotency step may do to the carts: only an arrival adds one, and its key and hash belong to it. */
  ghost predicate CartsFollow(w: World, a: I.Action, w': World) {
    && w'.lib == w.lib
    && (if a.Arrive?
        then && a.call !in w.sys.txs && a.call in w'.carts
             && w'.carts == w.carts[a.call := w'.carts[a.call]] && w'.carts[a.call].userId != ""
             && a.ask.slot == I.Slot("user:" + w'.carts[a.call].userId, w'.carts[a.call].key)
             && a.ask.requestHash == w.lib.digest(w'.carts[a.call].body)
        else w'.carts == w.carts)
  }

  lemma {:induction false} AsksStayMatched(w: World, a: I.Action, w': World)
    requires I.Inv(w.idem) && AsksMatchCarts(w) && I.Enabled(w.idem, a)
    requires w'.idem == I.Apply(w.idem, a) && CartsFollow(w, a, w')
    ensures AsksMatchCarts(w')
  {
    forall c | c in w'.idem.calls
      ensures AskMatchesCart(w', c)
    {
      if c in w.idem.calls {
        MiddlewareKeeps(w.idem, a, c);
        assert AskMatchesCart(w, c);
      } else {
        MiddlewareNewCalls(w.idem, a, c);
      }
    }
  }

  lemma {:induction false} IdemStepKeepsHandlers(w: World, a: I.Action, w': World)
    requires I.Inv(w.idem) && HandlersAdmitted(w) && I.Enabled(w.idem, a)
    requires w'.idem == I.Apply(w.idem, a) && w'.sys == w.sys && CartsFollow(w, a, w')
    ensures HandlersAdmitted(w')
  {
    forall t | t in w.sys.txs && w.sys.txs[t].request.PlaceOrder?
      ensures RunsItsCart(w', t)
    {
      assert RunsItsCart(w, t);
      MiddlewareKeeps(w.idem, a, t);
    }
  }

  lemma {:induction false} IdemStepKeepsSuccesses(w: World, a: I.Action, w': World)
    requires I.Inv(w.idem) && SuccessesCommitted(w) && I.Enabled(w.idem, a)
    requires w'.idem == I.Apply(w.idem, a) && w'.sys == w.sys
    requires NewlyCaptured(w.idem, a).Some? && NewlyCaptured(w.idem, a).value.status == 201 ==>
      Names(w, a.call, NewlyCaptured(w.idem, a).value)
    ensures SuccessesCommitted(w')
  {
    forall c | c in w'.idem.calls && Succeeded(w'.idem.calls[c])
      ensures Names(w', c, w'.idem.calls[c].phase.response)
    {
      if c in w.idem.calls {
        MiddlewareKeeps(w.idem, a, c);
      } else {
        MiddlewareNewCalls(w.idem, a, c);
      }
    }
  }

  lemma {:induction false} IdemStepKeepsLink(db: Db, w: World, a: I.Action, w': World)
    requires I.Inv(w.idem) && Link(db, w) && I.Enabled(w.idem, a)
    requires w'.idem == I.Apply(w.idem, a) && w'.sys == w.sys && CartsFollow(w, a, w')
    requires NewlyCaptured(w.idem, a).Some? && NewlyCaptured(w.idem, a).value.status == 201 ==>
      Names(w, a.call, NewlyCaptured(w.idem, a).value)
    ensures Link(db, w')
  {
    AsksStayMatched(w, a, w');
    forall c | c in w'.idem.calls && c in w'.sys.txs
      ensures w'.sys.txs[c].request.PlaceOrder?
    {
      if c !in w.idem.calls {
        MiddlewareNewCalls(w.idem, a, c);
      }
    }
    IdemStepKeepsHandlers(w, a, w');
    IdemStepKeepsSuccesses(w, a, w');
  }

  lemma {:induction false} NewOrdersAreTransactions(s: T.State, a: T.Action, k: OrderId)
    requires Inv(s) && T.Enabled(s, a) && k in T.Apply(s, a).db.orders && k !in s.db.orders
    ensures a == T.Advance(k) && s.txs[k].request.PlaceOrder?
  {
  }

  lemma {:induction false} RequestsStay(s: T.State, a: T.Action, t: T.TxId)
    requires T.Enabled(s, a)
    ensures t in s.txs ==> t in T.Apply(s, a).txs && T.Apply(s, a).txs[t].request == s.txs[t].request
    ensures t in T.Apply(s, a).txs && t !in s.txs ==>
      a.Begin? && a.tx == t && T.Apply(s, a).txs[t].request == a.request
  {
    if a.Advance? && a.tx == t && !s.txs[t].phase.Committing? && !s.txs[t].phase.RollingBack? {
      QuietStep(s, t);
    }
  }

  lemma {:induction false} DbStepKeepsSuccesses(w: World, a: T.Action, w': World)
    requires Inv(w.sys) && SuccessesCommitted(w) && T.Enabled(w.sys, a)
    requires w'.sys == T.Apply(w.sys, a) && w'.idem == w.idem
    ensures SuccessesCommitted(w')
  {
    StepKeepsOrders(w.sys, a);
    forall c | c in w.idem.calls && Succeeded(w.idem.calls[c])
      ensures Names(w', c, w.idem.calls[c].phase.response)
    {
      assert Names(w, c, w.idem.calls[c].phase.response);
      FinishedStays(w.sys, a, c);
    }
  }

  lemma {:induction false} DbStepKeepsHandlers(db: Db, w: World, a: T.Action, w': World)
    requires Inv(w.sys) && HandlersAdmitted(w) && OrdersHaveHandlers(db, w) && T.Enabled(w.sys, a)
    requires w'.sys == T.Apply(w.sys, a) && w'.idem == w.idem && w'.carts == w.carts && w'.lib == w.lib
    requires a.Begin? && a.request.PlaceOrder? ==>
      && a.tx in w.idem.calls && I.Admitted(w.idem.calls[a.tx])
      && a.tx in w.carts && a.request == OrderRequest(w.lib, w.carts[a.tx])
    ensures HandlersAdmitted(w') && OrdersHaveHandlers(db, w')
  {
    forall t | t in w'.sys.txs && w'.sys.txs[t].request.PlaceOrder?
      ensures RunsItsCart(w', t)
    {
      RequestsStay(w.sys, a, t);
      assert t in w.sys.txs ==> RunsItsCart(w, t);
    }
    forall k | k in w'.sys.db.orders
      ensures k in db.orders || (k in w'.sys.txs && w'.sys.txs[k].request.PlaceOrder?)
    {
      RequestsStay(w.sys, a, k);
      if k !in w.sys.db.orders {
        NewOrdersAreTransactions(w.sys, a, k);
      }
    }
  }

  lemma {:induction false} DbStepKeepsLink(db: Db, w: World, a: T.Action, w': World)
    requires Inv(w.sys) && Link(db, w) && T.Enabled(w.sys, a)
    requires w'.sys == T.Apply(w.sys, a) && w'.idem == w.idem && w'.carts == w.carts && w'.lib == w.lib
    requires a.Begin? && a.request.PlaceOrder? ==>
      && a.tx in w.idem.calls && I.Admitted(w.idem.calls[a.tx])
      && a.tx in w.carts && a.request == OrderRequest(w.lib, w.carts[a.tx])
    requires a.Begin? && !a.request.PlaceOrder? ==> a.tx !in w.idem.calls
    ensures Link(db, w')
  {
    StepKeepsPlaced(w.sys, a);
    forall c | c in w'.idem.calls && c in w'.sys.txs
      ensures w'.sys.txs[c].request.PlaceOrder?
    {
      RequestsStay(w.sys, a, c);
    }
    DbStepKeepsSuccesses(w, a, w');
    DbStepKeepsHandlers(db, w, a, w');
    forall c | c in w'.idem.calls
      ensures AskMatchesCart(w', c)
    {
      assert AskMatchesCart(w, c);
    }
  }

  lemma {:induction false} OutcomeNamesOrder(w: World, call: I.CallId)
    requires OrdersOfPlaced(w.sys) && HandlerDone(w, call)
    ensures var response := ResponseFor(call, w.sys.txs[call].phase.outcome);
      response.status != 0 && (response.status == 201 ==> Names(w, call, response))
  {
  }

  lemma {:induction false} StepKeepsWorld(db: Db, w: World, a: Action)
    requires WorldInv(db, w) && Enabled(w, a)
    ensures WorldInv(db, Apply(w, a))
  {
    match a
    case Arrive(call, cart, ip) => ArriveStep(db, w, call, cart, ip);
    case Middleware(step) => MiddlewareStep(db, w, step);
    case StartHandler(call) => StartStep(db, w, call);
    case Database(statement) => DbStep(db, w, statement, Apply(w, a));
    case RespondWithOutcome(call) => OutcomeStep(db, w, call);
    case RespondWithError(call, status, code) => SendStep(db, w, call, Response(status, ErrorBody(code)));
    case FinishResponse(call) => FinishStep(db, w, call);
  }

  lemma {:induction false} ArriveStep(db: Db, w: World, call: I.CallId, cart: Cart, ip: Option<string>)
    requires WorldInv(db, w) && Enabled(w, Arrive(call, cart, ip))
    ensures WorldInv(db, Apply(w, Arrive(call, cart, ip)))
  {
    IdemStep(db, w, I.Arrive(call, AskOf(w.lib, cart, ip)), Apply(w, Arrive(call, cart, ip)));
  }

  lemma {:induction false} MiddlewareStep(db: Db, w: World, step: I.Action)
    requires WorldInv(db, w) && Enabled(w, Middleware(step))
    ensures WorldInv(db, Apply(w, Middleware(step)))
  {
    IdemStep(db, w, step, Apply(w, Middleware(step)));
  }

  lemma {:induction false} OutcomeStep(db: Db, w: World, call: I.CallId)
    requires WorldInv(db, w) && Enabled(w, RespondWithOutcome(call))
    ensures WorldInv(db, Apply(w, RespondWithOutcome(call)))
  {
    var response := ResponseFor(call, w.sys.txs[call].phase.outcome);
    OutcomeNamesOrder(w, call);
    SendStep(db, w, call, response);
    assert Apply(w, RespondWithOutcome(call)) == w.(idem := Send(w.idem, call, response));
  }

  lemma {:induction false} FinishStep(db: Db, w: World, call: I.CallId)
    requires WorldInv(db, w) && Enabled(w, FinishResponse(call))
    ensures WorldInv(db, Apply(w, FinishResponse(call)))
  {
    IdemStep(db, w, I.Emit(call, Finish), Apply(w, FinishResponse(call)));
  }

  lemma {:induction false} StartStep(db: Db, w: World, call: I.CallId)
    requires WorldInv(db, w) && Enabled(w, StartHandler(call))
    ensures WorldInv(db, Apply(w, StartHandler(call)))
  {
    DbStep(db, w, T.Begin(call, OrderRequest(w.lib, w.carts[call])), Apply(w, StartHandler(call)));
  }

  /** Only the first response of a call can be recorded, and one of 201 must name the committed order. */
  lemma {:induction false} SendStep(db: Db, w: World, call: I.CallId, response: Response)
    requires WorldInv(db, w) && MayRespond(w, call) && response.status != 0
    requires response.status == 201 ==> Names(w, call, response)
    ensures WorldInv(db, w.(idem := Send(w.idem, call, response)))
  {
    var status, json := I.Emit(call, SetStatus(response.status)), I.Emit(call, SendJson(response.body));
    var between := w.(idem := I.Apply(w.idem, status));
    IdemStep(db, w, status, between);
    IdemStep(db, between, json, w.(idem := Send(w.idem, call, response)));
  }

  lemma {:induction false} IdemStep(db: Db, w: World, a: I.Action, w': World)
    requires WorldInv(db, w) && I.Enabled(w.idem, a)
    requires w'.idem == I.Apply(w.idem, a) && w'.sys == w.sys && CartsFollow(w, a, w')
    requires NewlyCaptured(w.idem, a).Some? && NewlyCaptured(w.idem, a).value.status == 201 ==>
      Names(w, a.call, NewlyCaptured(w.idem, a).value)
    ensures WorldInv(db, w')
  {
    I.StepKeepsInv(w.idem, a);
    IdemStepKeepsLink(db, w, a, w');
  }

  lemma {:induction false} DbStep(db: Db, w: World, a: T.Action, w': World)
    requires WorldInv(db, w) && T.Enabled(w.sys, a)
    requires w'.sys == T.Apply(w.sys, a) && w'.idem == w.idem && w'.carts == w.carts && w'.lib == w.lib
    requires a.Begin? && a.request.PlaceOrder? ==>
      && a.tx in w.idem.calls && I.Admitted(w.idem.calls[a.tx])
      && a.tx in w.carts && a.request == OrderRequest(w.lib, w.carts[a.tx])
    requires a.Begin? && !a.request.PlaceOrder? ==> a.tx !in w.idem.calls
    ensures WorldInv(db, w')
  {
    StepKeepsInv(w.sys, a);
    StepKeepsSerialized(db, w.sys, a);
    DbStepKeepsLink(db, w, a, w');
  }

  /** Over any run the transactions stay serializable, the idempotency rows consistent, and the two linked. */
  lemma {:induction false} EveryRunKeepsWorld(db: Db, codec: Codec, lib: Library, clock: int, actions: seq<Action>)
    requires WellFormed(db) && Lawful(codec) && Admissible(Initial(db, codec, lib, clock), actions)
    ensures WorldInv(db, Execute(Initial(db, codec, lib, clock), actions))
    ensures Execute(Initial(db, codec, lib, clock), actions).lib == lib
    decreases |actions|
  {
    if actions == [] {
      InitialWorld(db, codec, lib, clock);
    } else {
      var front := actions[..|actions| - 1];
      EveryRunKeepsWorld(db, codec, lib, clock, front);
      StepKeepsWorld(db, Execute(Initial(db, codec, lib, clock), front), actions[|actions| - 1]);
    }
  }

  // ---- At most once, end to end

  /** `k` is an order transaction run by a call with the given key. */
  predicate RunsUnder(w: World, k: T.TxId, slot: I.Slot) {
    k in w.sys.txs && w.sys.txs[k].request.PlaceOrder? && k in w.idem.calls && w.idem.calls[k].ask.slot == slot
  }

  /** Every order committed by the run was placed under some key. */
  ghost predicate OrdersHaveKeys(db: Db, w: World) {
    forall k :: k in w.sys.db.orders && k !in db.orders ==>
      k in w.idem.calls && RunsUnder(w, k, w.idem.calls[k].ask.slot)
  }

  /** No two order transactions, hence no two orders and no two deductions of stock, share a key. */
  ghost predicate OneTransactionPerKey(w: World) {
    forall k, j, slot :: RunsUnder(w, k, slot) && RunsUnder(w, j, slot) ==> k == j
  }

  /** At most once: over every interleaving of requests and retries, the requests that share a key run at most one order
      transaction, and every committed order has its key. `EveryRunKeepsWorld` says that the tables are those of running
      each transaction once. */
  lemma {:induction false} AtMostOneOrderPerKey(db: Db, codec: Codec, lib: Library, clock: int, actions: seq<Action>)
    requires WellFormed(db) && Lawful(codec) && Admissible(Initial(db, codec, lib, clock), actions)
    ensures OrdersHaveKeys(db, Execute(Initial(db, codec, lib, clock), actions))
    ensures OneTransactionPerKey(Execute(Initial(db, codec, lib, clock), actions))
  {
    EveryRunKeepsWorld(db, codec, lib, clock, actions);
    OneAdmissionOneTransaction(db, Execute(Initial(db, codec, lib, clock), actions));
  }

  lemma {:induction false} OneAdmissionOneTransaction(db: Db, w: World)
    requires I.Inv(w.idem) && Link(db, w)
    ensures OrdersHaveKeys(db, w) && OneTransactionPerKey(w)
  {
    forall k | k in w.sys.db.orders && k !in db.orders
      ensures k in w.idem.calls && RunsUnder(w, k, w.idem.calls[k].ask.slot)
    {
      assert RunsItsCart(w, k);
    }
    forall k, j, slot | RunsUnder(w, k, slot) && RunsUnder(w, j, slot)
      ensures k == j
    {
      assert RunsItsCart(w, k) && RunsItsCart(w, j);
      I.SameSlotSameCall(w.idem, k, j);
    }
  }

  // ---- Every success is the caller's own order

  /** The response a call got, first hand or replayed. */
  function ResponseOf(c: I.Call): Option<Response> {
    if I.HasResponse(c.phase) then Some(c.phase.response)
    else if c.phase.Answered? && c.phase.resolution.Replay? then Some(c.phase.resolution.response)
    else None
  }

  /** The order is the user's and has one item per product of the normalized lines, with its quantity. */
  predicate IsOrderOf(order: Order, userId: UserId, items: seq<Line>) {
    && order.userId == userId
    && |order.items| == |Normalized(items)|
    && forall i :: 0 <= i < |order.items| ==>
         Line(order.items[i].productId, order.items[i].quantity) == Normalized(items)[i]
  }

  lemma {:induction false} SameSlotSameUser(u: UserId, v: UserId)
    requires "user:" + u == "user:" + v
    ensures u == v
  {
    assert ("user:" + u)[|"user:"|..] == u;
    assert ("user:" + v)[|"user:"|..] == v;
  }

  /** Calls with the same slot and the same hash are for the same user, key and body. */
  lemma {:induction false} SameAskSameCart(w: World, c: I.CallId, d: I.CallId)
    requires Injective(w.lib) && AsksMatchCarts(w) && c in w.idem.calls && d in w.idem.calls
    requires w.idem.calls[c].ask.slot == w.idem.calls[d].ask.slot
    requires w.idem.calls[c].ask.requestHash == w.idem.calls[d].ask.requestHash
    ensures c in w.carts && d in w.carts && w.carts[c] == w.carts[d]
  {
    assert AskMatchesCart(w, c) && AskMatchesCart(w, d);
    SameSlotSameUser(w.carts[c].userId, w.carts[d].userId);
  }

  lemma {:induction false} AtomicOrderIsRequested(db: Db, k: T.TxId, request: Request, order: Order)
    requires Atomic(db, k, request).1 == Placed(order)
    ensures request.PlaceOrder? && IsOrderOf(order, request.userId, request.items)
  {
  }

  /** The committed order of a transaction is that of its request. */
  lemma {:induction false} PlacedOrderIsRequested(db: Db, s: T.State, k: T.TxId, order: Order)
    requires Serialized(db, s) && k in s.txs && s.txs[k].phase == T.Finished(Placed(order))
    ensures s.txs[k].request.PlaceOrder? && IsOrderOf(order, s.txs[k].request.userId, s.txs[k].request.items)
  {
    var entry := T.Entry(k, s.txs[k].request, Placed(order));
    assert entry in s.log;
    var i :| 0 <= i < |s.log| && s.log[i] == entry;
    AtomicOrderIsRequested(Replay(db, s.log[..i]), k, entry.request, order);
  }

  /** Every 201 returned, first hand or replayed, names the one committed order of its key; that order is the caller's
      own, for the normalized items of the caller's own request. */
  lemma {:induction false} EverySuccessNamesTheOrder(
      db: Db, codec: Codec, lib: Library, clock: int, actions: seq<Action>, c: I.CallId) returns (k: OrderId)
    requires WellFormed(db) && Lawful(codec) && Injective(lib)
    requires Admissible(Initial(db, codec, lib, clock), actions)
    requires var w := Execute(Initial(db, codec, lib, clock), actions);
      c in w.idem.calls && ResponseOf(w.idem.calls[c]).Some? && ResponseOf(w.idem.calls[c]).value.status == 201
    ensures var w := Execute(Initial(db, codec, lib, clock), actions);
      && k in w.sys.db.orders && k in w.idem.calls
      && w.idem.calls[k].ask.slot == w.idem.calls[c].ask.slot
      && ResponseOf(w.idem.calls[c]).value.body == OrderCreated(k, w.sys.db.orders[k])
      && c in w.carts && IsOrderOf(w.sys.db.orders[k], w.carts[c].userId, lib.items(w.carts[c].body))
  {
    EveryRunKeepsWorld(db, codec, lib, clock, actions);
    k := SuccessOwner(db, Execute(Initial(db, codec, lib, clock), actions), c);
  }

  lemma {:induction false} SuccessOwner(db: Db, w: World, c: I.CallId) returns (k: OrderId)
    requires WorldInv(db, w) && Injective(w.lib)
    requires c in w.idem.calls && ResponseOf(w.idem.calls[c]).Some? && ResponseOf(w.idem.calls[c]).value.status == 201
    ensures k in w.sys.db.orders && k in w.idem.calls
    ensures w.idem.calls[k].ask.slot == w.idem.calls[c].ask.slot
    ensures ResponseOf(w.idem.calls[c]).value.body == OrderCreated(k, w.sys.db.orders[k])
    ensures c in w.carts && IsOrderOf(w.sys.db.orders[k], w.carts[c].userId, w.lib.items(w.carts[c].body))
  {
    if I.HasResponse(w.idem.calls[c].phase) {
      k := c;
    } else {
      k := I.ReplayOwner(w.idem, c);
    }
    SameAskSameCart(w, k, c);
    assert Names(w, k, w.idem.calls[k].phase.response);
    PlacedOrderIsRequested(db, w.sys, k, w.sys.db.orders[k]);
    assert RunsItsCart(w, k);
  }

  // ---- Every outcome gets its answer

  /** The response a client gets for what its transaction did. */
  predicate IsAnswerTo(c: I.CallId, outcome: Outcome, r: Response) {
    match outcome
    case Placed(order) => r == Response(201, OrderCreated(c, order))
    case Failed(e) =>
      (match e
       case ProductNotFound(_) => r == Response(404, ErrorBody("PRODUCT_NOT_FOUND"))
       case InsufficientStock(_, _, _, _) => r == Response(409, ErrorBody("INSUFFICIENT_STOCK"))
       case _ => r == Response(500, ErrorBody("ORDER_CREATE_FAILED")))
    case _ => false
  }

  /** An order transaction is placed or fails, and never for STOCK_UPDATE_FAILED. */
  lemma {:induction false} OrderOutcomes(db: Db, s: T.State, t: T.TxId)
    requires Serialized(db, s) && t in s.txs && s.txs[t].phase.Finished? && s.txs[t].request.PlaceOrder?
    ensures s.txs[t].phase.outcome.Placed?
      || (s.txs[t].phase.outcome.Failed? && !s.txs[t].phase.outcome.error.StockUpdateFailed?)
  {
    var outcome := s.txs[t].phase.outcome;
    if outcome.Failed? && outcome.error.StockUpdateFailed? {
      NotFailedForStock(db, s, t, outcome.error.id);
    }
    if outcome != Failed(DatabaseFailure) {
      var entry := T.Entry(t, s.txs[t].request, outcome);
      assert entry in s.log;
      var i :| 0 <= i < |s.log| && s.log[i] == entry;
      OrderRunWhole(Replay(db, s.log[..i]), t, entry.request);
    }
  }

  lemma {:induction false} OrderRunWhole(db: Db, t: T.TxId, request: Request)
    requires request.PlaceOrder?
    ensures Atomic(db, t, request).1.Placed? || Atomic(db, t, request).1.Failed?
  {
  }

  lemma {:induction false} ResponseForAnswers(c: I.CallId, outcome: Outcome)
    requires outcome.Placed? || (outcome.Failed? && !outcome.error.StockUpdateFailed?)
    ensures IsAnswerTo(c, outcome, ResponseFor(c, outcome))
  {
  }

  /** The first response sent is the one that is recorded. */
  lemma {:induction false} FirstSendIsCaptured(s: I.State, c: I.CallId, response: Response)
    requires c in s.calls && s.calls[c].phase.Handling? && I.WrapInv(s.calls[c]) && response.status != 0
    ensures c in Send(s, c, response).calls && Send(s, c, response).calls[c].phase == I.Captured(response)
  {
  }

  /** `c` got `r` as its first response, for a transaction that finished with `outcome`. */
  predicate Answered(w: World, c: I.CallId, outcome: Outcome, r: Response) {
    && c in w.idem.calls && I.HasResponse(w.idem.calls[c].phase) && w.idem.calls[c].phase.response == r
    && c in w.sys.txs && w.sys.txs[c].phase == T.Finished(outcome)
  }

  lemma {:induction false} AnsweredStays(w: World, a: Action, c: I.CallId, outcome: Outcome, r: Response)
    requires I.Inv(w.idem) && Enabled(w, a) && Answered(w, c, outcome, r)
    ensures Answered(Apply(w, a), c, outcome, r)
  {
    match a
    case Arrive(call, cart, ip) => MiddlewareKeeps(w.idem, I.Arrive(call, AskOf(w.lib, cart, ip)), c);
    case Middleware(step) => MiddlewareKeeps(w.idem, step, c);
    case StartHandler(call) =>
    case Database(statement) => FinishedStays(w.sys, statement, c);
    case RespondWithOutcome(call) => SendKeeps(w.idem, call, ResponseFor(call, w.sys.txs[call].phase.outcome), c);
    case RespondWithError(call, status, code) => SendKeeps(w.idem, call, Response(status, ErrorBody(code)), c);
    case FinishResponse(call) => MiddlewareKeeps(w.idem, I.Emit(call, Finish), c);
  }

  lemma {:induction false} SendKeeps(s: I.State, call: I.CallId, response: Response, c: I.CallId)
    requires I.Inv(s) && call in s.calls && I.Admitted(s.calls[call])
    requires c in s.calls && I.HasResponse(s.calls[c].phase)
    ensures var s' := Send(s, call, response);
      c in s'.calls && I.HasResponse(s'.calls[c].phase) && s'.calls[c].phase.response == s.calls[c].phase.response
  {
    var status := I.Emit(call, SetStatus(response.status));
    MiddlewareKeeps(s, status, c);
    I.StepKeepsInv(s, status);
    MiddlewareKeeps(I.Apply(s, status), I.Emit(call, SendJson(response.body)), c);
  }

  lemma {:induction false} HandlerRequest(db: Db, w: World, c: I.CallId)
    requires WorldInv(db, w) && c in w.idem.calls && c in w.sys.txs
    ensures w.sys.txs[c].request.PlaceOrder?
  {
  }

  lemma {:induction false} HandlerFacts(db: Db, w: World, c: I.CallId, outcome: Outcome)
    requires WorldInv(db, w) && c in w.idem.calls && c in w.sys.txs && w.sys.txs[c].phase == T.Finished(outcome)
    ensures I.WrapInv(w.idem.calls[c]) && IsAnswerTo(c, outcome, ResponseFor(c, outcome))
  {
    HandlerRequest(db, w, c);
    OrderOutcomes(db, w.sys, c);
    ResponseForAnswers(c, outcome);
  }

  lemma {:induction false} SendAnswers(w: World, c: I.CallId, outcome: Outcome, r: Response)
    requires c in w.idem.calls && w.idem.calls[c].phase.Handling? && I.WrapInv(w.idem.calls[c])
    requires c in w.sys.txs && w.sys.txs[c].phase == T.Finished(outcome) && r.status != 0
    ensures Answered(w.(idem := Send(w.idem, c, r)), c, outcome, r)
  {
    FirstSendIsCaptured(w.idem, c, r);
  }

  /** The outcome of a transaction, sent as a first response, is recorded as its answer. */
  lemma {:induction false} OutcomeAnswers(db: Db, w: World, c: I.CallId, outcome: Outcome) returns (r: Response)
    requires c in w.idem.calls && w.idem.calls[c].phase.Handling?
    requires c in w.sys.txs && w.sys.txs[c].phase == T.Finished(outcome)
    requires WorldInv(db, w)
    ensures Answered(w.(idem := Send(w.idem, c, ResponseFor(c, outcome))), c, outcome, r) && IsAnswerTo(c, outcome, r)
  {
    r := ResponseFor(c, outcome);
    HandlerFacts(db, w, c, outcome);
    SendAnswers(w, c, outcome, r);
  }
}
