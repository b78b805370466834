/** POST /api/orders over whole runs: what each outcome is answered with, and that every order can get its answer. */
module CheckoutRuns {
  import opened Options
  import opened OrderLines
  import opened Catalogue
  import opened ServiceResults
  import opened Responses
  import opened ResponseCapture
  import I = Idempotency
  import T = Transactions
  import P = Progress
  import L = LogPromises
  import opened TransactionInvariant
  import opened Serializability
  import opened StockHistory
  import opened Checkout

  // ---- Every outcome is answered

  lemma {:induction false} PrefixAnswered(
      w0: World, db: Db, actions: seq<Action>, n: nat, c: I.CallId, outcome: Outcome, r: Response)
    requires Admissible(w0, actions) && n <= |actions| && Admissible(w0, actions[..n])
    requires WorldInv(db, w0) && Answered(Execute(w0, actions[..n]), c, outcome, r)
    ensures Answered(Execute(w0, actions), c, outcome, r)
    decreases |actions|
  {
    if n == |actions| {
      assert actions[..n] == actions;
    } else {
      var front := actions[..|actions| - 1];
      assert front[..n] == actions[..n];
      PrefixAnswered(w0, db, front, n, c, outcome, r);
      RunKeepsWorld(w0, db, front);
      AnsweredStays(Execute(w0, front), actions[|actions| - 1], c, outcome, r);
    }
  }

  lemma {:induction false} RunKeepsWorld(w0: World, db: Db, actions: seq<Action>)
    requires WorldInv(db, w0) && Admissible(w0, actions)
    ensures WorldInv(db, Execute(w0, actions))
    decreases |actions|
  {
    if actions == [] {
    } else {
      RunKeepsWorld(w0, db, actions[..|actions| - 1]);
      StepKeepsWorld(db, Execute(w0, actions[..|actions| - 1]), actions[|actions| - 1]);
    }
  }

  /** When a handler sends the outcome of its transaction as its first response, that response is recorded for good: 201
      with the committed order, 404, 409 or 500 with the code of the failure. */
  lemma {:induction false} EveryOutcomeIsAnswered(
      db: Db, codec: Codec, lib: Library, clock: int, actions: seq<Action>, n: nat, c: I.CallId)
    returns (outcome: Outcome)
    requires WellFormed(db) && Lawful(codec) && Admissible(Initial(db, codec, lib, clock), actions)
    requires n < |actions| && actions[n] == RespondWithOutcome(c)
    requires Admissible(Initial(db, codec, lib, clock), actions[..n])
    requires var w := Execute(Initial(db, codec, lib, clock), actions[..n]);
      c in w.idem.calls && w.idem.calls[c].phase.Handling?
    ensures exists r ::
      Answered(Execute(Initial(db, codec, lib, clock), actions), c, outcome, r) && IsAnswerTo(c, outcome, r)
  {
    var w0 := Initial(db, codec, lib, clock);
    InitialWorld(db, codec, lib, clock);
    PrefixIsAdmissible(w0, actions, n + 1);
    assert actions[..n + 1][..n] == actions[..n];
    var w := Execute(w0, actions[..n]);
    RunKeepsWorld(w0, db, actions[..n]);
    outcome := w.sys.txs[c].phase.outcome;
    var r := OutcomeAnswers(db, w, c, outcome);
    PrefixAnswered(w0, db, actions, n + 1, c, outcome, r);
  }

  lemma {:induction false} PrefixIsAdmissible(w0: World, actions: seq<Action>, n: nat)
    requires Admissible(w0, actions) && n <= |actions|
    ensures Admissible(w0, actions[..n])
    decreases |actions|
  {
    if n == |actions| {
      assert actions[..n] == actions;
    } else {
      PrefixIsAdmissible(w0, actions[..|actions| - 1], n);
      assert actions[..|actions| - 1][..n] == actions[..n];
    }
  }

  // ---- Every order can get its answer, and its retry the same one

  lemma {:induction false} OneMore(w0: World, actions: seq<Action>, a: Action)
    requires Admissible(w0, actions) && Enabled(Execute(w0, actions), a)
    ensures Admissible(w0, actions + [a]) && Execute(w0, actions + [a]) == Apply(Execute(w0, actions), a)
  {
    assert (actions + [a])[..|actions|] == actions;
  }

  /** The admitted call is the only one. */
  ghost predicate OnlyCall(w: World, c: I.CallId, cart: Cart, ask: I.Ask, phase: I.Phase, status: I.Status) {
    && w.idem.calls.Keys == {c} && w.carts.Keys == {c} && w.carts[c] == cart && w.sys.txs.Keys <= {c}
    && w.idem.calls[c].ask == ask && w.idem.calls[c].phase == phase && w.idem.calls[c].since <= w.idem.clock
    && ask.slot in w.idem.table
    && w.idem.table[ask.slot].id == c && w.idem.table[ask.slot].requestHash == ask.requestHash
    && w.idem.table[ask.slot].status == status && w.idem.table[ask.slot].expiresAt == w.idem.clock + I.TTL
  }

  lemma {:induction false} Admission(
      db: Db, codec: Codec, lib: Library, clock: int, c: I.CallId, cart: Cart, ip: Option<string>)
    returns (actions: seq<Action>)
    requires cart.userId != "" && 8 <= |cart.key| <= 255 && c !in db.orders
    ensures Admissible(Initial(db, codec, lib, clock), actions)
    ensures var w := Execute(Initial(db, codec, lib, clock), actions);
      && OnlyCall(w, c, cart, AskOf(lib, cart, ip), I.Handling, I.Processing)
      && w.sys == T.Initial(db) && w.lib == lib && w.idem.codec == codec && w.idem.clock == clock
  {
    var w0 := Initial(db, codec, lib, clock);
    var a1, a2, a3 := Arrive(c, cart, ip), Middleware(I.Find(c, clock, AsText)), Middleware(I.Insert(c, clock));
    assert Admissible(w0, []);
    OneMore(w0, [], a1);
    OneMore(w0, [] + [a1], a2);
    OneMore(w0, [] + [a1] + [a2], a3);
    actions := [] + [a1] + [a2] + [a3];
  }

  /** Runs the transaction of the only handler to its end. */
  lemma {:induction false} HandlerToEnd(
      w0: World, db: Db, actions: seq<Action>, c: T.TxId) returns (longer: seq<Action>)
    requires WorldInv(db, w0) && Admissible(w0, actions) && L.Alone(Execute(w0, actions).sys, c)
    ensures Admissible(w0, longer)
    ensures var w, w' := Execute(w0, actions), Execute(w0, longer);
      && w'.idem == w.idem && w'.carts == w.carts && w'.lib == w.lib && w'.sys.txs.Keys == w.sys.txs.Keys
      && L.JustLogged(w.sys, w'.sys, c) && w'.sys.txs[c].request == w.sys.txs[c].request
    decreases P.Rank(Execute(w0, actions).sys.txs[c])
  {
    var s := Execute(w0, actions).sys;
    RunKeepsWorld(w0, db, actions);
    L.StepAlone(s, c);
    OneMore(w0, actions, Database(T.Advance(c)));
    longer := actions + [Database(T.Advance(c))];
    var s' := Execute(w0, longer).sys;
    P.AdvanceLowersRank(s, c);
    L.KeysStay(s, c);
    if !s'.txs[c].phase.Finished? {
      RunKeepsWorld(w0, db, longer);
      P.RankIsBound(s'.txs[c]);
      longer := HandlerToEnd(w0, db, longer, c);
    }
  }

  /** The tables and the outcome after `c` alone ran its request. */
  ghost predicate RanAlone(db: Db, w: World, c: I.CallId, request: Request, outcome: Outcome) {
    && c in w.sys.txs && w.sys.txs[c].phase == T.Finished(outcome)
    && (w.sys.db, outcome) == Atomic(db, c, request)
  }

  lemma {:induction false} Handler(
      db: Db, codec: Codec, lib: Library, clock: int, c: I.CallId, cart: Cart, ip: Option<string>)
    returns (actions: seq<Action>, outcome: Outcome)
    requires WellFormed(db) && Lawful(codec)
    requires cart.userId != "" && 8 <= |cart.key| <= 255 && c !in db.orders && ValidItems(lib.items(cart.body))
    ensures Admissible(Initial(db, codec, lib, clock), actions)
    ensures var w := Execute(Initial(db, codec, lib, clock), actions);
      && OnlyCall(w, c, cart, AskOf(lib, cart, ip), I.Handling, I.Processing)
      && RanAlone(db, w, c, OrderRequest(lib, cart), outcome)
      && w.lib == lib && w.idem.codec == codec && w.idem.clock == clock
  {
    var w0 := Initial(db, codec, lib, clock);
    InitialWorld(db, codec, lib, clock);
    var admitted := Admission(db, codec, lib, clock, c, cart, ip);
    OneMore(w0, admitted, StartHandler(c));
    var started := admitted + [StartHandler(c)];
    actions := HandlerToEnd(w0, db, started, c);
    RunKeepsWorld(w0, db, actions);
    var s := Execute(w0, actions).sys;
    outcome := s.txs[c].phase.outcome;
    OneEntry(db, s, T.Entry(c, OrderRequest(lib, cart), outcome));
  }

  lemma {:induction false} OneEntry(db: Db, s: T.State, entry: T.Entry)
    requires Serialized(db, s) && s.log == [entry]
    ensures (s.db, entry.outcome) == Atomic(db, entry.tx, entry.request)
  {
    assert s.log[..0] == [] && s.log[0] == entry;
  }

  lemma {:induction false} SendOnly(w: World, c: I.CallId, cart: Cart, ask: I.Ask, r: Response)
    requires OnlyCall(w, c, cart, ask, I.Handling, I.Processing) && I.WrapInv(w.idem.calls[c]) && r.status != 0
    ensures OnlyCall(w.(idem := Send(w.idem, c, r)), c, cart, ask, I.Captured(r), I.Processing)
  {
    FirstSendIsCaptured(w.idem, c, r);
  }

  lemma {:induction false} PersistOnly(w: World, c: I.CallId, cart: Cart, ask: I.Ask, r: Response)
    requires OnlyCall(w, c, cart, ask, I.Captured(r), I.Processing)
    ensures Enabled(w, Middleware(I.Persist(c)))
    ensures OnlyCall(Apply(w, Middleware(I.Persist(c))), c, cart, ask, I.Stored(r), I.Completed(r))
  {
  }

  /** The only call stands at `phase`, its row at `status`, and its transaction ran alone. */
  ghost predicate Stage(
      db: Db, w: World, c: I.CallId, cart: Cart, ip: Option<string>, outcome: Outcome, phase: I.Phase, status: I.Status)
  {
    && OnlyCall(w, c, cart, AskOf(w.lib, cart, ip), phase, status)
    && RanAlone(db, w, c, OrderRequest(w.lib, cart), outcome)
  }

  ghost predicate SameSetting(w: World, w': World) {
    w'.lib == w.lib && w'.idem.codec == w.idem.codec && w'.idem.clock == w.idem.clock && w'.sys == w.sys
  }

  /** The handler answers with what its transaction did. */
  lemma {:induction false} HandlerSends(
      db: Db, w: World, c: I.CallId, cart: Cart, ip: Option<string>, outcome: Outcome, r: Response)
    requires Stage(db, w, c, cart, ip, outcome, I.Handling, I.Processing) && I.WrapInv(w.idem.calls[c])
    requires r == ResponseFor(c, outcome) && r.status != 0
    ensures Enabled(w, RespondWithOutcome(c))
    ensures Stage(db, Apply(w, RespondWithOutcome(c)), c, cart, ip, outcome, I.Captured(r), I.Processing)
    ensures SameSetting(w, Apply(w, RespondWithOutcome(c)))
  {
    SendOnly(w, c, cart, AskOf(w.lib, cart, ip), r);
  }

  lemma {:induction false} PersistStage(
      db: Db, w: World, c: I.CallId, cart: Cart, ip: Option<string>, outcome: Outcome, r: Response)
    requires Stage(db, w, c, cart, ip, outcome, I.Captured(r), I.Processing)
    ensures Enabled(w, Middleware(I.Persist(c)))
    ensures Stage(db, Apply(w, Middleware(I.Persist(c))), c, cart, ip, outcome, I.Stored(r), I.Completed(r))
    ensures SameSetting(w, Apply(w, Middleware(I.Persist(c))))
  {
    PersistOnly(w, c, cart, AskOf(w.lib, cart, ip), r);
  }

  lemma {:induction false} SendAndPersist(
      w0: World, db: Db, handled: seq<Action>, c: I.CallId, cart: Cart, ip: Option<string>, outcome: Outcome,
      r: Response)
    returns (actions: seq<Action>)
    requires Admissible(w0, handled) && r == ResponseFor(c, outcome) && r.status != 0
    requires Stage(db, Execute(w0, handled), c, cart, ip, outcome, I.Handling, I.Processing)
    requires I.WrapInv(Execute(w0, handled).idem.calls[c])
    ensures Admissible(w0, actions)
    ensures Stage(db, Execute(w0, actions), c, cart, ip, outcome, I.Stored(r), I.Completed(r))
    ensures SameSetting(Execute(w0, handled), Execute(w0, actions))
  {
    var w := Execute(w0, handled);
    HandlerSends(db, w, c, cart, ip, outcome, r);
    OneMore(w0, handled, RespondWithOutcome(c));
    var sent := handled + [RespondWithOutcome(c)];
    PersistStage(db, Apply(w, RespondWithOutcome(c)), c, cart, ip, outcome, r);
    OneMore(w0, sent, Middleware(I.Persist(c)));
    actions := sent + [Middleware(I.Persist(c))];
  }

  /** The answer is sent, and then stored. */
  lemma {:induction false} Recording(
      w0: World, db: Db, handled: seq<Action>, c: I.CallId, cart: Cart, ip: Option<string>, outcome: Outcome)
    returns (actions: seq<Action>, r: Response)
    requires WorldInv(db, w0) && Admissible(w0, handled)
    requires Stage(db, Execute(w0, handled), c, cart, ip, outcome, I.Handling, I.Processing)
    ensures IsAnswerTo(c, outcome, r) && Admissible(w0, actions)
    ensures Stage(db, Execute(w0, actions), c, cart, ip, outcome, I.Stored(r), I.Completed(r))
    ensures SameSetting(Execute(w0, handled), Execute(w0, actions))
  {
    RunKeepsWorld(w0, db, handled);
    r := ResponseFor(c, outcome);
    HandlerFacts(db, Execute(w0, handled), c, outcome);
    actions := SendAndPersist(w0, db, handled, c, cart, ip, outcome, r);
  }

  /** The retry, within 24 hours, is served from the record. */
  lemma {:induction false} RetryOnly(
      w: World, c: I.CallId, cart: Cart, ask: I.Ask, r: Response, d: I.CallId, ip: Option<string>, later: int,
      form: Form)
    requires OnlyCall(w, c, cart, ask, I.Stored(r), I.Completed(r)) && ask == AskOf(w.lib, cart, ip)
    requires Lawful(w.idem.codec) && cart.userId != "" && 8 <= |cart.key| <= 255
    requires d != c && d !in w.sys.txs && d !in w.sys.db.orders && w.idem.clock <= later < w.idem.clock + I.TTL
    ensures var tick, arrive := Middleware(I.Tick(later)), Arrive(d, cart, ip);
      var find := Middleware(I.Find(d, later, form));
      && Enabled(w, tick) && Enabled(Apply(w, tick), arrive) && Enabled(Apply(Apply(w, tick), arrive), find)
      && var w' := Apply(Apply(Apply(w, tick), arrive), find);
      && w'.sys == w.sys && d in w'.idem.calls && w'.idem.calls[d].phase == I.Answered(I.Replay(r))
      && c in w'.idem.calls && w'.idem.calls[c].phase == I.Stored(r)
  {
    var tick, arrive := Middleware(I.Tick(later)), Arrive(d, cart, ip);
    var w2 := Apply(Apply(w, tick), arrive);
    assert w2.idem.codec.parse(w2.idem.codec.stringify(r.body)) == r.body;
  }

  /** What the order of a cart is answered with when nothing else happens: with the order and 201 if all products are
      available and the total fits its column, and then the stock is taken. If not, nothing has changed, and the answer
      is 404 or 409, as the first unavailable product is missing or short, or else 500. */
  ghost predicate IsAnswerOnTables(db: Db, db': Db, c: OrderId, userId: UserId, items: seq<Line>, r: Response) {
    if !AllAvailable(db.products, items) then
      && db' == db
      && exists id :: FirstUnavailable(db.products, items, id)
           && r == if Live(db.products, id) then Response(409, ErrorBody("INSUFFICIENT_STOCK"))
                   else Response(404, ErrorBody("PRODUCT_NOT_FOUND"))
    else if Worth(db.products, items) <= 9999999999 then
      && c in db'.orders && r == Response(201, OrderCreated(c, db'.orders[c]))
      && RecordsOrder(db, db'.orders[c], userId, items) && TakesStock(db, db', items)
    else
      db' == db && r == Response(500, ErrorBody("ORDER_CREATE_FAILED"))
  }

  lemma {:induction false} AnswerOnTables(db: Db, db': Db, c: OrderId, request: Request, outcome: Outcome, r: Response)
    requires request.PlaceOrder? && |request.items| <= 450000
    requires (db', outcome) == Atomic(db, c, request) && IsAnswerTo(c, outcome, r)
    ensures IsAnswerOnTables(db, db', c, request.userId, request.items, r)
  {
    OrderMeetsItsResult(db, c, request.userId, request.items);
  }

  lemma {:induction false} FirstAnswer(
      db: Db, codec: Codec, lib: Library, clock: int, c: I.CallId, cart: Cart, ip: Option<string>)
    returns (stored: seq<Action>, r: Response)
    requires WellFormed(db) && Lawful(codec) && c !in db.orders
    requires cart.userId != "" && 8 <= |cart.key| <= 255
    requires ValidItems(lib.items(cart.body)) && |lib.items(cart.body)| <= 450000
    ensures Admissible(Initial(db, codec, lib, clock), stored)
    ensures var w := Execute(Initial(db, codec, lib, clock), stored);
      && OnlyCall(w, c, cart, AskOf(lib, cart, ip), I.Stored(r), I.Completed(r))
      && IsAnswerOnTables(db, w.sys.db, c, cart.userId, lib.items(cart.body), r)
      && w.lib == lib && w.idem.codec == codec && w.idem.clock == clock
  {
    var w0 := Initial(db, codec, lib, clock);
    InitialWorld(db, codec, lib, clock);
    var handled, outcome := Handler(db, codec, lib, clock, c, cart, ip);
    stored, r := Recording(w0, db, handled, c, cart, ip, outcome);
    AnswerOnTables(db, Execute(w0, stored).sys.db, c, OrderRequest(lib, cart), outcome, r);
  }

  /** For every database and every valid order there is a run in which the order is answered as it should be, and its
      retry at any time within 24 hours is answered with exactly the same response. */
  lemma {:induction false} EveryOrderCanBeAnsweredTwice(
      db: Db, codec: Codec, lib: Library, clock: int, c: I.CallId, d: I.CallId, cart: Cart, ip: Option<string>,
      later: int, form: Form)
    returns (actions: seq<Action>, r: Response)
    requires WellFormed(db) && Lawful(codec) && c != d && c !in db.orders && d !in db.orders
    requires cart.userId != "" && 8 <= |cart.key| <= 255
    requires ValidItems(lib.items(cart.body)) && |lib.items(cart.body)| <= 450000
    requires clock <= later < clock + 86400000
    ensures Admissible(Initial(db, codec, lib, clock), actions)
    ensures var w := Execute(Initial(db, codec, lib, clock), actions);
      && c in w.idem.calls && w.idem.calls[c].phase == I.Stored(r)
      && d in w.idem.calls && w.idem.calls[d].phase == I.Answered(I.Replay(r))
      && IsAnswerOnTables(db, w.sys.db, c, cart.userId, lib.items(cart.body), r)
  {
    var w0 := Initial(db, codec, lib, clock);
    InitialWorld(db, codec, lib, clock);
    var stored: seq<Action>;
    stored, r := FirstAnswer(db, codec, lib, clock, c, cart, ip);
    actions := Retrying(w0, db, stored, c, cart, AskOf(lib, cart, ip), r, d, ip, later, form);
  }

  lemma {:induction false} Retrying(
      w0: World, db: Db, stored: seq<Action>, c: I.CallId, cart: Cart, ask: I.Ask, r: Response, d: I.CallId,
      ip: Option<string>, later: int, form: Form)
    returns (actions: seq<Action>)
    requires WorldInv(db, w0) && Admissible(w0, stored) && d != c && d !in db.orders
    requires var w := Execute(w0, stored);
      && OnlyCall(w, c, cart, ask, I.Stored(r), I.Completed(r)) && ask == AskOf(w.lib, cart, ip)
      && Lawful(w.idem.codec) && cart.userId != "" && 8 <= |cart.key| <= 255
      && d !in w.sys.txs && w.idem.clock <= later < w.idem.clock + I.TTL
    ensures Admissible(w0, actions) && Execute(w0, actions).sys == Execute(w0, stored).sys
    ensures var w := Execute(w0, actions);
      && c in w.idem.calls && w.idem.calls[c].phase == I.Stored(r)
      && d in w.idem.calls && w.idem.calls[d].phase == I.Answered(I.Replay(r))
  {
    var tick, arrive, find := Middleware(I.Tick(later)), Arrive(d, cart, ip), Middleware(I.Find(d, later, form));
    RunKeepsWorld(w0, db, stored);
    RetryOnly(Execute(w0, stored), c, cart, ask, r, d, ip, later, form);
    OneMore(w0, stored, tick);
    OneMore(w0, stored + [tick], arrive);
    OneMore(w0, stored + [tick] + [arrive], find);
    actions := stored + [tick] + [arrive] + [find];
  }

  /** One product with one unit in stock. */
  function LastUnit(): Db {
    Db(map[1 := Product("SKU", "last one", 999, 1, false)], map[])
  }

  /** A concrete case: the last unit is ordered, the answer is 201, the stock is 0, and the retry an hour later gets the
      same 201 with the same order. */
  lemma {:induction false} LastUnitIsSoldOnce(codec: Codec, lib: Library, body: string)
    returns (actions: seq<Action>, r: Response)
    requires Lawful(codec) && lib.items(body) == [Line(1, 1)]
    ensures Admissible(Initial(LastUnit(), codec, lib, 0), actions)
    ensures var w := Execute(Initial(LastUnit(), codec, lib, 0), actions);
      && r.status == 201 && 7 in w.sys.db.orders && r.body == OrderCreated(7, w.sys.db.orders[7])
      && 7 in w.idem.calls && w.idem.calls[7].phase == I.Stored(r)
      && 8 in w.idem.calls && w.idem.calls[8].phase == I.Answered(I.Replay(r))
      && 1 in w.sys.db.products && w.sys.db.products[1].stock == 0
  {
    var db, items := LastUnit(), [Line(1, 1)];
    SingleLine(Line(1, 1));
    assert Available(db.products, items, 1);
    assert AllAvailable(db.products, items);
    assert Worth(db.products, items) == 999 by {
      assert items[..0] == [];
    }
    assert |"user-key"| == 8;
    actions, r := EveryOrderCanBeAnsweredTwice(
      db, codec, lib, 0, 7, 8, Cart("alice", "user-key", body), None, 3600000, AsText);
  }
}
