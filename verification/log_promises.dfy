/** What every answer in the log of a run means, and which logs there are. */
module LogPromises {
  import opened Options
  import opened OrderLines
  import opened Catalogue
  import opened ServiceResults
  import opened Transactions
  import opened TransactionInvariant
  import opened Serializability
  import opened Progress
  import opened StockHistory

  // ---- Every answer meets its result

  /** Over any run, each logged request changed the tables, and was answered, as the service promises. */
  lemma {:induction false} EveryAnswerMeetsItsResult(db: Db, actions: seq<Action>, i: nat)
    requires WellFormed(db) && Admissible(Initial(db), actions)
    requires i < |Execute(Initial(db), actions).log|
    ensures var log := Execute(Initial(db), actions).log;
      Meets(Replay(db, log[..i]), Replay(db, log[..i + 1]), log[i].tx, log[i].request, log[i].outcome)
  {
    EveryRunIsSerializable(db, actions);
    EntryMeetsItsResult(db, Execute(Initial(db), actions).log, i);
  }

  lemma {:induction false} EntryMeetsItsResult(db: Db, log: seq<Entry>, i: nat)
    requires Explains(db, log) && i < |log|
    ensures Meets(Replay(db, log[..i]), Replay(db, log[..i + 1]), log[i].tx, log[i].request, log[i].outcome)
  {
    assert log[..i + 1][..i] == log[..i];
    AtomicMeets(Replay(db, log[..i]), log[i].tx, log[i].request);
  }

  // ---- A deleted product stays deleted

  predicate MarkedDeleted(db: Db, id: ProductId) {
    id in db.products && db.products[id].isDeleted
  }

  lemma {:induction false} AtomicKeepsDeleted(db: Db, k: OrderId, request: Request, id: ProductId)
    requires MarkedDeleted(db, id)
    ensures MarkedDeleted(Atomic(db, k, request).0, id)
  {
  }

  lemma {:induction false} ReplayKeepsDeleted(db: Db, log: seq<Entry>, n: nat, id: ProductId)
    requires n <= |log| && MarkedDeleted(Replay(db, log[..n]), id)
    ensures MarkedDeleted(Replay(db, log), id)
  {
    if n == |log| {
      assert log[..n] == log;
    } else {
      var front, last := log[..|log| - 1], log[|log| - 1];
      assert front[..n] == log[..n];
      ReplayKeepsDeleted(db, front, n, id);
      AtomicKeepsDeleted(Replay(db, front), last.tx, last.request, id);
    }
  }

  /** What a request about a deleted product is told. */
  predicate TreatsAsGone(entry: Entry, id: ProductId) {
    match entry.request
    case PlaceOrder(_, items) => Mentions(items, id) ==> entry.outcome.Failed?
    case EditProduct(p, _) => p == id ==> entry.outcome == Failed(ProductNotFound(id))
    case DeleteProduct(p) => p == id ==> entry.outcome == Failed(ProductNotFound(id))
  }

  lemma {:induction false} GoneIsRefused(db: Db, entry: Entry, id: ProductId)
    requires MarkedDeleted(db, id) && entry.outcome == Atomic(db, entry.tx, entry.request).1
    ensures TreatsAsGone(entry, id)
  {
    if entry.request.PlaceOrder? && Mentions(entry.request.items, id) {
      OrderMeetsItsResult(db, entry.tx, entry.request.userId, entry.request.items);
      assert !Available(db.products, entry.request.items, id);
    }
  }

  /** Once a delete is answered, no later order, edit or delete of the product succeeds. */
  lemma {:induction false} DeletedStaysDeleted(db: Db, actions: seq<Action>, i: nat, j: nat, id: ProductId)
    requires WellFormed(db) && Admissible(Initial(db), actions)
    requires i < j < |Execute(Initial(db), actions).log| && Execute(Initial(db), actions).log[i].outcome == Deleted(id)
    ensures TreatsAsGone(Execute(Initial(db), actions).log[j], id)
  {
    EveryRunIsSerializable(db, actions);
    GoneInTheLog(db, Execute(Initial(db), actions).log, i, j, id);
  }

  lemma {:induction false} GoneInTheLog(db: Db, log: seq<Entry>, i: nat, j: nat, id: ProductId)
    requires Explains(db, log) && i < j < |log| && log[i].outcome == Deleted(id)
    ensures TreatsAsGone(log[j], id)
  {
    EntryMeetsItsResult(db, log, i);
    DeletedOutcome(Replay(db, log[..i]), Replay(db, log[..i + 1]), log[i], id);
    assert log[..j][..i + 1] == log[..i + 1];
    ReplayKeepsDeleted(db, log[..j], i + 1, id);
    GoneIsRefused(Replay(db, log[..j]), log[j], id);
  }

  lemma {:induction false} DeletedOutcome(db: Db, db': Db, entry: Entry, id: ProductId)
    requires Meets(db, db', entry.tx, entry.request, entry.outcome) && entry.outcome == Deleted(id)
    ensures MarkedDeleted(db', id)
  {
  }

  // ---- Every serial order of requests is the log of some run

  predicate Quiet(s: State) {
    forall t :: t in s.txs ==> s.txs[t].phase.Finished?
  }

  /** Only `t` is unfinished, and the database has not failed it. */
  predicate Alone(s: State, t: TxId) {
    && t in s.txs && Unfinished(s.txs[t]) && s.txs[t].phase != RollingBack(DatabaseFailure)
    && forall u :: u in s.txs && u != t ==> s.txs[u].phase.Finished?
  }

  /** The transaction has finished with an answer of the service, which is the last one logged. */
  predicate JustLogged(s: State, s': State, t: TxId) {
    && t in s.txs && t in s'.txs && s'.txs[t].phase.Finished?
    && s'.log == s.log + [Entry(t, s.txs[t].request, s'.txs[t].phase.outcome)]
  }

  lemma {:induction false} NoFailureByItself(s: State, t: TxId)
    requires Enabled(s, Advance(t)) && s.txs[t].phase != RollingBack(DatabaseFailure)
    ensures t in Next(s, t).txs && Next(s, t).txs[t].phase != RollingBack(DatabaseFailure)
  {
  }

  lemma {:induction false} FinishedIsLogged(s: State, t: TxId)
    requires Enabled(s, Advance(t)) && s.txs[t].phase != RollingBack(DatabaseFailure)
    ensures t in Next(s, t).txs
    ensures if Next(s, t).txs[t].phase.Finished? then JustLogged(s, Next(s, t), t) else Next(s, t).log == s.log
    ensures Next(s, t).txs[t].request == s.txs[t].request
  {
    if !s.txs[t].phase.Committing? && !s.txs[t].phase.RollingBack? {
      QuietStep(s, t);
    }
  }

  /** With nobody else running, a transaction steps on until it is logged. */
  lemma {:induction false} StepAlone(s: State, t: TxId)
    requires Inv(s) && Alone(s, t)
    ensures Enabled(s, Advance(t)) && t in Next(s, t).txs
    ensures Next(s, t).txs[t].request == s.txs[t].request
    ensures if Next(s, t).txs[t].phase.Finished? then Quiet(Next(s, t)) && JustLogged(s, Next(s, t), t)
            else Alone(Next(s, t), t) && Next(s, t).log == s.log
  {
    var u := SomeoneCanStep(s, t);
    assert u == t;
    NoFailureByItself(s, t);
    FinishedIsLogged(s, t);
    forall u | u in Next(s, t).txs && u != t
      ensures Next(s, t).txs[u].phase.Finished?
    {
      ActsOnItsOwn(s, Advance(t), u);
    }
  }

  lemma {:induction false} RunOneMore(s: State, actions: seq<Action>, a: Action)
    requires Admissible(s, actions) && Enabled(Execute(s, actions), a)
    ensures Admissible(s, actions + [a]) && Execute(s, actions + [a]) == Apply(Execute(s, actions), a)
  {
    assert (actions + [a])[..|actions|] == actions;
  }

  lemma {:induction false} RunToEnd(db: Db, actions: seq<Action>, t: TxId) returns (longer: seq<Action>)
    requires WellFormed(db) && Admissible(Initial(db), actions) && Alone(Execute(Initial(db), actions), t)
    ensures Admissible(Initial(db), longer)
    ensures Quiet(Execute(Initial(db), longer))
    ensures JustLogged(Execute(Initial(db), actions), Execute(Initial(db), longer), t)
    ensures Execute(Initial(db), longer).txs.Keys == Execute(Initial(db), actions).txs.Keys
    ensures Execute(Initial(db), longer).txs[t].request == Execute(Initial(db), actions).txs[t].request
    decreases Rank(Execute(Initial(db), actions).txs[t])
  {
    var s := Execute(Initial(db), actions);
    EveryRunIsSerializable(db, actions);
    StepAlone(s, t);
    RunOneMore(Initial(db), actions, Advance(t));
    longer := actions + [Advance(t)];
    var s' := Execute(Initial(db), longer);
    AdvanceLowersRank(s, t);
    KeysStay(s, t);
    if !s'.txs[t].phase.Finished? {
      EveryRunIsSerializable(db, longer);
      RankIsBound(s'.txs[t]);
      longer := RunToEnd(db, longer, t);
    }
  }

  lemma {:induction false} KeysStay(s: State, t: TxId)
    requires Enabled(s, Advance(t))
    ensures Next(s, t).txs.Keys == s.txs.Keys
  {
  }

  datatype Ticket = Ticket(tx: TxId, request: Request)

  /** Requests with fresh ids that pass the schemas. */
  predicate Acceptable(db: Db, todo: seq<Ticket>) {
    && (forall i :: 0 <= i < |todo| ==> todo[i].tx !in db.orders && ValidRequest(todo[i].request))
    && (forall i, j :: 0 <= i < j < |todo| ==> todo[i].tx != todo[j].tx)
  }

  predicate Issued(todo: seq<Ticket>, t: TxId) {
    exists i :: 0 <= i < |todo| && todo[i].tx == t
  }

  /** The log lists the tickets in their order. */
  predicate LogIs(log: seq<Entry>, todo: seq<Ticket>) {
    && |log| == |todo|
    && forall i :: 0 <= i < |log| ==> log[i].tx == todo[i].tx && log[i].request == todo[i].request
  }

  /** Orders of a reachable state are the initial ones and those of its transactions. */
  lemma {:induction false} OrdersAreKnown(db: Db, s: State, k: OrderId)
    requires Serialized(db, s) && k in s.db.orders
    ensures k in db.orders || k in s.txs
  {
    ReplayOrders(db, s.log, k);
  }

  lemma {:induction false} BeginAlone(db: Db, actions: seq<Action>, ticket: Ticket) returns (longer: seq<Action>)
    requires WellFormed(db) && Admissible(Initial(db), actions) && Quiet(Execute(Initial(db), actions))
    requires ticket.tx !in db.orders && ValidRequest(ticket.request) && ticket.tx !in Execute(Initial(db), actions).txs
    ensures Admissible(Initial(db), longer) && Alone(Execute(Initial(db), longer), ticket.tx)
    ensures var s, s' := Execute(Initial(db), actions), Execute(Initial(db), longer);
      && s'.log == s.log && s'.txs.Keys == s.txs.Keys + {ticket.tx} && s'.txs[ticket.tx].request == ticket.request
  {
    EveryRunIsSerializable(db, actions);
    var s, a := Execute(Initial(db), actions), Begin(ticket.tx, ticket.request);
    if ticket.tx in s.db.orders {
      OrdersAreKnown(db, s, ticket.tx);
      assert false;
    }
    RunOneMore(Initial(db), actions, a);
    longer := actions + [a];
  }

  /** A quiet state whose log lists the tickets, and whose transactions are theirs. */
  predicate Answers(s: State, todo: seq<Ticket>) {
    Quiet(s) && LogIs(s.log, todo) && forall t :: t in s.txs ==> Issued(todo, t)
  }

  lemma {:induction false} AnswersOneMore(s: State, begun: State, s': State, todo: seq<Ticket>)
    requires todo != [] && Answers(s, todo[..|todo| - 1]) && Quiet(s')
    requires var last := todo[|todo| - 1];
      && begun.log == s.log && begun.txs.Keys == s.txs.Keys + {last.tx}
      && last.tx in begun.txs && begun.txs[last.tx].request == last.request
      && JustLogged(begun, s', last.tx) && s'.txs.Keys == begun.txs.Keys
    ensures Answers(s', todo)
  {
    forall t | t in s'.txs
      ensures Issued(todo, t)
    {
      IssuedOneMore(todo, t);
    }
  }

  /** The converse of serializability: whatever requests are to be answered, in whatever order, some run of the
      interleaved machine answers exactly these in exactly this order. */
  lemma {:induction false} EverySerialOrderIsReachable(db: Db, todo: seq<Ticket>) returns (actions: seq<Action>)
    requires WellFormed(db) && Acceptable(db, todo)
    ensures Admissible(Initial(db), actions) && Answers(Execute(Initial(db), actions), todo)
  {
    if todo == [] {
      actions := [];
    } else {
      var n := |todo| - 1;
      LastIsFresh(db, todo);
      var before := EverySerialOrderIsReachable(db, todo[..n]);
      actions := AnswerLast(db, before, todo);
    }
  }

  lemma {:induction false} AnswerLast(db: Db, before: seq<Action>, todo: seq<Ticket>) returns (actions: seq<Action>)
    requires WellFormed(db) && todo != [] && !Issued(todo[..|todo| - 1], todo[|todo| - 1].tx)
    requires todo[|todo| - 1].tx !in db.orders && ValidRequest(todo[|todo| - 1].request)
    requires Admissible(Initial(db), before) && Answers(Execute(Initial(db), before), todo[..|todo| - 1])
    ensures Admissible(Initial(db), actions) && Answers(Execute(Initial(db), actions), todo)
  {
    var last := todo[|todo| - 1];
    var begun := BeginAlone(db, before, last);
    actions := RunToEnd(db, begun, last.tx);
    var s, s1, s2 := Execute(Initial(db), before), Execute(Initial(db), begun), Execute(Initial(db), actions);
    AnswersOneMore(s, s1, s2, todo);
  }

  lemma {:induction false} LastIsFresh(db: Db, todo: seq<Ticket>)
    requires Acceptable(db, todo) && todo != []
    ensures Acceptable(db, todo[..|todo| - 1]) && !Issued(todo[..|todo| - 1], todo[|todo| - 1].tx)
  {
  }

  lemma {:induction false} IssuedOneMore(todo: seq<Ticket>, t: TxId)
    requires todo != []
    ensures Issued(todo, t) <==> Issued(todo[..|todo| - 1], t) || t == todo[|todo| - 1].tx
  {
    var n := |todo| - 1;
    if Issued(todo[..n], t) {
      var i :| 0 <= i < n && todo[..n][i].tx == t;
      assert todo[i].tx == t;
    }
    if t == todo[n].tx {
      assert todo[n].tx == t;
    }
  }

  // ---- Jobs

  /** A committed order whose job was not queued yet can get it, and the job then names the order, its user and its
      total. */
  lemma {:induction false} PlacedOrderGetsItsJob(db: Db, actions: seq<Action>, t: TxId)
    requires WellFormed(db) && Admissible(Initial(db), actions) && t in Execute(Initial(db), actions).txs
    requires var s := Execute(Initial(db), actions);
      s.txs[t].phase.Finished? && s.txs[t].phase.outcome.Placed? && t !in s.jobs
    ensures var s := Execute(Initial(db), actions);
      && Enabled(s, Queue(t)) && t in s.db.orders
      && Apply(s, Queue(t)).jobs == s.jobs[t := Job(t, s.db.orders[t].userId, s.db.orders[t].total)]
  {
    JobsAreSound(db, actions);
  }
}
