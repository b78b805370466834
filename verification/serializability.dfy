/** Every interleaving is equivalent to running the finished transactions whole, in the order of the log. */
module Serializability {
  import opened Options
  import opened OrderLines
  import opened Money
  import opened Catalogue
  import opened Transactions
  import opened TransactionInvariant

  // ---- Whole transactions keep the column bounds

  lemma {:induction false} AtomicKeepsWellFormed(db: Db, t: TxId, request: Request)
    requires WellFormed(db)
    ensures WellFormed(Atomic(db, t, request).0)
    ensures Atomic(db, t, request).0.products.Keys == db.products.Keys
  {
    if request.PlaceOrder? && AtomicOrder(db, t, request.userId, request.items).1.Placed? {
      DeductionStaysNonNegative(db.products, request.items);
    }
  }

  lemma {:induction false} DeductionStaysNonNegative(products: map<ProductId, Product>, items: seq<Line>)
    requires FirstRefusal(products, Normalized(items)).None?
    requires forall id :: id in products ==> WellFormedRow(products[id])
    ensures forall id :: id in Deducted(products, items) ==> WellFormedRow(Deducted(products, items)[id])
  {
    RefusedIffUnavailable(products, items);
    forall id | id in products
      ensures SumFor(items, id) <= products[id].stock
    {
      if Mentions(items, id) {
        assert Available(products, items, id);
      } else {
        UnmentionedSum(items, id);
      }
    }
  }

  // ---- At its commit point a transaction acts as its atomic version

  lemma {:induction false} NoRefusalWhileHeld(db: Db, locks: map<ProductId, TxId>, t: TxId, tx: Tx)
    requires SnapshotsCurrent(db, locks, t, tx) && tx.request.PlaceOrder?
    requires |tx.snapshots| == |tx.lines|
    ensures FirstRefusal(db.products, tx.lines).None?
  {
    FirstRefusalIs(db.products, tx.lines, |tx.snapshots|);
  }

  lemma {:induction false} SameCharges(db: Db, locks: map<ProductId, TxId>, t: TxId, tx: Tx)
    requires SnapshotsCurrent(db, locks, t, tx)
    requires |tx.snapshots| == |tx.lines|
    ensures SnapshotCharges(tx.lines, tx.snapshots) == ChargesOf(db.products, tx.lines)
  {
  }

  lemma {:induction false} SameItems(db: Db, locks: map<ProductId, TxId>, t: TxId, tx: Tx)
    requires WellFormed(db) && SnapshotsCurrent(db, locks, t, tx)
    requires |tx.snapshots| == |tx.lines|
    ensures ItemsUpTo(tx.lines, tx.snapshots, |tx.snapshots|) == ItemsOf(db.products, tx.lines)
  {
    forall i | 0 <= i < |tx.snapshots|
      ensures ToFixedCents(NumberOf(tx.snapshots[i].price)) == tx.snapshots[i].price
    {
      PrintedPriceIsExact(tx.snapshots[i].price);
    }
  }

  lemma {:induction false} MentionedRowIsDeducted(db: Db, locks: map<ProductId, TxId>, t: TxId, tx: Tx, i: nat)
    requires SnapshotsCurrent(db, locks, t, tx) && tx.request.PlaceOrder?
    requires i < |tx.snapshots| && Ascending(tx.lines)
    ensures var id, writes := tx.lines[i].productId, StockWrites(tx.lines, tx.snapshots, |tx.snapshots|);
            && id in writes
            && Overlay(db.products[id], writes[id]) ==
                 db.products[id].(stock := db.products[id].stock - tx.lines[i].quantity)
  {
    StockWritesAt(tx.lines, tx.snapshots, |tx.snapshots|);
    assert db.products[tx.lines[i].productId] == tx.snapshots[i];
  }

  lemma {:induction false} CommittedStock(db: Db, locks: map<ProductId, TxId>, t: TxId, tx: Tx, id: ProductId)
    requires SnapshotsCurrent(db, locks, t, tx) && id in db.products
    requires tx.request.PlaceOrder? && tx.lines == Normalized(tx.request.items) && |tx.snapshots| == |tx.lines|
    requires tx.writes == StockWrites(tx.lines, tx.snapshots, |tx.snapshots|)
    ensures CommittedDb(db, t, tx).products[id]
         == db.products[id].(stock := db.products[id].stock - SumFor(tx.request.items, id))
  {
    var items := tx.request.items;
    if Mentions(items, id) {
      var i := PlaceInNormalized(items, id);
      RefusalOfNormalized(db.products, items, i);
      LinesAscend(tx.request);
      MentionedRowIsDeducted(db, locks, t, tx, i);
    } else {
      UnmentionedSum(items, id);
      UnmentionedNotWritten(items, tx.snapshots, id);
    }
  }

  lemma {:induction false} UnmentionedNotWritten(items: seq<Line>, snapshots: seq<Product>, id: ProductId)
    requires |snapshots| == |Normalized(items)| && !Mentions(items, id)
    ensures id !in StockWrites(Normalized(items), snapshots, |snapshots|)
  {
    NormalFormIsCanonical(items);
    StockWritesAt(Normalized(items), snapshots, |snapshots|);
  }

  /** Under the locks, the blind absolute stock writes are decrements. */
  lemma {:induction false} AbsoluteWritesDeduct(db: Db, locks: map<ProductId, TxId>, t: TxId, tx: Tx)
    requires SnapshotsCurrent(db, locks, t, tx)
    requires tx.request.PlaceOrder? && tx.lines == Normalized(tx.request.items) && |tx.snapshots| == |tx.lines|
    requires tx.writes == StockWrites(tx.lines, tx.snapshots, |tx.snapshots|)
    ensures CommittedDb(db, t, tx).products == Deducted(db.products, tx.request.items)
  {
    forall id | id in db.products
      ensures CommittedDb(db, t, tx).products[id] ==
        db.products[id].(stock := db.products[id].stock - SumFor(tx.request.items, id))
    {
      CommittedStock(db, locks, t, tx, id);
    }
  }

  lemma {:induction false} OrderCommitIsAtomic(db: Db, locks: map<ProductId, TxId>, t: TxId, tx: Tx)
    requires WellFormed(db) && TxInv(db, locks, t, tx) && tx.phase.Committing? && tx.request.PlaceOrder?
    ensures AtomicOrder(db, t, tx.request.userId, tx.request.items) == (CommittedDb(db, t, tx), CommitOutcome(tx))
  {
    NoRefusalWhileHeld(db, locks, t, tx);
    SameCharges(db, locks, t, tx);
    SameItems(db, locks, t, tx);
    AbsoluteWritesDeduct(db, locks, t, tx);
    assert tx.order.value == OrderFor(db.products, tx.request.userId, tx.request.items);
  }

  lemma {:induction false} EditCommitIsAtomic(db: Db, locks: map<ProductId, TxId>, t: TxId, tx: Tx)
    requires TxInv(db, locks, t, tx) && tx.phase.Committing? && !tx.request.PlaceOrder?
    ensures Atomic(db, t, tx.request) == (CommittedDb(db, t, tx), CommitOutcome(tx))
  {
    var id := tx.lines[0].productId;
    assert db.products[id] == tx.snapshots[0];
    assert CommittedDb(db, t, tx).products == db.products[id := Overlay(db.products[id], tx.writes[id])];
  }

  lemma {:induction false} CommitIsAtomic(db: Db, locks: map<ProductId, TxId>, t: TxId, tx: Tx)
    requires WellFormed(db) && TxInv(db, locks, t, tx) && tx.phase.Committing?
    ensures Atomic(db, t, tx.request) == (CommittedDb(db, t, tx), CommitOutcome(tx))
  {
    if tx.request.PlaceOrder? {
      OrderCommitIsAtomic(db, locks, t, tx);
    } else {
      EditCommitIsAtomic(db, locks, t, tx);
    }
  }

  // ---- At its rollback point a refused transaction gives the error of its atomic version

  lemma {:induction false} OrderRefusalIsAtomic(db: Db, locks: map<ProductId, TxId>, t: TxId, tx: Tx, e: Error)
    requires SnapshotsCurrent(db, locks, t, tx) && Refused(db, locks, t, tx, e)
    requires tx.request.PlaceOrder? && tx.lines == Normalized(tx.request.items)
    ensures AtomicOrder(db, t, tx.request.userId, tx.request.items) == (db, Failed(e))
  {
    var lines, k := tx.lines, |tx.snapshots|;
    FirstRefusalIs(db.products, lines, k);
    if k == |lines| {
      SameCharges(db, locks, t, tx);
    }
  }

  lemma {:induction false} RefusalIsAtomic(db: Db, locks: map<ProductId, TxId>, t: TxId, tx: Tx, e: Error)
    requires SnapshotsCurrent(db, locks, t, tx) && Refused(db, locks, t, tx, e) && tx.lines == LinesOf(tx.request)
    ensures Atomic(db, t, tx.request) == (db, Failed(e))
    ensures e.ProductNotFound? || e.InsufficientStock? || e.TotalOutOfRange? || e.InvalidValue?
  {
    if tx.request.PlaceOrder? {
      OrderRefusalIsAtomic(db, locks, t, tx, e);
    } else if |tx.snapshots| == 1 {
      assert db.products[tx.lines[0].productId] == tx.snapshots[0];
    }
  }

  // ---- The invariant of all interleavings

  lemma {:induction false} InitialInv(db: Db)
    requires WellFormed(db)
    ensures Inv(Initial(db))
  {
  }

  lemma {:induction false} StepKeepsInv(s: State, a: Action)
    requires Inv(s) && Enabled(s, a)
    ensures Inv(Apply(s, a))
  {
    match a
    case Begin(t, request) =>
      BeginKeepsTx(s.db, s.locks, t, request);
    case Advance(t) => NextKeepsInv(s, t);
    case Fail(t) => FailKeepsTx(s.db, s.locks, t, s.txs[t]);
    case Queue(t) =>
  }

  lemma {:induction false} NextKeepsInv(s: State, t: TxId)
    requires Inv(s) && Enabled(s, Advance(t))
    ensures Inv(Next(s, t))
  {
    var phase := s.txs[t].phase;
    if phase.Locking? {
      LockAndReadKeepsInv(s, t);
    } else if phase.Committing? {
      CommitKeepsInv(s, t);
    } else if phase.RollingBack? {
      RollbackKeepsInv(s, t, phase.error);
    } else {
      WriteKeepsTx(s.db, s.locks, t, s.txs[t]);
    }
  }

  lemma {:induction false} LockAndReadKeepsInv(s: State, t: TxId)
    requires Inv(s) && Enabled(s, Advance(t)) && s.txs[t].phase.Locking?
    ensures Inv(LockAndRead(s, t))
  {
    var s', tx := LockAndRead(s, t), s.txs[t];
    if NextTarget(tx) !in s.db.products {
      MissingRowKeepsTx(s.db, s.locks, t, tx);
    } else {
      ReadKeepsTx(s.db, s.locks, t, tx);
      forall u | u in s.txs && u != t
        ensures TxInv(s'.db, s'.locks, u, s'.txs[u])
      {
        Undisturbed(s.db, s.locks, s'.db, s'.locks, u, s.txs[u]);
      }
    }
  }

  lemma {:induction false} CommitKeepsWellFormed(db: Db, locks: map<ProductId, TxId>, t: TxId, tx: Tx)
    requires WellFormed(db) && TxInv(db, locks, t, tx) && tx.phase.Committing?
    ensures WellFormed(CommittedDb(db, t, tx))
  {
    CommitIsAtomic(db, locks, t, tx);
    AtomicKeepsWellFormed(db, t, tx.request);
  }

  lemma {:induction false} CommitLeavesOthers(s: State, t: TxId, u: TxId)
    requires Enabled(s, Advance(t)) && s.txs[t].phase.Committing? && u != t
    requires u in s.txs && TxInv(s.db, s.locks, u, s.txs[u])
    requires forall id :: id in s.txs[t].writes ==> Holds(s.locks, t, id)
    ensures TxInv(Commit(s, t).db, Commit(s, t).locks, u, s.txs[u])
  {
    Undisturbed(s.db, s.locks, Commit(s, t).db, Commit(s, t).locks, u, s.txs[u]);
  }

  lemma {:induction false} CommitKeepsInv(s: State, t: TxId)
    requires Inv(s) && Enabled(s, Advance(t)) && s.txs[t].phase.Committing?
    ensures Inv(Commit(s, t))
  {
    var s', tx := Commit(s, t), s.txs[t];
    CommitKeepsWellFormed(s.db, s.locks, t, tx);
    WritesAreLocked(s.db, s.locks, t, tx);
    ReleasedTx(s'.db, s.locks, t, tx, CommitOutcome(tx));
    forall u | u in s.txs && u != t
      ensures TxInv(s'.db, s'.locks, u, s'.txs[u])
    {
      CommitLeavesOthers(s, t, u);
    }
  }

  lemma {:induction false} RollbackKeepsInv(s: State, t: TxId, e: Error)
    requires Inv(s) && t in s.txs
    ensures Inv(Rollback(s, t, e))
  {
    var s', tx := Rollback(s, t, e), s.txs[t];
    ReleasedTx(s'.db, s.locks, t, tx, Failed(e));
    forall u | u in s.txs && u != t
      ensures TxInv(s'.db, s'.locks, u, s'.txs[u])
    {
      Undisturbed(s.db, s.locks, s'.db, s'.locks, u, s.txs[u]);
    }
  }

  // ---- The log replays

  /** Running the logged requests whole, one after another. */
  function Replay(db: Db, log: seq<Entry>): Db {
    if log == [] then db
    else
      var last := log[|log| - 1];
      Atomic(Replay(db, log[..|log| - 1]), last.tx, last.request).0
  }

  /** Each logged outcome is the one the request run whole gives at that point. */
  ghost predicate Explains(db: Db, log: seq<Entry>) {
    forall i :: 0 <= i < |log| ==> log[i].outcome == Atomic(Replay(db, log[..i]), log[i].tx, log[i].request).1
  }

  /** The log lists exactly the transactions that finished with an answer of the service, once each. */
  ghost predicate LogComplete(s: State) {
    && (forall i :: 0 <= i < |s.log| ==>
          s.log[i].tx in s.txs && s.txs[s.log[i].tx].phase == Finished(s.log[i].outcome)
          && s.txs[s.log[i].tx].request == s.log[i].request)
    && (forall i, j :: 0 <= i < j < |s.log| ==> s.log[i].tx != s.log[j].tx)
    && (forall t :: t in s.txs && s.txs[t].phase.Finished? && s.txs[t].phase.outcome != Failed(DatabaseFailure) ==>
          Entry(t, s.txs[t].request, s.txs[t].phase.outcome) in s.log)
  }

  ghost predicate Serialized(db: Db, s: State) {
    s.db == Replay(db, s.log) && Explains(db, s.log) && LogComplete(s)
  }

  lemma {:induction false} ExplainsPrefix(db: Db, log: seq<Entry>, n: nat)
    requires Explains(db, log) && n <= |log|
    ensures Explains(db, log[..n])
  {
    forall i | 0 <= i < n
      ensures log[..n][i].outcome == Atomic(Replay(db, log[..n][..i]), log[..n][i].tx, log[..n][i].request).1
    {
      assert log[..n][..i] == log[..i];
    }
  }

  lemma {:induction false} ExtendLog(db: Db, log: seq<Entry>, entry: Entry)
    requires Explains(db, log)
    requires entry.outcome == Atomic(Replay(db, log), entry.tx, entry.request).1
    ensures Explains(db, log + [entry])
    ensures Replay(db, log + [entry]) == Atomic(Replay(db, log), entry.tx, entry.request).0
  {
    var log' := log + [entry];
    assert log'[..|log|] == log;
    forall i | 0 <= i < |log'|
      ensures log'[i].outcome == Atomic(Replay(db, log'[..i]), log'[i].tx, log'[i].request).1
    {
      if i < |log| {
        assert log'[..i] == log[..i];
      }
    }
  }

  lemma {:induction false} LogOneMore(s: State, s': State, t: TxId, outcome: Outcome)
    requires LogComplete(s) && t in s.txs && Unfinished(s.txs[t])
    requires s'.txs == s.txs[t := s.txs[t].(phase := Finished(outcome))]
    requires s'.log == s.log + [Entry(t, s.txs[t].request, outcome)]
    ensures LogComplete(s')
  {
    var e := Entry(t, s.txs[t].request, outcome);
    assert e in s'.log by {
      assert s'.log[|s.log|] == e;
    }
    forall u | u in s'.txs && u != t && s'.txs[u].phase.Finished? && s'.txs[u].phase.outcome != Failed(DatabaseFailure)
      ensures Entry(u, s'.txs[u].request, s'.txs[u].phase.outcome) in s'.log
    {
      assert Entry(u, s.txs[u].request, s.txs[u].phase.outcome) in s.log;
    }
  }

  lemma {:induction false} FinishKeepsSerialized(db: Db, s: State, s': State, t: TxId, outcome: Outcome)
    requires Serialized(db, s) && t in s.txs && Unfinished(s.txs[t])
    requires Atomic(s.db, t, s.txs[t].request) == (s'.db, outcome)
    requires s'.txs == s.txs[t := s.txs[t].(phase := Finished(outcome))]
    requires s'.log == s.log + [Entry(t, s.txs[t].request, outcome)]
    ensures Serialized(db, s')
  {
    ExtendLog(db, s.log, Entry(t, s.txs[t].request, outcome));
    LogOneMore(s, s', t, outcome);
  }

  lemma {:induction false} FailureKeepsSerialized(db: Db, s: State, s': State, t: TxId)
    requires Serialized(db, s) && t in s.txs && Unfinished(s.txs[t])
    requires s'.db == s.db && s'.log == s.log
    requires s'.txs == s.txs[t := s.txs[t].(phase := Finished(Failed(DatabaseFailure)))]
    ensures Serialized(db, s')
  {
  }

  lemma {:induction false} UnfinishedNotLogged(s: State, s': State, t: TxId)
    requires LogComplete(s) && s'.log == s.log
    requires t in s.txs ==> Unfinished(s.txs[t])
    requires t in s'.txs && Unfinished(s'.txs[t]) && s'.txs == s.txs[t := s'.txs[t]]
    ensures LogComplete(s')
  {
  }

  lemma {:induction false} NextKeepsSerialized(db: Db, s: State, t: TxId)
    requires Inv(s) && Serialized(db, s) && Enabled(s, Advance(t))
    ensures Serialized(db, Next(s, t))
  {
    var phase := s.txs[t].phase;
    if phase.Committing? {
      CommitIsAtomic(s.db, s.locks, t, s.txs[t]);
      FinishKeepsSerialized(db, s, Commit(s, t), t, CommitOutcome(s.txs[t]));
    } else if phase.RollingBack? {
      if phase.error != DatabaseFailure {
        RefusalIsAtomic(s.db, s.locks, t, s.txs[t], phase.error);
        FinishKeepsSerialized(db, s, Rollback(s, t, phase.error), t, Failed(phase.error));
      } else {
        FailureKeepsSerialized(db, s, Rollback(s, t, phase.error), t);
      }
    } else {
      QuietStep(s, t);
      UnfinishedNotLogged(s, Next(s, t), t);
    }
  }

  lemma {:induction false} StepKeepsSerialized(db: Db, s: State, a: Action)
    requires Inv(s) && Serialized(db, s) && Enabled(s, a)
    ensures Serialized(db, Apply(s, a))
  {
    match a
    case Begin(t, _) => UnfinishedNotLogged(s, Apply(s, a), t);
    case Fail(t) => UnfinishedNotLogged(s, Apply(s, a), t);
    case Queue(_) =>
    case Advance(t) => NextKeepsSerialized(db, s, t);
  }

  /** Before its commit or rollback a transaction changes nothing but its own state and the lock table. */
  lemma {:induction false} QuietStep(s: State, t: TxId)
    requires Enabled(s, Advance(t))
    requires !s.txs[t].phase.Committing? && !s.txs[t].phase.RollingBack?
    ensures Next(s, t).db == s.db && Next(s, t).log == s.log && Next(s, t).jobs == s.jobs
    ensures t in Next(s, t).txs && Unfinished(Next(s, t).txs[t])
    ensures Next(s, t).txs == s.txs[t := Next(s, t).txs[t]]
    ensures Next(s, t).txs[t].request == s.txs[t].request
  {
  }

  /** Serializability: after any run the committed tables are those of replaying the log, and every finished transaction
      returned the result or error its atomic version gives at its place in the log. */
  lemma {:induction false} EveryRunIsSerializable(db: Db, actions: seq<Action>)
    requires WellFormed(db) && Admissible(Initial(db), actions)
    ensures Inv(Execute(Initial(db), actions))
    ensures Serialized(db, Execute(Initial(db), actions))
    decreases |actions|
  {
    if actions == [] {
      InitialInv(db);
    } else {
      var front := actions[..|actions| - 1];
      EveryRunIsSerializable(db, front);
      var s, a := Execute(Initial(db), front), actions[|actions| - 1];
      StepKeepsInv(s, a);
      StepKeepsSerialized(db, s, a);
    }
  }

  // ---- The log respects real time

  lemma {:induction false} StepExtendsLog(s: State, a: Action)
    requires Enabled(s, a)
    ensures s.log <= Apply(s, a).log
  {
    if a.Advance? && !s.txs[a.tx].phase.Committing? && !s.txs[a.tx].phase.RollingBack? {
      QuietStep(s, a.tx);
    }
  }

  lemma {:induction false} LogOnlyGrows(s: State, actions: seq<Action>, n: nat)
    requires Admissible(s, actions) && n <= |actions| && Admissible(s, actions[..n])
    ensures Execute(s, actions[..n]).log <= Execute(s, actions).log
    decreases |actions|
  {
    if n == |actions| {
      assert actions[..n] == actions;
    } else {
      var front := actions[..|actions| - 1];
      assert front[..n] == actions[..n];
      LogOnlyGrows(s, front, n);
      StepExtendsLog(Execute(s, front), actions[|actions| - 1]);
    }
  }

  /** The serial order is the real one: a transaction that was answered before another began stands before
      it in the log. */
  lemma {:induction false} LogRespectsRealTime(db: Db, actions: seq<Action>, n: nat, i: nat, j: nat)
    requires WellFormed(db) && Admissible(Initial(db), actions)
    requires n <= |actions| && Admissible(Initial(db), actions[..n])
    requires var log := Execute(Initial(db), actions).log;
      var earlier := Execute(Initial(db), actions[..n]);
      && i < |log| && j < |log|
      && log[i].tx in earlier.txs && earlier.txs[log[i].tx].phase.Finished?
      && earlier.txs[log[i].tx].phase.outcome != Failed(DatabaseFailure)
      && log[j].tx !in earlier.txs
    ensures i < j
  {
    var earlier := Execute(Initial(db), actions[..n]);
    var log := Execute(Initial(db), actions).log;
    EveryRunIsSerializable(db, actions[..n]);
    EveryRunIsSerializable(db, actions);
    LogOnlyGrows(Initial(db), actions, n);
    assert j >= |earlier.log|;
    var t := log[i].tx;
    assert Entry(t, earlier.txs[t].request, earlier.txs[t].phase.outcome) in earlier.log;
    var k :| 0 <= k < |earlier.log| && earlier.log[k].tx == t;
    assert log[k].tx == t;
  }
}
