/** Deadlock freedom and termination. */
module Progress {
  import opened OrderLines
  import opened Catalogue
  import opened Transactions
  import opened TransactionInvariant
  import opened Serializability

  /** `t` needs a row whose lock `u` holds. */
  predicate WaitsFor(s: State, t: TxId, u: TxId) {
    Waiting(s, t) && s.locks[NextTarget(s.txs[t])] == u
  }

  /** Along a wait edge the awaited product ids strictly ascend. */
  lemma {:induction false} WaitsAscend(s: State, t: TxId, u: TxId)
    requires Inv(s) && WaitsFor(s, t, u) && Waiting(s, u)
    ensures NextTarget(s.txs[t]) < NextTarget(s.txs[u])
  {
    var id, tx := NextTarget(s.txs[t]), s.txs[u];
    assert Holds(s.locks, u, id);
    var i :| 0 <= i < |tx.lines| && i < |tx.snapshots| && tx.lines[i].productId == id;
    LinesAscend(tx.request);
  }

  ghost predicate WaitPath(s: State, path: seq<TxId>) {
    forall i :: 0 <= i < |path| - 1 ==> WaitsFor(s, path[i], path[i + 1])
  }

  lemma {:induction false} PathAscends(s: State, path: seq<TxId>)
    requires Inv(s) && |path| >= 2 && WaitPath(s, path)
    ensures Waiting(s, path[0])
    ensures Waiting(s, path[|path| - 1]) ==> NextTarget(s.txs[path[0]]) < NextTarget(s.txs[path[|path| - 1]])
  {
    assert WaitsFor(s, path[0], path[1]);
    if Waiting(s, path[|path| - 1]) {
      if |path| == 2 {
        WaitsAscend(s, path[0], path[1]);
      } else {
        var rest := path[1..];
        assert WaitPath(s, rest) by {
          forall i | 0 <= i < |rest| - 1
            ensures WaitsFor(s, rest[i], rest[i + 1])
          {
            assert WaitsFor(s, path[i + 1], path[i + 2]);
          }
        }
        PathAscends(s, rest);
        WaitsAscend(s, path[0], path[1]);
      }
    }
  }

  /** No chain of waiting transactions comes back to its start. */
  lemma {:induction false} NoWaitCycle(s: State, path: seq<TxId>)
    requires Inv(s) && |path| >= 2 && WaitPath(s, path)
    ensures path[0] != path[|path| - 1]
  {
    PathAscends(s, path);
  }

  function AwaitedAbove(s: State, id: ProductId): set<ProductId> {
    set other | other in s.locks && other > id
  }

  /** Every unfinished transaction can step, or waits, possibly through others, for one that can. */
  lemma {:induction false} SomeoneCanStep(s: State, t: TxId) returns (u: TxId)
    requires Inv(s) && t in s.txs && Unfinished(s.txs[t])
    ensures Enabled(s, Advance(u))
    decreases if Waiting(s, t) then |AwaitedAbove(s, NextTarget(s.txs[t]))| + 1 else 0
  {
    if Waiting(s, t) {
      var id := NextTarget(s.txs[t]);
      u := s.locks[id];
      assert Holds(s.locks, u, id);
      if Waiting(s, u) {
        WaitsAscend(s, t, u);
        var id' := NextTarget(s.txs[u]);
        assert id' in AwaitedAbove(s, id) && id' !in AwaitedAbove(s, id');
        SmallerSet(AwaitedAbove(s, id'), AwaitedAbove(s, id), id');
      }
      u := SomeoneCanStep(s, u);
    } else {
      u := t;
    }
  }

  lemma {:induction false} SmallerSet(a: set<ProductId>, b: set<ProductId>, x: ProductId)
    requires a <= b && x in b && x !in a
    ensures |a| < |b|
  {
    assert b == a + (b - a);
    assert x in b - a;
  }

  // ---- Termination

  /** An upper bound on the steps a transaction has left. */
  function Rank(tx: Tx): int {
    var n := |tx.lines|;
    match tx.phase
    case Locking => 3 * n + 3 - |tx.snapshots|
    case InsertingOrder => 2 * n + 3
    case WritingStock(i) => 2 * (n - i) + 2
    case InsertingItem(i) => 2 * (n - i) + 1
    case WritingEdit => 3
    case Committing => 2
    case RollingBack(_) => 1
    case Finished(_) => 0
  }

  lemma {:induction false} RankIsBound(tx: Tx)
    requires WellShaped(tx)
    ensures 0 <= Rank(tx) <= 3 * |tx.lines| + 3
    ensures Unfinished(tx) ==> Rank(tx) >= 1
  {
  }

  lemma {:induction false} WriteLowersRank(db: Db, tx: Tx)
    requires WellShaped(tx) && Unfinished(tx)
    requires !tx.phase.Locking? && !tx.phase.Committing? && !tx.phase.RollingBack?
    ensures Rank(WriteStep(db, tx)) < Rank(tx) && WriteStep(db, tx).lines == tx.lines
  {
  }

  lemma {:induction false} ReadLowersRank(tx: Tx, line: Line, row: Product)
    requires WellShaped(tx) && tx.phase.Locking?
    ensures Rank(AfterRead(tx, line, row)) < Rank(tx) && AfterRead(tx, line, row).lines == tx.lines
  {
  }

  lemma {:induction false} AdvanceLowersRank(s: State, t: TxId)
    requires Enabled(s, Advance(t))
    ensures t in Next(s, t).txs && Rank(Next(s, t).txs[t]) < Rank(s.txs[t])
    ensures Next(s, t).txs[t].lines == s.txs[t].lines
  {
    var tx := s.txs[t];
    if tx.phase.Locking? {
      if NextTarget(tx) in s.db.products {
        ReadLowersRank(tx, tx.lines[|tx.snapshots|], s.db.products[NextTarget(tx)]);
      }
    } else if !tx.phase.Committing? && !tx.phase.RollingBack? {
      WriteLowersRank(s.db, tx);
    }
  }

  /** An action changes the state of its own transaction only. */
  lemma {:induction false} ActsOnItsOwn(s: State, a: Action, t: TxId)
    requires Enabled(s, a) && t != a.tx
    ensures t in Apply(s, a).txs <==> t in s.txs
    ensures t in s.txs ==> Apply(s, a).txs[t] == s.txs[t]
  {
  }

  /** How often `t` itself acted in a run. */
  function StepsOf(actions: seq<Action>, t: TxId): nat {
    if actions == [] then 0
    else
      var a := actions[|actions| - 1];
      StepsOf(actions[..|actions| - 1], t) + if a == Advance(t) || a == Fail(t) then 1 else 0
  }

  lemma {:induction false} StepsBoundOneMore(s: State, a: Action, t: TxId)
    requires Enabled(s, a) && (a.Fail? ==> WellShaped(s.txs[a.tx]))
    ensures t !in s.txs && t in Apply(s, a).txs ==> Rank(Apply(s, a).txs[t]) == 3 * |Apply(s, a).txs[t].lines| + 3
    ensures t in s.txs ==>
      && t in Apply(s, a).txs
      && Apply(s, a).txs[t].lines == s.txs[t].lines
      && Rank(Apply(s, a).txs[t]) + (if a == Advance(t) || a == Fail(t) then 1 else 0) <= Rank(s.txs[t])
    ensures t !in s.txs ==> a != Advance(t) && a != Fail(t)
  {
    if t != a.tx {
      ActsOnItsOwn(s, a, t);
    } else if a.Advance? {
      AdvanceLowersRank(s, t);
    } else if a.Fail? {
      RankIsBound(s.txs[t]);
    }
  }

  predicate WithinBound(s: State, t: TxId, steps: nat) {
    if t in s.txs then steps + Rank(s.txs[t]) <= 3 * |s.txs[t].lines| + 3 else steps == 0
  }

  lemma {:induction false} BoundOneMore(s: State, a: Action, t: TxId, steps: nat)
    requires Inv(s) && Enabled(s, a) && WithinBound(s, t, steps)
    ensures WithinBound(Apply(s, a), t, steps + if a == Advance(t) || a == Fail(t) then 1 else 0)
  {
    StepsBoundOneMore(s, a, t);
  }

  lemma {:induction false} StepsWithinBound(db: Db, actions: seq<Action>, t: TxId)
    requires WellFormed(db) && Admissible(Initial(db), actions)
    ensures WithinBound(Execute(Initial(db), actions), t, StepsOf(actions, t))
    decreases |actions|
  {
    if actions == [] {
    } else {
      var front := actions[..|actions| - 1];
      StepsWithinBound(db, front, t);
      EveryRunIsSerializable(db, front);
      BoundOneMore(Execute(Initial(db), front), actions[|actions| - 1], t, StepsOf(front, t));
    }
  }

  /** A transaction over n products acts at most 3 n + 3 times. */
  lemma {:induction false} StepsAreBounded(db: Db, actions: seq<Action>, t: TxId)
    requires WellFormed(db) && Admissible(Initial(db), actions)
    requires t in Execute(Initial(db), actions).txs
    ensures StepsOf(actions, t) <= 3 * |Execute(Initial(db), actions).txs[t].lines| + 3
  {
    StepsWithinBound(db, actions, t);
    EveryRunIsSerializable(db, actions);
    var tx := Execute(Initial(db), actions).txs[t];
    if Unfinished(tx) {
      RankIsBound(tx);
    }
  }

  /** Deadlock freedom and termination: a run in which no transaction can act any more has finished them all,
      and none acted more than 3 n + 3 times. */
  lemma {:induction false} StuckMeansFinished(db: Db, actions: seq<Action>)
    requires WellFormed(db) && Admissible(Initial(db), actions)
    requires forall t :: !Enabled(Execute(Initial(db), actions), Advance(t))
    ensures forall t :: t in Execute(Initial(db), actions).txs ==>
      && Execute(Initial(db), actions).txs[t].phase.Finished?
      && StepsOf(actions, t) <= 3 * |Execute(Initial(db), actions).txs[t].lines| + 3
  {
    EveryRunIsSerializable(db, actions);
    var s := Execute(Initial(db), actions);
    forall t | t in s.txs
      ensures s.txs[t].phase.Finished? && StepsOf(actions, t) <= 3 * |s.txs[t].lines| + 3
    {
      StepsAreBounded(db, actions, t);
      if Unfinished(s.txs[t]) {
        var u := SomeoneCanStep(s, t);
        assert false;
      }
    }
  }
}
