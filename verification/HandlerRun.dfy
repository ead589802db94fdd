/** The handlers of a node as runs of the cluster: each does, in one critical section of its transaction, what a
    sequence of the cluster's actions does (include/transaction/transaction_manager_rpc.h,
    src/transaction/transaction_manager.cpp). */
module HandlerRuns {
  import opened Common
  import opened LockQueue
  import opened LockManager
  import opened Txn
  import opened Cluster
  import opened AtomicCommit
  import opened Histories
  import opened NodeLogs
  import opened NodeRecovery
  import opened LogChain
  import L = LogRecords
  import P = Participant

  /** The actions lead from one state to the other. */
  ghost predicate Path(s: State, actions: seq<Action>, s': State)
    decreases |actions|
  {
    if |actions| == 0 then s' == s else Enabled(s, actions[0]) && Path(Next(s, actions[0]), actions[1..], s')
  }

  /** All of them happen at one participant. */
  ghost predicate OnlyAt(actions: seq<Action>, n: NodeId, t: TxnId) {
    forall i :: 0 <= i < |actions| ==> !AtCoordinator(actions[i]) && PlaceOf(actions[i]) == (n, t)
  }

  /** The log `rs` of a node after the actions. */
  ghost function LogAfter(s: State, actions: seq<Action>, n: NodeId, rs: seq<L.LogRecord>): seq<L.LogRecord>
    decreases |actions|
  {
    if |actions| == 0 || !Enabled(s, actions[0]) then rs
    else LogAfter(Next(s, actions[0]), actions[1..], n, Appended(rs, LoggedAt(s, actions[0], n)))
  }

  lemma {:induction false} PathJoin(s: State, a: seq<Action>, m: State, b: seq<Action>, s': State, n: NodeId, rs: seq<L.LogRecord>)
    requires Path(s, a, m) && Path(m, b, s')
    ensures Path(s, a + b, s') && LogAfter(s, a + b, n, rs) == LogAfter(m, b, n, LogAfter(s, a, n, rs))
    decreases |a|
  {
    hide Enabled, Next, LoggedAt, Appended;
    if |a| == 0 {
      assert a + b == b;
    } else {
      assert (a + b)[1..] == a[1..] + b;
      PathJoin(Next(s, a[0]), a[1..], m, b, s', n, Appended(rs, LoggedAt(s, a[0], n)));
    }
  }

  /** One action is a path. */
  lemma OneStep(s: State, a: Action, n: NodeId, rs: seq<L.LogRecord>)
    requires Enabled(s, a)
    ensures Path(s, [a], Next(s, a)) && LogAfter(s, [a], n, rs) == Appended(rs, LoggedAt(s, a, n))
  {
    hide Enabled, Next, LoggedAt, Appended;
    assert [a][1..] == [];
  }

  // ---- releasing --------------------------------------------------------------------------------------

  ghost function Entries(sets: LockSets): set<((LockKind, LockMode), LockDataId)> {
    set k, id | k in sets && id in sets[k] :: (k, id)
  }

  lemma EraseShrinks(sets: LockSets, k: (LockKind, LockMode), id: LockDataId)
    requires KindsMatch(sets) && id in SetOf(sets, k)
    ensures Entries(EraseLock(sets, id)) < Entries(sets)
  {
    assert (k, id) in Entries(sets) && (k, id) !in Entries(EraseLock(sets, id));
  }

  /** The participant holds its locks as its lock sets say, and may let them go. */
  ghost predicate MayRelease(s: State, n: NodeId, t: TxnId) {
    && (n, t) in s.parts && s.parts[(n, t)].stage.Releasing?
    && InStep(TableAt(s, n), s.parts[(n, t)].view.sets, t)
  }

  /** Unlocking one item. */
  lemma UnlockStep(s: State, n: NodeId, t: TxnId, k: (LockKind, LockMode), id: LockDataId)
    requires MayRelease(s, n, t) && id in SetOf(s.parts[(n, t)].view.sets, k)
    ensures Enabled(s, UnlockItem(n, t, id))
    ensures var s' := Next(s, UnlockItem(n, t, id));
            && MayRelease(s', n, t) && s'.db == s.db && s'.parts[(n, t)].stage == s.parts[(n, t)].stage
            && s'.parts[(n, t)].view.sets == EraseLock(s.parts[(n, t)].view.sets, id)
            && (forall x, u :: u != t ==> Held(TableAt(s', n), x, u) == Held(TableAt(s, n), x, u))
            && LoggedAt(s, UnlockItem(n, t, id), n) == None
  {
    var (table, view) := (TableAt(s, n), s.parts[(n, t)].view);
    UnlockOnEffect(table, view, t, id);
    UnlockOnKeepsInStep(table, view, t, id);
    assert UnlockOn(table, view, t, id).1.sets == EraseLock(view.sets, id);
    hide UnlockOn, LockOn, InStep, Held, EraseLock, AccessEffect, UndoEffect;
  }

  lemma FinishStep(s: State, n: NodeId, t: TxnId)
    requires MayRelease(s, n, t) && forall k :: SetOf(s.parts[(n, t)].view.sets, k) == {}
    ensures Enabled(s, Finish(n, t))
    ensures var s' := Next(s, Finish(n, t));
            && s'.db == s.db && TableAt(s', n) == TableAt(s, n) && LoggedAt(s, Finish(n, t), n) == None
            && (n, t) in s'.parts && s'.parts[(n, t)].stage == Ended(s.parts[(n, t)].stage.outcome)
            && forall id :: Held(TableAt(s, n), id, t).None?
  {
    NothingHeld(TableAt(s, n), s.parts[(n, t)].view.sets, t);
    hide UnlockOn, LockOn, InStep, Held, AccessEffect, UndoEffect;
  }

  lemma {:induction false} ReleaseRun(s: State, n: NodeId, t: TxnId, rs: seq<L.LogRecord>)
    returns (actions: seq<Action>, s': State)
    requires MayRelease(s, n, t)
    ensures Path(s, actions, s') && LogAfter(s, actions, n, rs) == rs && OnlyAt(actions, n, t)
    ensures P.Released(TableAt(s, n), TableAt(s', n), t) && s'.db == s.db
    ensures (n, t) in s'.parts && s'.parts[(n, t)].stage == Ended(s.parts[(n, t)].stage.outcome)
    decreases Entries(s.parts[(n, t)].view.sets)
  {
    hide Enabled, Next, LoggedAt, Held, TableInv, Covered, KindsMatch, SetOf, EraseLock, Path, LogAfter;
    var sets := s.parts[(n, t)].view.sets;
    if k, id :| id in SetOf(sets, k) {
      var a := UnlockItem(n, t, id);
      UnlockStep(s, n, t, k, id);
      EraseShrinks(sets, k, id);
      var rest;
      rest, s' := ReleaseRun(Next(s, a), n, t, rs);
      actions := [a] + rest;
      OneStep(s, a, n, rs);
      PathJoin(s, [a], Next(s, a), rest, s', n, rs);
    } else {
      FinishStep(s, n, t);
      actions, s' := [Finish(n, t)], Next(s, Finish(n, t));
      OneStep(s, Finish(n, t), n, rs);
    }
  }

  // ---- rolling back -----------------------------------------------------------------------------------

  /** The participant is rolling back, and its locks are as its lock sets say. */
  ghost predicate RollsBack(s: State, n: NodeId, t: TxnId) {
    && (n, t) in s.parts && s.parts[(n, t)].stage == Undoing
    && InStep(TableAt(s, n), s.parts[(n, t)].view.sets, t)
  }

  lemma UndoStep(s: State, n: NodeId, t: TxnId, rs: seq<L.LogRecord>)
    requires RollsBack(s, n, t) && s.parts[(n, t)].writes != []
    ensures Enabled(s, UndoOne(n, t))
    ensures var (s', ws) := (Next(s, UndoOne(n, t)), s.parts[(n, t)].writes);
            && RollsBack(s', n, t) && TableAt(s', n) == TableAt(s, n)
            && s'.parts[(n, t)].writes == ws[..|ws| - 1] && s'.db == UndoEffect(s.db, ws[|ws| - 1])
            && LoggedAt(s, UndoOne(n, t), n) == For(t, UndoOp(s.db, ws[|ws| - 1]))
  {
    hide UnlockOn, LockOn, InStep, AccessEffect, UndoEffect, UndoOp;
  }

  /** Logging by the rollback and by the cluster is the same: both link to the transaction's last record. */
  lemma RollbackLogs(db: map<Key, Value>, ws: seq<WriteRecord>, rs: seq<L.LogRecord>, t: TxnId)
    requires |ws| > 0
    ensures var rs' := Appended(rs, For(t, UndoOp(db, ws[|ws| - 1])));
            RollbackLog(db, ws, rs, t, LastOf(L.Links(rs), t)) ==
            RollbackLog(UndoEffect(db, ws[|ws| - 1]), ws[..|ws| - 1], rs', t, LastOf(L.Links(rs'), t))
  {
    hide UndoOp, UndoEffect, LastOf;
    match UndoOp(db, ws[|ws| - 1])
    case Some(op) => L.LinksSnoc(rs, L.LogRecord(|rs|, t, LastOf(L.Links(rs), t), op));
    case None =>
  }

  lemma NothingToUndo(s: State, n: NodeId, t: TxnId, rs: seq<L.LogRecord>)
    ensures Path(s, [], s) && LogAfter(s, [], n, rs) == rs
    ensures RollbackLog(s.db, [], rs, t, LastOf(L.Links(rs), t)) == (rs, LastOf(L.Links(rs), t))
    ensures forall k :: RolledBack([], k, Look(s.db, k)) == Look(s.db, k)
  {
  }

  lemma RolledBackByOne(db: map<Key, Value>, ws: seq<WriteRecord>, k: Key)
    requires |ws| > 0
    ensures RolledBack(ws, k, Look(db, k)) == RolledBack(ws[..|ws| - 1], k, Look(UndoEffect(db, ws[|ws| - 1]), k))
  {
  }

  lemma {:induction false} UndoRun(s: State, n: NodeId, t: TxnId, rs: seq<L.LogRecord>)
    returns (actions: seq<Action>, s': State)
    requires RollsBack(s, n, t)
    ensures Path(s, actions, s') && RollsBack(s', n, t) && s'.parts[(n, t)].writes == [] && TableAt(s', n) == TableAt(s, n)
    ensures OnlyAt(actions, n, t)
    ensures forall k :: Look(s'.db, k) == RolledBack(s.parts[(n, t)].writes, k, Look(s.db, k))
    ensures var logged := LogAfter(s, actions, n, rs);
            RollbackLog(s.db, s.parts[(n, t)].writes, rs, t, LastOf(L.Links(rs), t)) == (logged, LastOf(L.Links(logged), t))
    decreases |s.parts[(n, t)].writes|
  {
    hide Enabled, Next, LoggedAt, InStep, UndoOp, UndoEffect, LastOf, Appended, RollbackLog, RolledBack, Path, LogAfter;
    var ws := s.parts[(n, t)].writes;
    if ws == [] {
      actions, s' := [], s;
      NothingToUndo(s, n, t, rs);
    } else {
      var a := UndoOne(n, t);
      UndoStep(s, n, t, rs);
      RollbackLogs(s.db, ws, rs, t);
      OneStep(s, a, n, rs);
      var rest;
      rest, s' := UndoRun(Next(s, a), n, t, Appended(rs, LoggedAt(s, a, n)));
      actions := [a] + rest;
      PathJoin(s, [a], Next(s, a), rest, s', n, rs);
      forall k
        ensures Look(s'.db, k) == RolledBack(ws, k, Look(s.db, k))
      {
        RolledBackByOne(s.db, ws, k);
      }
    }
  }

  // ---- the handlers -----------------------------------------------------------------------------------

  lemma DeliverAbortStep(s: State, n: NodeId, t: TxnId)
    requires Enabled(s, DeliverAbort(n, t)) && InStep(TableAt(s, n), s.parts[(n, t)].view.sets, t)
    ensures var s' := Next(s, DeliverAbort(n, t));
            && RollsBack(s', n, t) && s'.parts[(n, t)].writes == s.parts[(n, t)].writes && s'.db == s.db
            && TableAt(s', n) == TableAt(s, n) && LoggedAt(s, DeliverAbort(n, t), n) == None
  {
    hide UnlockOn, LockOn, InStep, AccessEffect, UndoEffect;
  }

  lemma FinishUndoStep(s: State, n: NodeId, t: TxnId)
    requires RollsBack(s, n, t) && s.parts[(n, t)].writes == []
    ensures Enabled(s, FinishUndo(n, t))
    ensures var s' := Next(s, FinishUndo(n, t));
            && MayRelease(s', n, t) && s'.parts[(n, t)].stage == Releasing(Abort) && s'.db == s.db
            && TableAt(s', n) == TableAt(s, n) && LoggedAt(s, FinishUndo(n, t), n) == Some((t, L.Abort))
  {
    hide UnlockOn, LockOn, InStep, AccessEffect, UndoEffect;
  }

  /** The abort handler: one delivery, the steps of the rollback, its end, the unlocking of every item and the finish are
      actions of the cluster, and together they do to the store, the log and the locks what the handler ensures. */
  lemma AbortRun(s: State, n: NodeId, t: TxnId, rs: seq<L.LogRecord>) returns (actions: seq<Action>, s': State)
    requires Enabled(s, DeliverAbort(n, t)) && InStep(TableAt(s, n), s.parts[(n, t)].view.sets, t)
    ensures Path(s, actions, s') && (n, t) in s'.parts && s'.parts[(n, t)].stage == Ended(Abort) && OnlyAt(actions, n, t)
    ensures P.Aborts(t, LastOf(L.Links(rs), t), s.parts[(n, t)].writes, s.db, rs, TableAt(s, n),
                     s'.db, LogAfter(s, actions, n, rs), TableAt(s', n))
  {
    hide Enabled, Next, LoggedAt, InStep, UndoOp, UndoEffect, LastOf, RollbackLog, RolledBack, Path, LogAfter, Held;
    var (a, b) := (DeliverAbort(n, t), FinishUndo(n, t));
    DeliverAbortStep(s, n, t);
    OneStep(s, a, n, rs);
    var s1 := Next(s, a);
    var undo, s2 := UndoRun(s1, n, t, rs);
    PathJoin(s, [a], s1, undo, s2, n, rs);
    FinishUndoStep(s2, n, t);
    var logged := LogAfter(s1, undo, n, rs);
    OneStep(s2, b, n, logged);
    var s3 := Next(s2, b);
    PathJoin(s, [a] + undo, s2, [b], s3, n, rs);
    var release;
    release, s' := ReleaseRun(s3, n, t, Appended(logged, Some((t, L.Abort))));
    actions := [a] + undo + [b] + release;
    PathJoin(s, [a] + undo + [b], s3, release, s', n, rs);
  }

  lemma DeliverCommitStep(s: State, n: NodeId, t: TxnId)
    requires Enabled(s, DeliverCommit(n, t)) && InStep(TableAt(s, n), s.parts[(n, t)].view.sets, t)
    requires s.parts[(n, t)].view.state != Aborted
    ensures var s' := Next(s, DeliverCommit(n, t));
            && MayRelease(s', n, t) && s'.parts[(n, t)].stage == Releasing(Commit) && s'.db == s.db
            && TableAt(s', n) == TableAt(s, n) && LoggedAt(s, DeliverCommit(n, t), n) == Some((t, L.Commit))
  {
    hide UnlockOn, LockOn, InStep, AccessEffect, UndoEffect;
  }

  /** The commit handler, of a transaction that has not aborted. */
  lemma CommitRun(s: State, n: NodeId, t: TxnId, rs: seq<L.LogRecord>) returns (actions: seq<Action>, s': State)
    requires Enabled(s, DeliverCommit(n, t)) && InStep(TableAt(s, n), s.parts[(n, t)].view.sets, t)
    requires s.parts[(n, t)].view.state != Aborted
    ensures Path(s, actions, s') && (n, t) in s'.parts && s'.parts[(n, t)].stage == Ended(Commit) && s'.db == s.db
    ensures OnlyAt(actions, n, t)
    ensures P.Commits(t, LastOf(L.Links(rs), t), rs, TableAt(s, n), LogAfter(s, actions, n, rs), TableAt(s', n))
  {
    hide Enabled, Next, LoggedAt, InStep, LastOf, Path, LogAfter, Held;
    var a := DeliverCommit(n, t);
    DeliverCommitStep(s, n, t);
    OneStep(s, a, n, rs);
    var s1 := Next(s, a);
    var release;
    release, s' := ReleaseRun(s1, n, t, Appended(rs, Some((t, L.Commit))));
    actions := [a] + release;
    PathJoin(s, [a], s1, release, s', n, rs);
  }

  /** The prepare handler is one action: it answers yes, prepares and logs as the handler ensures, or changes
      nothing. */
  lemma PrepareRun(s: State, n: NodeId, t: TxnId, rs: seq<L.LogRecord>)
    requires Enabled(s, Prepare(n, t))
    ensures var (s', state) := (Next(s, Prepare(n, t)), s.parts[(n, t)].view.state);
            && (state == Aborted ==> s' == s)
            && (state != Aborted ==> Message(YesMsg, n, t) in s'.msgs && s'.parts[(n, t)].view.state == Prepared)
            && Appended(rs, LoggedAt(s, Prepare(n, t), n)) ==
               if state in {Aborted, Prepared} then rs else Logged(rs, t, LastOf(L.Links(rs), t), L.Prepared)
  {
    hide UnlockOn, LockOn, AccessEffect, UndoEffect, LastOf;
  }
}
