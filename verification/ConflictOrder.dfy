/** Conflict serializability: in every run of the cluster the order of the commit decisions orders
    all conflicting accesses of committed transactions. */
module ConflictOrder {
  import opened Common
  import opened LockQueue
  import opened LockManager
  import opened Txn
  import opened Cluster
  import opened AtomicCommit
  import opened LockSafety

  /** The participant can still vote yes or commit. */
  predicate Live(s: State, n: NodeId, t: TxnId) {
    RunningAt(s, n, t) && s.parts[(n, t)].view.state != Aborted
  }

  /** Does holding `held` on the row of a key protect an access `op` to the key? */
  predicate Protects(held: Option<LockMode>, op: Op) {
    held == Some(Exclusive) || (held == Some(Shared) && op.Get?)
  }

  /** Strict two-phase locking: a live participant still holds the lock of everything it accessed. */
  ghost predicate TwoPhase(s: State) {
    forall e :: e in s.history ==>
      && (e.key.node, e.txn) in s.parts
      && (Live(s, e.key.node, e.txn) ==> Protects(HeldAt(s, e.key.node, RowLock(e.key), e.txn), e.op))
  }

  predicate DeadAt(s: State, n: NodeId, t: TxnId) {
    (n, t) in s.parts && (Aborting(s.parts[(n, t)]) || (RunningAt(s, n, t) && !Live(s, n, t)))
  }

  /** The transaction can no longer commit anywhere. */
  ghost predicate Gone(s: State, t: TxnId) {
    && t in s.coords
    && ((s.coords[t].distributed && s.coords[t].phase == SaidAbort) || exists n :: DeadAt(s, n, t))
  }

  predicate Conflict(e: Event, f: Event) {
    e.key == f.key && e.txn != f.txn && (!e.op.Get? || !f.op.Get?)
  }

  /** `a` is decided, and `b` is not decided before it. */
  ghost predicate Precedes(ds: seq<TxnId>, a: TxnId, b: TxnId) {
    exists p :: 0 <= p < |ds| && ds[p] == a && b !in ds[..p]
  }

  ghost predicate ConflictsOrdered(s: State) {
    forall i, j :: 0 <= i < j < |s.history| && Conflict(s.history[i], s.history[j]) ==>
      Gone(s, s.history[i].txn) || Precedes(s.decisions, s.history[i].txn, s.history[j].txn)
  }

  // ---------------------------------------------------------------------------

  lemma HistoryMoves(s: State, a: Action)
    requires Enabled(s, a)
    ensures if a.Access? then
              Next(s, a).history == s.history + [Event(a.t, a.key, AccessEffect(s.db, s.parts[(a.key.node, a.t)].writes, a.key, a.request).2)]
            else Next(s, a).history == s.history
    ensures a.Access? ==> Next(s, a).decisions == s.decisions && Live(Next(s, a), a.key.node, a.t)
  {
    hide LockOn, UnlockOn, AccessEffect, UndoEffect;
  }

  lemma DeadStage(s: State, a: Action, n: NodeId, t: TxnId)
    requires Enabled(s, a) && (n, t) in s.parts && RunningAt(s, n, t) && s.parts[(n, t)].view.state == Aborted
    ensures (n, t) in Next(s, a).parts
    ensures RunningAt(Next(s, a), n, t) || Aborting(Next(s, a).parts[(n, t)])
  {
    if AtCoordinator(a) {
      hide Next;
      CoordinatorFrame(s, a);
    } else if PlaceOf(a) != (n, t) {
      hide Next;
      ParticipantFrame(s, a);
    } else {
      hide LockOn, UnlockOn, AccessEffect, UndoEffect;
    }
  }

  /** Once a participant is not live it stays so. */
  lemma LiveMoves(s: State, a: Action, n: NodeId, t: TxnId)
    requires Enabled(s, a) && (n, t) in s.parts
    ensures (n, t) in Next(s, a).parts
    ensures Live(Next(s, a), n, t) ==> Live(s, n, t)
    ensures DeadAt(s, n, t) ==> DeadAt(Next(s, a), n, t)
    ensures Live(Next(s, a), n, t) && a.LockItem? && a.n == n && a.t == t ==>
              LockOn(TableAt(s, n), s.parts[(n, t)].view, t, a.id, a.mode).1.state != Aborted
  {
    ViewMoves(s, a, n, t);
    PartMoves(s, a, n, t);
    if RunningAt(s, n, t) && s.parts[(n, t)].view.state == Aborted {
      DeadStage(s, a, n, t);
    }
    hide Next, UnlockOn;
  }

  /** A participant that stays live loses none of its protection. */
  lemma OldEventProtected(s: State, a: Action, e: Event)
    requires LockInv(s) && TwoPhase(s) && Enabled(s, a) && e in s.history
    ensures (e.key.node, e.txn) in Next(s, a).parts
    ensures Live(Next(s, a), e.key.node, e.txn) ==>
              Protects(HeldAt(Next(s, a), e.key.node, RowLock(e.key), e.txn), e.op)
  {
    hide Next, LockInv, HeldAt, LockOn, UnlockOn;
    LiveMoves(s, a, e.key.node, e.txn);
    HeldMoves(s, a);
  }

  lemma AccessOpKind(db: map<Key, Value>, writes: seq<WriteRecord>, key: Key, request: Request)
    ensures AccessEffect(db, writes, key, request).2.Get? <==> request.DoGet?
  {
  }

  lemma TwoPhaseKept(s: State, a: Action)
    requires LockInv(s) && TwoPhase(s) && Enabled(s, a)
    ensures TwoPhase(Next(s, a))
  {
    hide Next, LockInv, LockOn, UnlockOn, AccessEffect;
    HistoryMoves(s, a);
    forall e | e in Next(s, a).history
      ensures (e.key.node, e.txn) in Next(s, a).parts
      ensures Live(Next(s, a), e.key.node, e.txn) ==>
                Protects(HeldAt(Next(s, a), e.key.node, RowLock(e.key), e.txn), e.op)
    {
      if e in s.history {
        OldEventProtected(s, a, e);
      } else {
        AccessOpKind(s.db, s.parts[(a.key.node, a.t)].writes, a.key, a.request);
        HeldMoves(s, a);
      }
    }
  }

  lemma GoneKept(s: State, a: Action, t: TxnId)
    requires Enabled(s, a) && Gone(s, t)
    ensures Gone(Next(s, a), t)
  {
    hide Next;
    CoordsMove(s, a);
    if n :| DeadAt(s, n, t) {
      LiveMoves(s, a, n, t);
    }
  }

  /** A transaction that is gone somewhere was decided nowhere. */
  lemma GoneIsUndecided(s: State, t: TxnId)
    requires ProtocolInv(s) && Gone(s, t)
    ensures t !in s.decisions
  {
  }

  /** A participant that is not live belongs to a transaction that is decided or gone. */
  lemma NotLive(s: State, n: NodeId, t: TxnId)
    requires ProtocolInv(s) && (n, t) in s.parts && !Live(s, n, t)
    ensures t in s.decisions || Gone(s, t)
  {
    assert PartOk(s, n, t);
    assert Committing(s.parts[(n, t)]) || DeadAt(s, n, t);
  }

  /** A transaction that may still access data is undecided. */
  lemma WorkingIsUndecided(s: State, n: NodeId, t: TxnId)
    requires ProtocolInv(s) && RunningAt(s, n, t) && InPhase(s, t, Working)
    ensures t !in s.decisions
  {
    assert PartOk(s, n, t);
    assert t in s.decisions ==> DecisionOk(s, t);
  }

  /** An earlier conflicting access was made by a transaction that is already decided or gone. */
  lemma EarlierConflictIsSettled(s: State, a: Action, e: Event)
    requires ProtocolInv(s) && LockInv(s) && TwoPhase(s) && Enabled(s, a) && a.Access? && e in s.history
    requires e.key == a.key && e.txn != a.t && (!e.op.Get? || !a.request.DoGet?)
    ensures e.txn in s.decisions || Gone(s, e.txn)
  {
    var n, id := a.key.node, RowLock(a.key);
    assert (n, e.txn) in s.parts;
    if Live(s, n, e.txn) {
      assert TableInv(TableAt(s, n));
      assert id in TableAt(s, n);
      HoldersAreCompatible(QueueOf(TableAt(s, n), id), e.txn, a.t);
      assert false;
    }
    NotLive(s, n, e.txn);
  }

  lemma PrecedesNewcomer(ds: seq<TxnId>, t: TxnId, u: TxnId)
    requires t in ds && u !in ds
    ensures Precedes(ds, t, u)
  {
    var p :| 0 <= p < |ds| && ds[p] == t;
    assert u !in ds[..p];
  }

  lemma PrecedesKept(ds: seq<TxnId>, ds': seq<TxnId>, t: TxnId, u: TxnId)
    requires Precedes(ds, t, u) && ds <= ds'
    ensures Precedes(ds', t, u)
  {
    var p :| 0 <= p < |ds| && ds[p] == t && u !in ds[..p];
    assert ds'[..p] == ds[..p] && ds'[p] == t;
  }

  lemma ConflictsOrderedKept(s: State, a: Action)
    requires ProtocolInv(s) && LockInv(s) && TwoPhase(s) && ConflictsOrdered(s) && Enabled(s, a)
    ensures ConflictsOrdered(Next(s, a))
  {
    hide Next;
    HistoryMoves(s, a);
    DecisionGrowth(s, a);
    hide LockOn, UnlockOn, AccessEffect, UndoEffect;
    var h' := Next(s, a).history;
    forall i, j | 0 <= i < j < |h'| && Conflict(h'[i], h'[j])
      ensures Gone(Next(s, a), h'[i].txn) || Precedes(Next(s, a).decisions, h'[i].txn, h'[j].txn)
    {
      assert h'[i] == s.history[i];
      if j == |s.history| {
        AccessOpKind(s.db, s.parts[(a.key.node, a.t)].writes, a.key, a.request);
        EarlierConflictIsSettled(s, a, h'[i]);
        WorkingIsUndecided(s, a.key.node, a.t);
        if h'[i].txn in s.decisions { PrecedesNewcomer(s.decisions, h'[i].txn, a.t); }
      } else {
        assert h'[j] == s.history[j];
      }
      if Gone(s, h'[i].txn) {
        GoneKept(s, a, h'[i].txn);
      } else {
        PrecedesKept(s.decisions, Next(s, a).decisions, h'[i].txn, h'[j].txn);
      }
    }
  }

  ghost predicate OrderInv(s: State) {
    CommitInv(s) && LockInv(s) && TwoPhase(s) && ConflictsOrdered(s)
  }

  lemma CommitGivesProtocol(s: State)
    requires CommitInv(s)
    ensures ProtocolInv(s)
  {
  }

  lemma OrderInvKept(s: State, a: Action)
    requires OrderInv(s) && Enabled(s, a)
    ensures OrderInv(Next(s, a))
  {
    hide Next, Enabled, CommitInv, LockInv, TwoPhase, ConflictsOrdered;
    CommitInvKept(s, a);
    LockInvKept(s, a);
    TwoPhaseKept(s, a);
    assert ProtocolInv(s) by { CommitGivesProtocol(s); }
    ConflictsOrderedKept(s, a);
  }

  lemma {:induction false} OrderInvHolds(db: map<Key, Value>, states: seq<State>, actions: seq<Action>, i: nat)
    requires IsRun(db, states, actions) && i < |states|
    ensures OrderInv(states[i])
  {
    if i > 0 {
      hide OrderInv, Next, Enabled;
      OrderInvHolds(db, states, actions, i - 1);
      OrderInvKept(states[i - 1], actions[i - 1]);
    }
  }

  /** The conflict graph of the committed transactions. */
  ghost predicate ConflictEdge(s: State, t: TxnId, u: TxnId) {
    && t in s.decisions && u in s.decisions
    && exists i, j :: 0 <= i < j < |s.history| && Conflict(s.history[i], s.history[j])
                      && s.history[i].txn == t && s.history[j].txn == u
  }

  /** Position of the decision of `t`, or |ds| when it is undecided. */
  function Position(ds: seq<TxnId>, t: TxnId): (p: nat)
    ensures p <= |ds| && (p < |ds| ==> ds[p] == t)
    ensures forall j :: 0 <= j < p ==> ds[j] != t
  {
    if |ds| == 0 then 0 else if ds[0] == t then 0 else 1 + Position(ds[1..], t)
  }

  lemma PrecedesByPosition(ds: seq<TxnId>, t: TxnId, u: TxnId)
    requires Precedes(ds, t, u) && t != u
    ensures Position(ds, t) < Position(ds, u)
  {
    var p :| 0 <= p < |ds| && ds[p] == t && u !in ds[..p];
    assert forall j :: 0 <= j < p ==> ds[..p][j] == ds[j];
  }

  lemma EdgePrecedes(s: State, t: TxnId, u: TxnId)
    requires OrderInv(s) && ConflictEdge(s, t, u)
    ensures t != u && Precedes(s.decisions, t, u)
  {
    hide ProtocolInv, LockInv, TwoPhase, Gone, Precedes;
    var j, k :| 0 <= j < k < |s.history| && Conflict(s.history[j], s.history[k]) && s.history[j].txn == t && s.history[k].txn == u;
    if Gone(s, t) {
      GoneIsUndecided(s, t);
    }
  }

  /** The decision order is a topological order of the conflict graph, for any number of nodes and
      any interleaving of lock calls, accesses, prepares, decisions, commits, aborts and unlocks. */
  lemma DecisionOrderIsSerial(db: map<Key, Value>, states: seq<State>, actions: seq<Action>, i: nat, t: TxnId, u: TxnId)
    requires IsRun(db, states, actions) && i < |states| && ConflictEdge(states[i], t, u)
    ensures Position(states[i].decisions, t) < Position(states[i].decisions, u)
  {
    OrderInvHolds(db, states, actions, i);
    EdgePrecedes(states[i], t, u);
    PrecedesByPosition(states[i].decisions, t, u);
  }

  /** Conflict serializability: the conflict graph of the committed transactions has no cycle. */
  lemma {:induction false} ConflictGraphIsAcyclic(
      db: map<Key, Value>, states: seq<State>, actions: seq<Action>, i: nat, path: seq<TxnId>)
    requires IsRun(db, states, actions) && i < |states| && |path| >= 2
    requires forall k :: 0 <= k < |path| - 1 ==> ConflictEdge(states[i], path[k], path[k + 1])
    ensures Position(states[i].decisions, path[0]) < Position(states[i].decisions, path[|path| - 1])
    ensures path[0] != path[|path| - 1]
  {
    var last := |path| - 1;
    DecisionOrderIsSerial(db, states, actions, i, path[last - 1], path[last]);
    if last > 1 {
      var front := path[..last];
      forall k | 0 <= k < |front| - 1
        ensures ConflictEdge(states[i], front[k], front[k + 1])
      {
        assert ConflictEdge(states[i], path[k], path[k + 1]);
      }
      ConflictGraphIsAcyclic(db, states, actions, i, front);
    }
  }
}
