/** What the lock tables of the cluster keep in every run, and strict two-phase locking: a
    participant that can still commit holds a lock on everything it has accessed. */
module LockSafety {
  import opened Common
  import opened LockQueue
  import opened LockManager
  import opened Txn
  import opened Cluster
  import opened AtomicCommit

  ghost predicate PartCovered(s: State, n: NodeId, t: TxnId)
    requires (n, t) in s.parts
  {
    var view := s.parts[(n, t)].view;
    Covered(TableAt(s, n), view.sets, t) && Backed(TableAt(s, n), view, t)
  }

  /** Queues are safe, lock sets cover the lock tables, and only live participants hold locks. */
  ghost predicate LockInv(s: State) {
    && (forall n :: TableInv(TableAt(s, n)))
    && (forall n, t :: (n, t) in s.parts ==> PartCovered(s, n, t))
    && (forall n, id, t: TxnId :: HeldAt(s, n, id, t).Some? ==> (n, t) in s.parts && !s.parts[(n, t)].stage.Ended?)
  }

  /** Only lock and unlock calls change a lock table. */
  lemma TablesMove(s: State, a: Action)
    requires Enabled(s, a)
    ensures a.LockItem? ==> Next(s, a).tables == s.tables[a.n := LockOn(TableAt(s, a.n), s.parts[(a.n, a.t)].view, a.t, a.id, a.mode).0]
    ensures a.UnlockItem? ==> Next(s, a).tables == s.tables[a.n := UnlockOn(TableAt(s, a.n), s.parts[(a.n, a.t)].view, a.t, a.id).0]
    ensures !a.LockItem? && !a.UnlockItem? ==> Next(s, a).tables == s.tables
  {
    hide LockOn, UnlockOn, AccessEffect, UndoEffect;
  }

  /** What an action other than a lock or unlock call may do to the view of a participant. */
  predicate ViewMoved(v: TxnView, v': TxnView) {
    && v'.sets == v.sets
    && (v'.state == v.state || (v.state != Aborted && v'.state == Prepared) || v'.state == Committed)
  }

  lemma LockCallViews(s: State, a: Action)
    requires Enabled(s, a) && (a.LockItem? || a.UnlockItem?)
    ensures (a.n, a.t) in s.parts && (a.n, a.t) in Next(s, a).parts
    ensures var (v, v') := (s.parts[(a.n, a.t)].view, Next(s, a).parts[(a.n, a.t)].view);
            && v' == (if a.LockItem? then LockOn(TableAt(s, a.n), v, a.t, a.id, a.mode).1 else UnlockOn(TableAt(s, a.n), v, a.t, a.id).1)
            && (v'.state == Committed ==> v.state == Committed)
  {
    hide AccessEffect, UndoEffect;
  }

  lemma OtherViews(s: State, a: Action)
    requires Enabled(s, a) && !AtCoordinator(a) && !a.LockItem? && !a.UnlockItem? && PlaceOf(a) in s.parts
    ensures PlaceOf(a) in Next(s, a).parts
    ensures ViewMoved(s.parts[PlaceOf(a)].view, Next(s, a).parts[PlaceOf(a)].view)
    ensures Next(s, a).parts[PlaceOf(a)].view.state == Committed && s.parts[PlaceOf(a)].view.state != Committed ==> a.Finish?
  {
    hide LockOn, UnlockOn, AccessEffect, UndoEffect;
  }

  /** How the view of a participant moves. */
  lemma ViewMoves(s: State, a: Action, n: NodeId, t: TxnId)
    requires Enabled(s, a) && (n, t) in s.parts
    ensures (n, t) in Next(s, a).parts
    ensures var (v, v') := (s.parts[(n, t)].view, Next(s, a).parts[(n, t)].view);
            if a.LockItem? && a.n == n && a.t == t then v' == LockOn(TableAt(s, n), v, t, a.id, a.mode).1
            else if a.UnlockItem? && a.n == n && a.t == t then v' == UnlockOn(TableAt(s, n), v, t, a.id).1
            else ViewMoved(v, v')
    ensures Next(s, a).parts[(n, t)].view.state == Committed && s.parts[(n, t)].view.state != Committed ==> a == Finish(n, t)
  {
    hide Next, Enabled, LockOn, UnlockOn;
    if AtCoordinator(a) {
      CoordinatorFrame(s, a);
    } else {
      ParticipantFrame(s, a);
      if PlaceOf(a) == (n, t) {
        if a.LockItem? || a.UnlockItem? { LockCallViews(s, a); } else { OtherViews(s, a); }
      }
    }
  }

  /** What a lock call gives its caller on its item. */
  ghost predicate LockAnswer(a: Action, v: TxnView, v': TxnView, before: Option<LockMode>, after: Option<LockMode>)
    requires a.LockItem?
  {
    if v'.state == Aborted then after == before || (after.None? && before != Some(Exclusive))
    else && after == Some(a.mode) && (before.None? || before.value == a.mode || Upgradable(before.value, a.mode))
         && (a.id.Row? ==> a.mode in {Shared, Exclusive})
         && v.state in {Default, Growing}
  }

  lemma LockMoves(s: State, a: Action)
    requires LockInv(s) && Enabled(s, a) && a.LockItem?
    ensures TableInv(TableAt(Next(s, a), a.n))
    ensures forall n, id, t :: !(a.n == n && a.id == id && a.t == t) ==> HeldAt(Next(s, a), n, id, t) == HeldAt(s, n, id, t)
    ensures var v' := LockOn(TableAt(s, a.n), s.parts[(a.n, a.t)].view, a.t, a.id, a.mode).1;
            LockAnswer(a, s.parts[(a.n, a.t)].view, v', HeldAt(s, a.n, a.id, a.t), HeldAt(Next(s, a), a.n, a.id, a.t))
  {
    TablesMove(s, a);
    hide Next;
    assert TableInv(TableAt(s, a.n));
    LockOnEffect(TableAt(s, a.n), s.parts[(a.n, a.t)].view, a.t, a.id, a.mode);
    hide LockOn, Held;
  }

  lemma UnlockMoves(s: State, a: Action)
    requires LockInv(s) && Enabled(s, a) && a.UnlockItem?
    ensures TableInv(TableAt(Next(s, a), a.n))
    ensures forall n, id, t :: !(a.n == n && a.id == id && a.t == t) ==> HeldAt(Next(s, a), n, id, t) == HeldAt(s, n, id, t)
    ensures HeldAt(Next(s, a), a.n, a.id, a.t).None?
  {
    TablesMove(s, a);
    hide Next;
    assert TableInv(TableAt(s, a.n));
    UnlockOnEffect(TableAt(s, a.n), s.parts[(a.n, a.t)].view, a.t, a.id);
    hide UnlockOn, Held;
  }

  /** A lock call changes what its caller holds on its item, and nothing else. */
  lemma HeldMoves(s: State, a: Action)
    requires LockInv(s) && Enabled(s, a)
    ensures forall n :: TableInv(TableAt(Next(s, a), n))
    ensures forall n, id, t :: !((a.LockItem? || a.UnlockItem?) && a.n == n && a.id == id && a.t == t)
              ==> HeldAt(Next(s, a), n, id, t) == HeldAt(s, n, id, t)
    ensures a.UnlockItem? ==> HeldAt(Next(s, a), a.n, a.id, a.t).None?
    ensures a.LockItem? ==>
              var v' := LockOn(TableAt(s, a.n), s.parts[(a.n, a.t)].view, a.t, a.id, a.mode).1;
              LockAnswer(a, s.parts[(a.n, a.t)].view, v', HeldAt(s, a.n, a.id, a.t), HeldAt(Next(s, a), a.n, a.id, a.t))
  {
    hide Next, Held, LockOn, UnlockOn, LockAnswer, TableInv;
    TablesMove(s, a);
    if a.LockItem? {
      LockMoves(s, a);
    } else if a.UnlockItem? {
      UnlockMoves(s, a);
    }
    forall n
      ensures TableInv(TableAt(Next(s, a), n))
    {
      assert TableInv(TableAt(s, n));
    }
  }

  /** Cover only depends on the grants of the transaction, its lock sets and whether it aborted. */
  lemma CoverFrame(table: LockTable, table': LockTable, v: TxnView, v': TxnView, t: TxnId)
    requires Covered(table, v.sets, t) && Backed(table, v, t)
    requires forall id :: Held(table', id, t) == Held(table, id, t)
    requires v'.sets == v.sets
    requires v.state == Aborted ==> v'.state == Aborted || forall k :: SetOf(v.sets, k) == {}
    ensures Covered(table', v'.sets, t) && Backed(table', v', t)
  {
  }

  lemma PartCoveredKept(s: State, a: Action, n: NodeId, t: TxnId)
    requires LockInv(s) && Enabled(s, a) && (n, t) in s.parts
    ensures (n, t) in Next(s, a).parts && PartCovered(Next(s, a), n, t)
  {
    hide Next, Held, Covered, Backed;
    assert PartCovered(s, n, t) && TableInv(TableAt(s, n));
    ViewMoves(s, a, n, t);
    TablesMove(s, a);
    hide LockOn, UnlockOn;
    var (v, v') := (s.parts[(n, t)].view, Next(s, a).parts[(n, t)].view);
    if a.LockItem? && a.n == n && a.t == t {
      LockOnKeepsCover(TableAt(s, n), v, t, a.id, a.mode);
    } else if a.UnlockItem? && a.n == n && a.t == t {
      UnlockOnKeepsCover(TableAt(s, n), v, t, a.id);
    } else {
      HeldMoves(s, a);
      assert forall id :: Held(TableAt(Next(s, a), n), id, t) == HeldAt(Next(s, a), n, id, t) == HeldAt(s, n, id, t);
      CoverFrame(TableAt(s, n), TableAt(Next(s, a), n), v, v', t);
    }
  }

  lemma EndedOnlyByFinish(s: State, a: Action, n: NodeId, t: TxnId)
    requires Enabled(s, a) && (n, t) in s.parts
    ensures (n, t) in Next(s, a).parts
    ensures Next(s, a).parts[(n, t)].stage.Ended? ==> s.parts[(n, t)].stage.Ended? || a == Finish(n, t)
  {
    if AtCoordinator(a) {
      hide Next;
      CoordinatorFrame(s, a);
    } else if PlaceOf(a) != (n, t) {
      hide Next;
      ParticipantFrame(s, a);
    } else {
      hide LockOn, UnlockOn, AccessEffect, UndoEffect;
    }
  }

  /** A finished participant has released everything, because its lock sets covered its locks. */
  lemma HoldersLive(s: State, a: Action, n: NodeId, id: LockDataId, t: TxnId)
    requires LockInv(s) && Enabled(s, a) && HeldAt(Next(s, a), n, id, t).Some?
    ensures (n, t) in Next(s, a).parts && !Next(s, a).parts[(n, t)].stage.Ended?
  {
    hide Next;
    HeldMoves(s, a);
    hide LockOn, UnlockOn;
    if a.LockItem? && a.n == n && a.t == t {
      assert RunningAt(s, n, t);
    } else {
      assert HeldAt(s, n, id, t).Some?;
    }
    EndedOnlyByFinish(s, a, n, t);
    assert PartCovered(s, n, t);
  }

  lemma NewPartCovered(s: State, a: Action, n: NodeId, t: TxnId)
    requires LockInv(s) && Enabled(s, a) && (n, t) !in s.parts && (n, t) in Next(s, a).parts
    ensures PartCovered(Next(s, a), n, t)
  {
    HeldMoves(s, a);
    PartNews(s, a, n, t);
    hide Next;
    assert forall id :: Held(TableAt(Next(s, a), n), id, t) == HeldAt(Next(s, a), n, id, t);
  }

  lemma LockInvKept(s: State, a: Action)
    requires LockInv(s) && Enabled(s, a)
    ensures LockInv(Next(s, a))
  {
    hide Next;
    HeldMoves(s, a);
    forall n, t | (n, t) in Next(s, a).parts
      ensures PartCovered(Next(s, a), n, t)
    {
      if (n, t) in s.parts { PartCoveredKept(s, a, n, t); } else { NewPartCovered(s, a, n, t); }
    }
    forall n, id, t: TxnId | HeldAt(Next(s, a), n, id, t).Some?
      ensures (n, t) in Next(s, a).parts && !Next(s, a).parts[(n, t)].stage.Ended?
    {
      HoldersLive(s, a, n, id, t);
    }
  }
}
