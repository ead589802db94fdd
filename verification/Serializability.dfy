/** Serializability on values: every committed read reports what the serial execution of the committed
    transactions, in decision order, reports; and aborted transactions leave no trace in the stores.

    A put over an existing key is undone by deleting the key (include/Inmemory/KVStore.h:26-31,
    src/transaction/transaction_manager.cpp:177-189). The value is lost when such a put is rolled back and the
    row is unlocked; the theorems say that nothing else goes wrong, and that this always does. */
module Serializability {
  import opened Common
  import opened LockQueue
  import opened LockManager
  import opened Txn
  import opened Cluster
  import opened AtomicCommit
  import opened LockSafety
  import opened ConflictOrder
  import opened Histories

  /** The transaction's first write to the key is a put over an existing value, which its rollback list
      does not keep. */
  ghost predicate Overwriting(s: State, a: Action)
    requires Enabled(s, a)
  {
    a.Access? && a.request.DoPut? && a.key in s.db && !Recorded(s.parts[(a.key.node, a.t)].writes, a.key)
  }

  ghost function Overwritten(s: State, a: Action): iset<(Key, TxnId)>
    requires Enabled(s, a)
  {
    if Overwriting(s, a) then iset{(a.key, a.t)} else iset{}
  }

  /** The keys, with their writers, that hold a value which only committing can justify. */
  ghost function Lost(db: map<Key, Value>, states: seq<State>, actions: seq<Action>, n: nat): iset<(Key, TxnId)>
    requires IsRun(db, states, actions) && n <= |actions|
  {
    if n == 0 then iset{} else Lost(db, states, actions, n - 1) + Overwritten(states[n - 1], actions[n - 1])
  }

  lemma {:induction false} LostStaysLost(
      db: map<Key, Value>, states: seq<State>, actions: seq<Action>, j: nat, n: nat, k: Key, t: TxnId)
    requires IsRun(db, states, actions) && j < n <= |actions| && (k, t) in Overwritten(states[j], actions[j])
    ensures (k, t) in Lost(db, states, actions, n)
  {
    hide Next, Enabled, Overwritten;
    if j < n - 1 { LostStaysLost(db, states, actions, j, n - 1, k, t); }
  }

  /** An aborted participant unlocks a row of which it has lost a key. */
  ghost predicate FreesLost(s: State, a: Action, lost: iset<(Key, TxnId)>) {
    && a.UnlockItem? && (a.n, a.t) in s.parts && s.parts[(a.n, a.t)].stage == Releasing(Abort)
    && exists k: Key :: k.node == a.n && RowLock(k) == a.id && (k, a.t) in lost
  }

  ghost function Store(db: map<Key, Value>): Key -> Option<Value> {
    k => Look(db, k)
  }

  ghost function SerialHistory(s: State): seq<Event> {
    Serial(s.history, s.decisions)
  }

  /** The store that the committed transactions alone leave, run in decision order. */
  ghost function SerialStore(s: State, db0: map<Key, Value>): Key -> Option<Value> {
    k => After(SerialHistory(s), k, Look(db0, k))
  }

  predicate HoldsX(s: State, k: Key, t: TxnId) {
    HeldAt(s, k.node, RowLock(k), t) == Some(Exclusive)
  }

  /** Begun, undecided, and still able to commit. */
  ghost predicate Open(s: State, t: TxnId) {
    t in s.coords && t !in s.decisions && !Gone(s, t)
  }

  ghost predicate SerialIsLegal(s: State, db0: map<Key, Value>) {
    Legal(SerialHistory(s), Store(db0))
  }

  ghost predicate OpenAreLegal(s: State, db0: map<Key, Value>) {
    forall t :: Open(s, t) ==> Legal(EventsOf(s.history, t), SerialStore(s, db0))
  }

  /** What rolling back leaves: the committed value, or nothing when that value is lost. */
  ghost function Restored(s: State, db0: map<Key, Value>, lost: iset<(Key, TxnId)>, k: Key, t: TxnId): Option<Value> {
    if (k, t) in lost then None else SerialStore(s, db0)(k)
  }

  /** Rolling back an undecided transaction restores every key it has locked, but for the lost ones. */
  ghost predicate RollbackRestores(s: State, db0: map<Key, Value>, lost: iset<(Key, TxnId)>) {
    forall k, t :: HoldsX(s, k, t) && t !in s.decisions ==>
      (k.node, t) in s.parts && RolledBack(s.parts[(k.node, t)].writes, k, Look(s.db, k)) == Restored(s, db0, lost, k, t)
  }

  /** A lost key has a committed value, and stays locked until its transaction is decided. */
  ghost predicate LostAreHeld(s: State, db0: map<Key, Value>, lost: iset<(Key, TxnId)>) {
    forall k, t :: (k, t) in lost && t !in s.decisions ==> HoldsX(s, k, t) && SerialStore(s, db0)(k).Some?
  }

  ghost predicate OwnersSeeOwnWrites(s: State, db0: map<Key, Value>) {
    forall k, t :: HoldsX(s, k, t) && Open(s, t) ==>
      Look(s.db, k) == After(EventsOf(s.history, t), k, SerialStore(s, db0)(k))
  }

  ghost predicate Free(s: State, k: Key) {
    forall t :: HoldsX(s, k, t) ==> t in s.decisions
  }

  ghost predicate FreeKeysCommitted(s: State, db0: map<Key, Value>) {
    forall k :: Free(s, k) ==> Look(s.db, k) == SerialStore(s, db0)(k)
  }

  ghost predicate RecordsOk(s: State, n: NodeId, t: TxnId)
    requires (n, t) in s.parts
  {
    var p := s.parts[(n, t)];
    && (p.stage in {Running, Undoing} ==> forall i :: 0 <= i < |p.writes| ==> p.writes[i].key.node == n && HoldsX(s, p.writes[i].key, t))
    && (Aborting(p) && p.stage != Undoing ==> p.writes == [])
  }

  ghost predicate RecordsLocked(s: State) {
    forall n, t :: (n, t) in s.parts ==> RecordsOk(s, n, t)
  }

  ghost predicate ValueInv(s: State, db0: map<Key, Value>, lost: iset<(Key, TxnId)>) {
    && SerialIsLegal(s, db0) && OpenAreLegal(s, db0)
    && RollbackRestores(s, db0, lost) && LostAreHeld(s, db0, lost) && OwnersSeeOwnWrites(s, db0) && FreeKeysCommitted(s, db0)
    && RecordsLocked(s)
  }

  // ---------------------------------------------------------------------------
  // Facts about locks
  // ---------------------------------------------------------------------------

  /** Two transactions never both hold a row when one of them holds it exclusively. */
  lemma ExclusiveIsAlone(s: State, k: Key, t: TxnId, u: TxnId)
    requires LockInv(s) && HoldsX(s, k, t) && t != u
    ensures HeldAt(s, k.node, RowLock(k), u).None?
  {
    assert TableInv(TableAt(s, k.node));
    if HeldAt(s, k.node, RowLock(k), u).Some? {
      HoldersAreCompatible(QueueOf(TableAt(s, k.node), RowLock(k)), t, u);
    }
  }

  /** An open transaction holds the locks of all its accesses. */
  lemma OpenHolds(s: State, e: Event)
    requires ProtocolInv(s) && TwoPhase(s) && e in s.history && Open(s, e.txn)
    ensures Protects(HeldAt(s, e.key.node, RowLock(e.key), e.txn), e.op)
  {
    assert (e.key.node, e.txn) in s.parts;
    if !Live(s, e.key.node, e.txn) {
      NotLive(s, e.key.node, e.txn);
    }
  }

  /** A live participant that does not hold a row exclusively has not written it. */
  lemma UnlockedIsUnwritten(s: State, k: Key, t: TxnId)
    requires TwoPhase(s) && Live(s, k.node, t) && !HoldsX(s, k, t)
    ensures forall e :: e in EventsOf(s.history, t) ==> !Writes(e, k)
  {
    EventsOfSound(s.history, t);
    forall e | e in EventsOf(s.history, t)
      ensures !Writes(e, k)
    {
      if e.key == k {
        assert Protects(HeldAt(s, k.node, RowLock(k), t), e.op);
      }
    }
  }

  /** The same for an open transaction, wherever it runs. */
  lemma OpenUnlockedIsUnwritten(s: State, k: Key, t: TxnId)
    requires ProtocolInv(s) && TwoPhase(s) && Open(s, t) && !HoldsX(s, k, t)
    ensures forall e :: e in EventsOf(s.history, t) ==> !Writes(e, k)
  {
    EventsOfSound(s.history, t);
    forall e | e in EventsOf(s.history, t)
      ensures !Writes(e, k)
    {
      OpenHolds(s, e);
    }
  }

  lemma OpenMoves(s: State, a: Action, t: TxnId)
    requires Enabled(s, a) && Open(Next(s, a), t) && t in s.coords
    requires forall u :: u in s.decisions ==> u in Next(s, a).decisions
    ensures Open(s, t)
  {
    hide Next;
    if Gone(s, t) {
      GoneKept(s, a, t);
    }
  }

  // ---------------------------------------------------------------------------
  // How the data moves
  // ---------------------------------------------------------------------------

  lemma DataMoves(s: State, a: Action)
    requires Enabled(s, a)
    ensures var s' := Next(s, a);
            if a.Access? then
              var (writes, db, op) := AccessEffect(s.db, s.parts[(a.key.node, a.t)].writes, a.key, a.request);
              && s'.parts == s.parts[(a.key.node, a.t) := s.parts[(a.key.node, a.t)].(writes := writes)] && s'.db == db
              && s'.history == s.history + [Event(a.t, a.key, op)] && s'.coords == s.coords && s'.decisions == s.decisions
            else if a.UndoOne? then
              var ws := s.parts[(a.n, a.t)].writes;
              && s'.parts == s.parts[(a.n, a.t) := s.parts[(a.n, a.t)].(writes := ws[..|ws| - 1])]
              && s'.db == UndoEffect(s.db, ws[|ws| - 1])
              && s'.history == s.history && s'.coords == s.coords && s'.decisions == s.decisions
            else
              s'.db == s.db && s'.history == s.history
  {
    hide LockOn, UnlockOn, AccessEffect, UndoEffect;
  }

  lemma WritesMove(s: State, a: Action, n: NodeId, t: TxnId)
    requires Enabled(s, a) && !a.Access? && !a.UndoOne? && (n, t) in Next(s, a).parts
    ensures Next(s, a).parts[(n, t)].writes == if (n, t) in s.parts then s.parts[(n, t)].writes else []
    ensures (n, t) in s.parts && Next(s, a).parts[(n, t)].stage != s.parts[(n, t)].stage ==>
              var (from, to) := (s.parts[(n, t)].stage, Next(s, a).parts[(n, t)].stage);
              || (from == Running && (to == Undoing || to == Releasing(Commit)))
              || (from == Undoing && to == Releasing(Abort) && s.parts[(n, t)].writes == [])
              || (from.Releasing? && to == Ended(from.outcome))
    ensures (n, t) !in s.parts ==> Next(s, a).parts[(n, t)].stage == Running
  {
    hide LockOn, UnlockOn, AccessEffect, UndoEffect;
  }

  /** Exclusive locks come only with a successful lock call and go only with an unlock. */
  lemma ExclusiveMoves(s: State, a: Action, k: Key, t: TxnId)
    requires LockInv(s) && Enabled(s, a)
    ensures HoldsX(s, k, t) && !HoldsX(Next(s, a), k, t) ==> a == UnlockItem(k.node, t, RowLock(k))
    ensures !HoldsX(s, k, t) && HoldsX(Next(s, a), k, t) ==>
              a == LockItem(k.node, t, RowLock(k), Exclusive) && Live(s, k.node, t)
  {
    hide Next, LockOn, UnlockOn;
    HeldMoves(s, a);
  }

  // ---------------------------------------------------------------------------
  // Write records stay under exclusive locks
  // ---------------------------------------------------------------------------

  lemma RecordAppended(db: map<Key, Value>, ws: seq<WriteRecord>, key: Key, request: Request)
    ensures var ws' := AccessEffect(db, ws, key, request).0;
            && |ws| <= |ws'| <= |ws| + 1 && ws'[..|ws|] == ws
            && (|ws'| > |ws| ==> ws'[|ws|].key == key && !request.DoGet?)
  {
  }

  /** The records of a participant after a step are those from before, less the last one or with one more. */
  lemma RecordsMove(s: State, a: Action, n: NodeId, t: TxnId)
    requires Enabled(s, a) && (n, t) in Next(s, a).parts
    ensures var (p', ws) := (Next(s, a).parts[(n, t)], if (n, t) in s.parts then s.parts[(n, t)].writes else []);
            && (p'.stage in {Running, Undoing} && ws != [] ==> s.parts[(n, t)].stage in {Running, Undoing})
            && (Aborting(p') && p'.stage != Undoing && p'.writes != [] ==>
                  (n, t) in s.parts && Aborting(s.parts[(n, t)]) && s.parts[(n, t)].stage != Undoing && p'.writes == ws)
            && (forall i :: 0 <= i < |p'.writes| && i < |ws| ==> p'.writes[i] == ws[i])
            && (|p'.writes| > |ws| ==>
                  && a.Access? && a.key.node == n && a.t == t && !a.request.DoGet?
                  && |p'.writes| == |ws| + 1 && p'.writes[|ws|].key == a.key)
  {
    hide Next, LockOn, UnlockOn, AccessEffect, UndoEffect;
    DataMoves(s, a);
    if a.Access? {
      RecordAppended(s.db, s.parts[(a.key.node, a.t)].writes, a.key, a.request);
    } else if !a.UndoOne? {
      WritesMove(s, a, n, t);
    }
  }

  lemma RecordsKept(s: State, a: Action, n: NodeId, t: TxnId)
    requires LockInv(s) && RecordsLocked(s) && Enabled(s, a) && (n, t) in Next(s, a).parts
    ensures RecordsOk(Next(s, a), n, t)
  {
    hide Next, LockInv, HeldAt;
    RecordsMove(s, a, n, t);
    if (n, t) in s.parts {
      assert RecordsOk(s, n, t);
    }
    var (p', ws) := (Next(s, a).parts[(n, t)], if (n, t) in s.parts then s.parts[(n, t)].writes else []);
    forall i | 0 <= i < |p'.writes| && p'.stage in {Running, Undoing}
      ensures p'.writes[i].key.node == n && HoldsX(Next(s, a), p'.writes[i].key, t)
    {
      if i < |ws| {
        assert p'.writes[i] == ws[i];
      }
      ExclusiveMoves(s, a, p'.writes[i].key, t);
    }
  }

  /** The invariants that the value proof builds on. */
  ghost predicate BaseInv(s: State) {
    ProtocolInv(s) && LockInv(s) && TwoPhase(s)
  }

  // ---------------------------------------------------------------------------
  // Actions that leave data and decisions alone
  // ---------------------------------------------------------------------------

  predicate SameData(s: State, s': State) {
    s'.db == s.db && s'.history == s.history && s'.decisions == s.decisions
  }

  lemma EventsHaveBegun(s: State)
    requires ProtocolInv(s) && TwoPhase(s)
    ensures forall e :: e in s.history ==> e.txn in s.coords
  {
    forall e | e in s.history
      ensures e.txn in s.coords
    {
      assert PartOk(s, e.key.node, e.txn);
    }
  }

  lemma OpenLegalSameData(s: State, a: Action, db0: map<Key, Value>)
    requires BaseInv(s) && OpenAreLegal(s, db0) && Enabled(s, a) && Next(s, a).history == s.history && Next(s, a).decisions == s.decisions
    ensures OpenAreLegal(Next(s, a), db0)
  {
    hide Next;
    forall t | Open(Next(s, a), t)
      ensures Legal(EventsOf(s.history, t), SerialStore(Next(s, a), db0))
    {
      if t in s.coords {
        OpenMoves(s, a, t);
        LegalElsewhere(EventsOf(s.history, t), SerialStore(s, db0), SerialStore(Next(s, a), db0));
      } else {
        EventsHaveBegun(s);
        EventsOfNobody(s.history, t);
      }
    }
  }

  /** A freshly acquired exclusive lock was free. */
  lemma FreshIsFree(s: State, a: Action, k: Key, t: TxnId)
    requires BaseInv(s) && Enabled(s, a) && !HoldsX(s, k, t) && HoldsX(Next(s, a), k, t)
    ensures Free(s, k) && Live(s, k.node, t) && t !in s.decisions
  {
    hide Next;
    ExclusiveMoves(s, a, k, t);
    WorkingIsUndecided(s, k.node, t);
    LockInvKept(s, a);
    forall u | HoldsX(s, k, u)
      ensures false
    {
      ExclusiveMoves(s, a, k, u);
      ExclusiveIsAlone(Next(s, a), k, t, u);
    }
  }

  lemma FreshRollback(s: State, a: Action, db0: map<Key, Value>, lost: iset<(Key, TxnId)>, k: Key, t: TxnId)
    requires BaseInv(s) && RecordsLocked(s) && FreeKeysCommitted(s, db0) && LostAreHeld(s, db0, lost) && Enabled(s, a)
    requires !HoldsX(s, k, t) && HoldsX(Next(s, a), k, t)
    ensures (k.node, t) in s.parts && RolledBack(s.parts[(k.node, t)].writes, k, Look(s.db, k)) == SerialStore(s, db0)(k)
    ensures (k, t) !in lost
    ensures Look(s.db, k) == After(EventsOf(s.history, t), k, SerialStore(s, db0)(k))
  {
    hide Next;
    FreshIsFree(s, a, k, t);
    UnlockedIsUnwritten(s, k, t);
    AfterUnwritten(EventsOf(s.history, t), k, SerialStore(s, db0)(k));
    var ws := s.parts[(k.node, t)].writes;
    assert RecordsOk(s, k.node, t);
    assert !Recorded(ws, k);
    RolledBackUnrecorded(ws, k, Look(s.db, k));
  }

  lemma RollbackSameData(s: State, a: Action, db0: map<Key, Value>, lost: iset<(Key, TxnId)>)
    requires BaseInv(s) && RecordsLocked(s) && FreeKeysCommitted(s, db0)
    requires RollbackRestores(s, db0, lost) && LostAreHeld(s, db0, lost)
    requires Enabled(s, a) && SameData(s, Next(s, a)) && !a.Access? && !a.UndoOne?
    ensures RollbackRestores(Next(s, a), db0, lost)
  {
    hide Next;
    forall k, t | HoldsX(Next(s, a), k, t) && t !in s.decisions
      ensures (k.node, t) in Next(s, a).parts
      ensures RolledBack(Next(s, a).parts[(k.node, t)].writes, k, Look(s.db, k)) == Restored(Next(s, a), db0, lost, k, t)
    {
      if !HoldsX(s, k, t) {
        FreshRollback(s, a, db0, lost, k, t);
      }
      PartMoves(s, a, k.node, t);
      WritesMove(s, a, k.node, t);
    }
  }

  lemma OwnersSameData(s: State, a: Action, db0: map<Key, Value>, lost: iset<(Key, TxnId)>)
    requires BaseInv(s) && RecordsLocked(s) && FreeKeysCommitted(s, db0) && OwnersSeeOwnWrites(s, db0) && LostAreHeld(s, db0, lost)
    requires Enabled(s, a) && SameData(s, Next(s, a)) && !a.Access? && !a.UndoOne?
    ensures OwnersSeeOwnWrites(Next(s, a), db0)
  {
    hide Next;
    forall k, t | HoldsX(Next(s, a), k, t) && Open(Next(s, a), t)
      ensures Look(s.db, k) == After(EventsOf(s.history, t), k, SerialStore(Next(s, a), db0)(k))
    {
      if HoldsX(s, k, t) {
        assert PartOk(s, k.node, t);
        OpenMoves(s, a, t);
      } else {
        FreshRollback(s, a, db0, lost, k, t);
      }
    }
  }

  /** An undecided transaction that unlocks a key has rolled its writes back. */
  lemma ReleasedIsRestored(s: State, db0: map<Key, Value>, lost: iset<(Key, TxnId)>, k: Key, t: TxnId)
    requires BaseInv(s) && RecordsLocked(s) && RollbackRestores(s, db0, lost) && HoldsX(s, k, t) && t !in s.decisions
    requires (k.node, t) in s.parts && s.parts[(k.node, t)].stage.Releasing?
    ensures s.parts[(k.node, t)].stage == Releasing(Abort)
    ensures Look(s.db, k) == Restored(s, db0, lost, k, t)
  {
    assert PartOk(s, k.node, t) && RecordsOk(s, k.node, t);
    assert Aborting(s.parts[(k.node, t)]);
    assert s.parts[(k.node, t)].writes == [];
  }

  lemma BaseGivesLocks(s: State)
    requires BaseInv(s)
    ensures LockInv(s)
  {
  }

  lemma SameSerial(s: State, s': State)
    requires SameData(s, s')
    ensures SerialHistory(s') == SerialHistory(s)
  {
  }

  lemma FreeSameData(s: State, a: Action, db0: map<Key, Value>, lost: iset<(Key, TxnId)>)
    requires BaseInv(s) && RecordsLocked(s) && FreeKeysCommitted(s, db0) && RollbackRestores(s, db0, lost)
    requires Enabled(s, a) && SameData(s, Next(s, a)) && !FreesLost(s, a, lost)
    ensures FreeKeysCommitted(Next(s, a), db0)
  {
    hide Next, BaseInv, RecordsLocked, RollbackRestores, SerialHistory;
    forall k | Free(Next(s, a), k)
      ensures Look(s.db, k) == SerialStore(s, db0)(k)
    {
      if !Free(s, k) {
        var t :| HoldsX(s, k, t) && t !in s.decisions;
        assert LockInv(s) by { BaseGivesLocks(s); }
        ExclusiveMoves(s, a, k, t);
        ReleasedIsRestored(s, db0, lost, k, t);
      }
    }
    assert SerialHistory(Next(s, a)) == SerialHistory(s) by { SameSerial(s, Next(s, a)); }
  }

  lemma AbortedIsUndecided(s: State, n: NodeId, t: TxnId)
    requires ProtocolInv(s) && (n, t) in s.parts && s.parts[(n, t)].stage == Releasing(Abort)
    ensures t !in s.decisions
  {
    assert DeadAt(s, n, t) && PartOk(s, n, t);
    GoneIsUndecided(s, t);
  }

  /** Unlocking a lost row shows the loss: the key is free, and holds nothing though it was committed. */
  lemma FreedLossShows(s: State, a: Action, db0: map<Key, Value>, lost: iset<(Key, TxnId)>)
    requires BaseInv(s) && RecordsLocked(s) && RollbackRestores(s, db0, lost) && LostAreHeld(s, db0, lost)
    requires Enabled(s, a) && FreesLost(s, a, lost)
    ensures !FreeKeysCommitted(Next(s, a), db0)
  {
    hide Next, RecordsLocked, SerialHistory, After, HeldAt;
    var (t, s') := (a.t, Next(s, a));
    var k: Key :| k.node == a.n && RowLock(k) == a.id && (k, t) in lost;
    AbortedIsUndecided(s, a.n, t);
    ReleasedIsRestored(s, db0, lost, k, t);
    DataMoves(s, a);
    DecisionGrowth(s, a);
    HeldMoves(s, a);
    forall u
      ensures !HoldsX(s', k, u)
    {
      ExclusiveMoves(s, a, k, u);
      if HoldsX(s', k, u) && u != t { ExclusiveIsAlone(s, k, t, u); }
    }
    assert SerialHistory(s') == SerialHistory(s) by { SameSerial(s, s'); }
    assert Free(s', k);
  }

  // ---------------------------------------------------------------------------
  // Accesses
  // ---------------------------------------------------------------------------

  /** An access reports what the store holds, and changes the store as replaying it would. */
  lemma AccessReplays(
      db: map<Key, Value>, ws: seq<WriteRecord>, key: Key, request: Request, t: TxnId, es: seq<Event>, k: Key, base: Option<Value>)
    requires After(es, k, base) == Look(db, k)
    ensures var (_, db', op) := AccessEffect(db, ws, key, request);
            && (k == key ==> Fits(Event(t, key, op), Look(db, k)))
            && After(es + [Event(t, key, op)], k, base) == Look(db', k)
  {
    var e := Event(t, key, AccessEffect(db, ws, key, request).2);
    assert (es + [e])[..|es|] == es;
  }

  /** An undoable access adds a record that takes the store back to where it was. */
  lemma AccessRollsBack(db: map<Key, Value>, ws: seq<WriteRecord>, key: Key, request: Request, k: Key)
    requires k == key && request.DoPut? && key in db ==> Recorded(ws, key)
    ensures var (ws', db', _) := AccessEffect(db, ws, key, request);
            RolledBack(ws', k, Look(db', k)) == RolledBack(ws, k, Look(db, k))
  {
    match request
    case DoGet =>
    case DoPut(v) =>
      RolledBackAppend(ws, InsertTuple(key), k, Look(db[key := v], k));
      if k == key && key in db { RolledBackRecorded(ws, key, None, Look(db, key)); }
    case DoDel =>
      if key in db { RolledBackAppend(ws, DeleteTuple(key, db[key]), k, Look(db - {key}, k)); }
  }

  lemma UntouchedElsewhere(db: map<Key, Value>, ws: seq<WriteRecord>, key: Key, request: Request)
    ensures forall k :: k != key || request.DoGet? ==> Look(AccessEffect(db, ws, key, request).1, k) == Look(db, k)
  {
  }

  /** Nobody holds exclusively what another transaction holds in shared mode. */
  lemma SharedIsFree(s: State, k: Key, t: TxnId)
    requires LockInv(s) && HeldAt(s, k.node, RowLock(k), t) == Some(Shared)
    ensures Free(s, k)
  {
    forall u
      ensures !HoldsX(s, k, u)
    {
      if HoldsX(s, k, u) { ExclusiveIsAlone(s, k, u, t); }
    }
  }

  /** An open transaction sees its own writes over the committed store. */
  lemma AccessSees(s: State, a: Action, db0: map<Key, Value>)
    requires BaseInv(s) && OwnersSeeOwnWrites(s, db0) && FreeKeysCommitted(s, db0)
    requires Enabled(s, a) && a.Access? && Open(s, a.t)
    ensures Look(s.db, a.key) == After(EventsOf(s.history, a.t), a.key, SerialStore(s, db0)(a.key))
  {
    if !HoldsX(s, a.key, a.t) {
      SharedIsFree(s, a.key, a.t);
      UnlockedIsUnwritten(s, a.key, a.t);
      AfterUnwritten(EventsOf(s.history, a.t), a.key, SerialStore(s, db0)(a.key));
    }
  }

  /** The access of an undecided transaction leaves the serial history alone. */
  lemma AccessKeepsSerial(s: State, a: Action)
    requires BaseInv(s) && Enabled(s, a) && a.Access?
    ensures SerialHistory(Next(s, a)) == SerialHistory(s)
    ensures a.t !in s.decisions && a.t in s.coords
  {
    hide Next;
    DataMoves(s, a);
    WorkingIsUndecided(s, a.key.node, a.t);
    SerialAppend(s.history, Next(s, a).history[|s.history|], s.decisions);
  }

  lemma OpenLegalAccess(s: State, a: Action, db0: map<Key, Value>, t: TxnId)
    requires BaseInv(s) && OwnersSeeOwnWrites(s, db0) && FreeKeysCommitted(s, db0) && OpenAreLegal(s, db0)
    requires Enabled(s, a) && a.Access? && Open(Next(s, a), t)
    ensures Legal(EventsOf(Next(s, a).history, t), SerialStore(Next(s, a), db0))
  {
    hide Next, AccessEffect, BaseInv, Legal, After, EventsOf, Serial, SerialHistory, Gone, HeldAt;
    DataMoves(s, a);
    AccessKeepsSerial(s, a);
    OpenMoves(s, a, t);
    var e := Next(s, a).history[|s.history|];
    EventsOfAppend(s.history, e, t);
    var es := EventsOf(s.history, t);
    if t == a.t {
      AccessSees(s, a, db0);
      AccessReplays(s.db, s.parts[(a.key.node, a.t)].writes, a.key, a.request, a.t, es, a.key, SerialStore(s, db0)(a.key));
      LegalAppend(es, e, SerialStore(s, db0));
    } else {
      assert es + [] == es;
    }
    LegalElsewhere(EventsOf(Next(s, a).history, t), SerialStore(s, db0), SerialStore(Next(s, a), db0));
  }

  /** An overwriting put leaves a rollback that deletes the key. */
  lemma OverwriteIsUnrecorded(db: map<Key, Value>, ws: seq<WriteRecord>, key: Key, v: Value)
    requires !Recorded(ws, key)
    ensures var (ws', db', _) := AccessEffect(db, ws, key, DoPut(v));
            RolledBack(ws', key, Look(db', key)) == None
  {
    RolledBackAppend(ws, InsertTuple(key), key, Some(v));
    RolledBackUnrecorded(ws, key, None);
  }

  lemma RollbackAccess(s: State, a: Action, db0: map<Key, Value>, lost: iset<(Key, TxnId)>)
    requires BaseInv(s) && RollbackRestores(s, db0, lost) && Enabled(s, a) && a.Access?
    ensures RollbackRestores(Next(s, a), db0, lost + Overwritten(s, a))
  {
    hide Next, AccessEffect, RolledBack, SerialHistory, After, BaseInv, LockInv;
    DataMoves(s, a);
    AccessKeepsSerial(s, a);
    BaseGivesLocks(s);
    var ws := s.parts[(a.key.node, a.t)].writes;
    UntouchedElsewhere(s.db, ws, a.key, a.request);
    forall k, t | HoldsX(Next(s, a), k, t) && t !in s.decisions
      ensures (k.node, t) in Next(s, a).parts
      ensures RolledBack(Next(s, a).parts[(k.node, t)].writes, k, Look(Next(s, a).db, k)) ==
              Restored(Next(s, a), db0, lost + Overwritten(s, a), k, t)
    {
      ExclusiveMoves(s, a, k, t);
      if t == a.t && k == a.key && Overwriting(s, a) {
        OverwriteIsUnrecorded(s.db, ws, k, a.request.value);
      } else if t == a.t && k.node == a.key.node {
        AccessRollsBack(s.db, ws, a.key, a.request, k);
      } else if k == a.key {
        ExclusiveIsAlone(s, k, t, a.t);
      }
    }
  }

  lemma OwnersAccess(s: State, a: Action, db0: map<Key, Value>, k: Key, t: TxnId)
    requires BaseInv(s) && OwnersSeeOwnWrites(s, db0) && Enabled(s, a) && a.Access?
    requires HoldsX(Next(s, a), k, t) && Open(Next(s, a), t)
    ensures Look(Next(s, a).db, k) == After(EventsOf(Next(s, a).history, t), k, SerialStore(Next(s, a), db0)(k))
  {
    hide Next, AccessEffect, After, EventsOf, Serial, SerialHistory, Gone, HeldAt;
    DataMoves(s, a);
    AccessKeepsSerial(s, a);
    OpenMoves(s, a, t);
    ExclusiveMoves(s, a, k, t);
    if t != a.t && k == a.key && !a.request.DoGet? {
      ExclusiveIsAlone(s, k, a.t, t);
    }
    var ws := s.parts[(a.key.node, a.t)].writes;
    UntouchedElsewhere(s.db, ws, a.key, a.request);
    EventsOfAppend(s.history, Next(s, a).history[|s.history|], t);
    if t == a.t {
      AccessReplays(s.db, ws, a.key, a.request, t, EventsOf(s.history, t), k, SerialStore(s, db0)(k));
    } else {
      assert EventsOf(s.history, t) + [] == EventsOf(s.history, t);
    }
  }

  lemma FreeAccess(s: State, a: Action, db0: map<Key, Value>)
    requires BaseInv(s) && FreeKeysCommitted(s, db0) && Enabled(s, a) && a.Access?
    ensures FreeKeysCommitted(Next(s, a), db0)
  {
    hide Next, AccessEffect;
    DataMoves(s, a);
    AccessKeepsSerial(s, a);
    UntouchedElsewhere(s.db, s.parts[(a.key.node, a.t)].writes, a.key, a.request);
    forall k | Free(Next(s, a), k)
      ensures Look(Next(s, a).db, k) == SerialStore(Next(s, a), db0)(k)
    {
      forall t | HoldsX(s, k, t)
        ensures t in s.decisions
      {
        ExclusiveMoves(s, a, k, t);
      }
      assert k == a.key ==> a.request.DoGet?;
    }
  }

  // ---------------------------------------------------------------------------
  // Rolling back
  // ---------------------------------------------------------------------------

  lemma UndoLooks(db: map<Key, Value>, r: WriteRecord)
    ensures forall k :: Look(UndoEffect(db, r), k) ==
                        if r.key != k then Look(db, k) else if r.DeleteTuple? then Some(r.value) else None
  {
  }

  /** Undoing happens under the exclusive lock of a transaction that can no longer commit. */
  lemma UndoIsExclusive(s: State, a: Action)
    requires BaseInv(s) && RecordsLocked(s) && Enabled(s, a) && a.UndoOne?
    ensures var ws := s.parts[(a.n, a.t)].writes;
            ws[|ws| - 1].key.node == a.n && HoldsX(s, ws[|ws| - 1].key, a.t)
    ensures Gone(s, a.t) && a.t !in s.decisions
  {
    assert RecordsOk(s, a.n, a.t) && PartOk(s, a.n, a.t);
    assert DeadAt(s, a.n, a.t);
    GoneIsUndecided(s, a.t);
  }

  lemma RollbackUndo(s: State, a: Action, db0: map<Key, Value>, lost: iset<(Key, TxnId)>, k: Key, t: TxnId)
    requires BaseInv(s) && RecordsLocked(s) && RollbackRestores(s, db0, lost) && Enabled(s, a) && a.UndoOne?
    requires HoldsX(Next(s, a), k, t) && t !in s.decisions
    ensures (k.node, t) in Next(s, a).parts
    ensures RolledBack(Next(s, a).parts[(k.node, t)].writes, k, Look(Next(s, a).db, k)) == Restored(Next(s, a), db0, lost, k, t)
  {
    hide Next, UndoEffect, Serial, EventsOf, After, Gone, RolledBack, HeldAt;
    DataMoves(s, a);
    UndoIsExclusive(s, a);
    var ws := s.parts[(a.n, a.t)].writes;
    UndoLooks(s.db, ws[|ws| - 1]);
    ExclusiveMoves(s, a, k, t);
    assert RolledBack(s.parts[(k.node, t)].writes, k, Look(s.db, k)) == Restored(s, db0, lost, k, t);
    if t == a.t && k.node == a.n {
      RolledBackLast(ws, k, Look(s.db, k));
    } else if k == ws[|ws| - 1].key {
      ExclusiveIsAlone(s, k, a.t, t);
    }
  }

  lemma OwnersUndo(s: State, a: Action, db0: map<Key, Value>)
    requires BaseInv(s) && RecordsLocked(s) && OwnersSeeOwnWrites(s, db0) && Enabled(s, a) && a.UndoOne?
    ensures OwnersSeeOwnWrites(Next(s, a), db0)
  {
    hide Next, UndoEffect, Serial, EventsOf, After;
    DataMoves(s, a);
    UndoIsExclusive(s, a);
    UndoLooks(s.db, s.parts[(a.n, a.t)].writes[|s.parts[(a.n, a.t)].writes| - 1]);
    forall k, t | HoldsX(Next(s, a), k, t) && Open(Next(s, a), t)
      ensures Look(Next(s, a).db, k) == After(EventsOf(s.history, t), k, SerialStore(Next(s, a), db0)(k))
    {
      OpenMoves(s, a, t);
      ExclusiveMoves(s, a, k, t);
      if k == s.parts[(a.n, a.t)].writes[|s.parts[(a.n, a.t)].writes| - 1].key { ExclusiveIsAlone(s, k, a.t, t); }
    }
  }

  lemma FreeUndo(s: State, a: Action, db0: map<Key, Value>)
    requires BaseInv(s) && RecordsLocked(s) && FreeKeysCommitted(s, db0) && Enabled(s, a) && a.UndoOne?
    ensures FreeKeysCommitted(Next(s, a), db0)
  {
    hide Next, UndoEffect, Serial, EventsOf, After, Gone;
    DataMoves(s, a);
    UndoIsExclusive(s, a);
    var r := s.parts[(a.n, a.t)].writes[|s.parts[(a.n, a.t)].writes| - 1];
    UndoLooks(s.db, r);
    ExclusiveMoves(s, a, r.key, a.t);
    forall k | Free(Next(s, a), k)
      ensures Look(Next(s, a).db, k) == SerialStore(Next(s, a), db0)(k)
    {
      assert k != r.key;
      forall t | HoldsX(s, k, t)
        ensures t in s.decisions
      {
        ExclusiveMoves(s, a, k, t);
      }
    }
  }

  // ---------------------------------------------------------------------------
  // Decisions
  // ---------------------------------------------------------------------------

  predicate OnlyDecides(s: State, a: Action, s': State) {
    a.t in s.coords && a.t !in s.decisions && s'.decisions == s.decisions + [a.t] && s'.history == s.history && s'.db == s.db
  }

  /** Whoever is being decided was open until now. */
  lemma DecidedWasOpen(s: State, a: Action)
    requires BaseInv(s) && Enabled(s, a) && OnlyDecides(s, a, Next(s, a))
    ensures Open(s, a.t)
  {
    hide Next;
    if Gone(s, a.t) {
      ProtocolInvKept(s, a);
      GoneKept(s, a, a.t);
      GoneIsUndecided(Next(s, a), a.t);
    }
  }

  /** A decision appends the accesses of its transaction to the serial history. */
  lemma DecisionAppends(s: State, a: Action, db0: map<Key, Value>)
    requires Enabled(s, a) && OnlyDecides(s, a, Next(s, a))
    ensures SerialHistory(Next(s, a)) == SerialHistory(s) + EventsOf(s.history, a.t)
    ensures forall k :: SerialStore(Next(s, a), db0)(k) == After(EventsOf(s.history, a.t), k, SerialStore(s, db0)(k))
  {
    hide Next, After;
    assert (s.decisions + [a.t])[..|s.decisions|] == s.decisions;
    forall k
      ensures SerialStore(Next(s, a), db0)(k) == After(EventsOf(s.history, a.t), k, SerialStore(s, db0)(k))
    {
      AfterConcat(SerialHistory(s), EventsOf(s.history, a.t), k, Look(db0, k));
    }
  }

  /** A decision does not change the committed value of a key that another transaction holds. */
  lemma DecisionKeepsHeld(s: State, a: Action, db0: map<Key, Value>, k: Key, t: TxnId)
    requires BaseInv(s) && Enabled(s, a) && OnlyDecides(s, a, Next(s, a)) && t != a.t && HeldAt(s, k.node, RowLock(k), t).Some?
    ensures SerialStore(Next(s, a), db0)(k) == SerialStore(s, db0)(k)
  {
    hide Next, After, Serial, EventsOf, Gone;
    DecidedWasOpen(s, a);
    DecisionAppends(s, a, db0);
    if HoldsX(s, k, a.t) { ExclusiveIsAlone(s, k, a.t, t); }
    OpenUnlockedIsUnwritten(s, k, a.t);
    AfterUnwritten(EventsOf(s.history, a.t), k, SerialStore(s, db0)(k));
  }

  lemma SerialDecision(s: State, a: Action, db0: map<Key, Value>)
    requires BaseInv(s) && SerialIsLegal(s, db0) && OpenAreLegal(s, db0) && Enabled(s, a) && OnlyDecides(s, a, Next(s, a))
    ensures SerialIsLegal(Next(s, a), db0)
  {
    hide Next, After, Serial, EventsOf, Legal, SerialHistory, Gone;
    DecidedWasOpen(s, a);
    DecisionAppends(s, a, db0);
    LegalConcat(SerialHistory(s), EventsOf(s.history, a.t), Store(db0), SerialStore(s, db0));
  }

  lemma OpenLegalDecision(s: State, a: Action, db0: map<Key, Value>, t: TxnId)
    requires BaseInv(s) && OpenAreLegal(s, db0) && Enabled(s, a) && OnlyDecides(s, a, Next(s, a))
    requires Open(Next(s, a), t) && t in s.coords
    ensures Legal(EventsOf(s.history, t), SerialStore(Next(s, a), db0))
  {
    hide Next, After, Serial, EventsOf, Legal, SerialHistory, Gone;
    OpenMoves(s, a, t);
    EventsOfSound(s.history, t);
    forall e | e in EventsOf(s.history, t)
      ensures SerialStore(Next(s, a), db0)(e.key) == SerialStore(s, db0)(e.key)
    {
      OpenHolds(s, e);
      DecisionKeepsHeld(s, a, db0, e.key, t);
    }
    LegalElsewhere(EventsOf(s.history, t), SerialStore(s, db0), SerialStore(Next(s, a), db0));
  }

  lemma RollbackDecision(s: State, a: Action, db0: map<Key, Value>, lost: iset<(Key, TxnId)>)
    requires BaseInv(s) && RollbackRestores(s, db0, lost) && Enabled(s, a) && OnlyDecides(s, a, Next(s, a)) && !a.Access? && !a.UndoOne?
    ensures RollbackRestores(Next(s, a), db0, lost)
  {
    hide Next, After, Serial, EventsOf, SerialHistory, Gone;
    forall k, t | HoldsX(Next(s, a), k, t) && t !in Next(s, a).decisions
      ensures (k.node, t) in Next(s, a).parts
      ensures RolledBack(Next(s, a).parts[(k.node, t)].writes, k, Look(s.db, k)) == Restored(Next(s, a), db0, lost, k, t)
    {
      ExclusiveMoves(s, a, k, t);
      DecisionKeepsHeld(s, a, db0, k, t);
      PartMoves(s, a, k.node, t);
      WritesMove(s, a, k.node, t);
    }
  }

  lemma OwnersDecision(s: State, a: Action, db0: map<Key, Value>)
    requires BaseInv(s) && OwnersSeeOwnWrites(s, db0) && Enabled(s, a) && OnlyDecides(s, a, Next(s, a)) && !a.Begin? && !a.LockItem?
    ensures OwnersSeeOwnWrites(Next(s, a), db0)
  {
    hide Next, After, Serial, EventsOf, SerialHistory, Gone;
    forall k, t | HoldsX(Next(s, a), k, t) && Open(Next(s, a), t)
      ensures Look(s.db, k) == After(EventsOf(s.history, t), k, SerialStore(Next(s, a), db0)(k))
    {
      ExclusiveMoves(s, a, k, t);
      assert PartOk(s, k.node, t);
      OpenMoves(s, a, t);
      DecisionKeepsHeld(s, a, db0, k, t);
    }
  }

  lemma FreeDecision(s: State, a: Action, db0: map<Key, Value>, k: Key)
    requires BaseInv(s) && OwnersSeeOwnWrites(s, db0) && FreeKeysCommitted(s, db0)
    requires Enabled(s, a) && OnlyDecides(s, a, Next(s, a)) && !a.UnlockItem? && Free(Next(s, a), k)
    ensures Look(s.db, k) == SerialStore(Next(s, a), db0)(k)
  {
    hide Next, After, Serial, EventsOf, SerialHistory, Gone;
    DecidedWasOpen(s, a);
    DecisionAppends(s, a, db0);
    if !HoldsX(s, k, a.t) {
      forall t | HoldsX(s, k, t)
        ensures t in s.decisions
      {
        ExclusiveMoves(s, a, k, t);
      }
      OpenUnlockedIsUnwritten(s, k, a.t);
      AfterUnwritten(EventsOf(s.history, a.t), k, SerialStore(s, db0)(k));
    }
  }

  // ---------------------------------------------------------------------------
  // Every run
  // ---------------------------------------------------------------------------

  /** While a transaction keeps a key locked and stays undecided, decisions of others do not change
      the committed value of the key. */
  lemma CommittedValueStep(s: State, a: Action, db: map<Key, Value>, k: Key, t: TxnId)
    requires BaseInv(s) && Enabled(s, a) && HoldsX(s, k, t) && t !in Next(s, a).decisions
    ensures SerialStore(Next(s, a), db)(k) == SerialStore(s, db)(k)
  {
    hide Next, After, Serial;
    DataMoves(s, a);
    DecisionGrowth(s, a);
    if a.Access? {
      AccessKeepsSerial(s, a);
    } else if Next(s, a).decisions != s.decisions {
      DecisionKeepsHeld(s, a, db, k, t);
    }
  }

  lemma LostStaysHeld(s: State, a: Action, db0: map<Key, Value>, lost: iset<(Key, TxnId)>, k: Key, t: TxnId)
    requires BaseInv(s) && LostAreHeld(s, db0, lost) && Enabled(s, a) && !FreesLost(s, a, lost)
    requires (k, t) in lost && t !in Next(s, a).decisions
    ensures HoldsX(Next(s, a), k, t) && SerialStore(Next(s, a), db0)(k).Some?
  {
    hide Next, After, Serial, SerialHistory, HeldAt;
    DecisionGrowth(s, a);
    ExclusiveMoves(s, a, k, t);
    assert PartOk(s, k.node, t);
    CommittedValueStep(s, a, db0, k, t);
  }

  /** What is overwritten was committed. */
  lemma OverwrittenWasCommitted(s: State, a: Action, db0: map<Key, Value>, lost: iset<(Key, TxnId)>)
    requires BaseInv(s) && RollbackRestores(s, db0, lost) && Enabled(s, a) && Overwriting(s, a)
    ensures HoldsX(Next(s, a), a.key, a.t) && SerialStore(Next(s, a), db0)(a.key).Some?
  {
    hide Next, After, Serial, SerialHistory, RolledBack;
    AccessKeepsSerial(s, a);
    ExclusiveMoves(s, a, a.key, a.t);
    RolledBackUnrecorded(s.parts[(a.key.node, a.t)].writes, a.key, Look(s.db, a.key));
  }

  lemma LostAreHeldKept(s: State, a: Action, db0: map<Key, Value>, lost: iset<(Key, TxnId)>)
    requires BaseInv(s) && RollbackRestores(s, db0, lost) && LostAreHeld(s, db0, lost) && Enabled(s, a) && !FreesLost(s, a, lost)
    ensures LostAreHeld(Next(s, a), db0, lost + Overwritten(s, a))
  {
    hide Next, BaseInv, SerialStore, HoldsX, Enabled, RollbackRestores, FreesLost;
    forall k, t | (k, t) in lost + Overwritten(s, a) && t !in Next(s, a).decisions
      ensures HoldsX(Next(s, a), k, t) && SerialStore(Next(s, a), db0)(k).Some?
    {
      if (k, t) in lost {
        LostStaysHeld(s, a, db0, lost, k, t);
      } else {
        OverwrittenWasCommitted(s, a, db0, lost);
      }
    }
  }

  lemma RecordsLockedKept(s: State, a: Action)
    requires BaseInv(s) && RecordsLocked(s) && Enabled(s, a)
    ensures RecordsLocked(Next(s, a))
  {
    hide Next;
    forall n, t | (n, t) in Next(s, a).parts
      ensures RecordsOk(Next(s, a), n, t)
    {
      RecordsKept(s, a, n, t);
    }
  }

  lemma ValuesAfterAccess(s: State, a: Action, db0: map<Key, Value>, lost: iset<(Key, TxnId)>)
    requires BaseInv(s) && ValueInv(s, db0, lost) && Enabled(s, a) && a.Access?
    ensures ValueInv(Next(s, a), db0, lost + Overwritten(s, a))
  {
    hide Next, BaseInv, Legal, Free, RecordsOk, Serial, EventsOf, After, RolledBack, Gone, HeldAt, Overwritten;
    RecordsLockedKept(s, a);
    AccessKeepsSerial(s, a);
    RollbackAccess(s, a, db0, lost);
    LostAreHeldKept(s, a, db0, lost);
    FreeAccess(s, a, db0);
    forall t | Open(Next(s, a), t)
      ensures Legal(EventsOf(Next(s, a).history, t), SerialStore(Next(s, a), db0))
    {
      OpenLegalAccess(s, a, db0, t);
    }
    forall k, t | HoldsX(Next(s, a), k, t) && Open(Next(s, a), t)
      ensures Look(Next(s, a).db, k) == After(EventsOf(Next(s, a).history, t), k, SerialStore(Next(s, a), db0)(k))
    {
      OwnersAccess(s, a, db0, k, t);
    }
  }

  lemma NothingOverwritten(s: State, a: Action, lost: iset<(Key, TxnId)>)
    requires Enabled(s, a) && !a.Access?
    ensures lost + Overwritten(s, a) == lost
  {
  }

  lemma ValuesAfterUndo(s: State, a: Action, db0: map<Key, Value>, lost: iset<(Key, TxnId)>)
    requires BaseInv(s) && ValueInv(s, db0, lost) && Enabled(s, a) && a.UndoOne?
    ensures ValueInv(Next(s, a), db0, lost)
  {
    hide Next, BaseInv, Legal, Free, RecordsOk, Serial, EventsOf, After, RolledBack, Gone, HeldAt;
    RecordsLockedKept(s, a);
    DataMoves(s, a);
    OpenLegalSameData(s, a, db0);
    OwnersUndo(s, a, db0);
    NothingOverwritten(s, a, lost);
    LostAreHeldKept(s, a, db0, lost);
    FreeUndo(s, a, db0);
    forall k, t | HoldsX(Next(s, a), k, t) && t !in s.decisions
      ensures (k.node, t) in Next(s, a).parts
      ensures RolledBack(Next(s, a).parts[(k.node, t)].writes, k, Look(Next(s, a).db, k)) == Restored(Next(s, a), db0, lost, k, t)
    {
      RollbackUndo(s, a, db0, lost, k, t);
    }
  }

  lemma SameCoords(s: State, a: Action)
    requires Enabled(s, a) && !a.Begin?
    ensures Next(s, a).coords.Keys == s.coords.Keys
  {
    hide LockOn, UnlockOn, AccessEffect, UndoEffect;
  }

  lemma ValuesAfterDecision(s: State, a: Action, db0: map<Key, Value>, lost: iset<(Key, TxnId)>)
    requires BaseInv(s) && ValueInv(s, db0, lost) && Enabled(s, a) && OnlyDecides(s, a, Next(s, a)) && (a.DecideCommit? || a.DeliverCommit?)
    ensures ValueInv(Next(s, a), db0, lost)
  {
    hide Next, BaseInv, Legal, Free, RecordsOk, Serial, EventsOf, After, RolledBack, Gone, HeldAt, SerialHistory;
    RecordsLockedKept(s, a);
    SerialDecision(s, a, db0);
    RollbackDecision(s, a, db0, lost);
    NothingOverwritten(s, a, lost);
    LostAreHeldKept(s, a, db0, lost);
    OwnersDecision(s, a, db0);
    SameCoords(s, a);
    forall t | Open(Next(s, a), t)
      ensures Legal(EventsOf(Next(s, a).history, t), SerialStore(Next(s, a), db0))
    {
      OpenLegalDecision(s, a, db0, t);
    }
    forall k | Free(Next(s, a), k)
      ensures Look(Next(s, a).db, k) == SerialStore(Next(s, a), db0)(k)
    {
      FreeDecision(s, a, db0, k);
    }
  }

  lemma ValuesAfterOther(s: State, a: Action, db0: map<Key, Value>, lost: iset<(Key, TxnId)>)
    requires BaseInv(s) && ValueInv(s, db0, lost) && Enabled(s, a) && SameData(s, Next(s, a)) && !a.Access? && !a.UndoOne?
    requires !FreesLost(s, a, lost)
    ensures ValueInv(Next(s, a), db0, lost)
  {
    hide Next, BaseInv, Legal, Free, RecordsOk, Serial, EventsOf, After, RolledBack, Gone, HeldAt;
    RecordsLockedKept(s, a);
    OpenLegalSameData(s, a, db0);
    RollbackSameData(s, a, db0, lost);
    OwnersSameData(s, a, db0, lost);
    FreeSameData(s, a, db0, lost);
    NothingOverwritten(s, a, lost);
    LostAreHeldKept(s, a, db0, lost);
  }

  lemma ValueInvKept(s: State, a: Action, db0: map<Key, Value>, lost: iset<(Key, TxnId)>)
    requires BaseInv(s) && ValueInv(s, db0, lost) && Enabled(s, a) && !FreesLost(s, a, lost)
    ensures ValueInv(Next(s, a), db0, lost + Overwritten(s, a))
  {
    hide Next, ValueInv, ProtocolInv, FreesLost, Overwritten;
    DataMoves(s, a);
    DecisionGrowth(s, a);
    if a.Access? {
      ValuesAfterAccess(s, a, db0, lost);
    } else {
      NothingOverwritten(s, a, lost);
      if a.UndoOne? {
        ValuesAfterUndo(s, a, db0, lost);
      } else if Next(s, a).decisions == s.decisions {
        ValuesAfterOther(s, a, db0, lost);
      } else {
        ValuesAfterDecision(s, a, db0, lost);
      }
    }
  }

  lemma InitialValues(db: map<Key, Value>)
    ensures ValueInv(Initial(db), db, iset{})
  {
  }

  /** In the first `n` steps of the run no aborted participant unlocks a row of which it lost a key. */
  ghost predicate LosesNothing(db: map<Key, Value>, states: seq<State>, actions: seq<Action>, n: nat)
    requires IsRun(db, states, actions) && n <= |actions|
  {
    forall i :: 0 <= i < n ==> !FreesLost(states[i], actions[i], Lost(db, states, actions, i))
  }

  lemma BaseByOrder(s: State)
    requires OrderInv(s)
    ensures BaseInv(s) && DistinctDecisions(s.decisions)
  {
  }

  lemma BaseInvHolds(db: map<Key, Value>, states: seq<State>, actions: seq<Action>, i: nat)
    requires IsRun(db, states, actions) && i < |states|
    ensures BaseInv(states[i]) && DistinctDecisions(states[i].decisions)
  {
    hide Next, Enabled;
    OrderInvHolds(db, states, actions, i);
    BaseByOrder(states[i]);
  }

  lemma {:induction false} ValueInvHolds(db: map<Key, Value>, states: seq<State>, actions: seq<Action>, i: nat)
    requires IsRun(db, states, actions) && i < |states| && LosesNothing(db, states, actions, i)
    ensures ValueInv(states[i], db, Lost(db, states, actions, i))
  {
    hide ValueInv, Next, Enabled, BaseInv, FreesLost, Overwritten;
    if i == 0 {
      InitialValues(db);
    } else {
      ValueInvHolds(db, states, actions, i - 1);
      BaseInvHolds(db, states, actions, i - 1);
      ValueInvKept(states[i - 1], actions[i - 1], db, Lost(db, states, actions, i - 1));
    }
  }

  /** What serializability on values says of a state: run the committed transactions one after the other
      in decision order, each with its own accesses. Every one of those accesses reports what it
      reported in the interleaved run, and every key that no undecided transaction has locked
      exclusively holds the value that the serial execution leaves. */
  ghost predicate Serialized(s: State, db: map<Key, Value>) {
    && Legal(SerialHistory(s), Store(db))
    && (forall t :: EventsOf(SerialHistory(s), t) == if t in s.decisions then EventsOf(s.history, t) else [])
    && (forall k :: Free(s, k) ==> Look(s.db, k) == After(SerialHistory(s), k, Look(db, k)))
  }

  /** Global serializability, as long as nothing lost has been unlocked. */
  lemma Serializable(db: map<Key, Value>, states: seq<State>, actions: seq<Action>, i: nat)
    requires IsRun(db, states, actions) && i < |states| && LosesNothing(db, states, actions, i)
    ensures Serialized(states[i], db)
  {
    hide Next, Enabled, OpenAreLegal, RollbackRestores, OwnersSeeOwnWrites, RecordsLocked, LostAreHeld, FreesLost, Lost;
    BaseInvHolds(db, states, actions, i);
    hide BaseInv;
    ValueInvHolds(db, states, actions, i);
    forall t
      ensures EventsOf(SerialHistory(states[i]), t) == if t in states[i].decisions then EventsOf(states[i].history, t) else []
    {
      SerialIsComplete(states[i].history, states[i].decisions, t);
    }
  }

  /** The first unlocking of something lost. */
  lemma {:induction false} FirstLoss(db: map<Key, Value>, states: seq<State>, actions: seq<Action>, n: nat) returns (i: nat)
    requires IsRun(db, states, actions) && n <= |actions| && !LosesNothing(db, states, actions, n)
    ensures i < n && LosesNothing(db, states, actions, i)
    ensures FreesLost(states[i], actions[i], Lost(db, states, actions, i))
  {
    hide Next, Enabled, FreesLost, Lost;
    if LosesNothing(db, states, actions, n - 1) {
      i := n - 1;
    } else {
      i := FirstLoss(db, states, actions, n - 1);
    }
  }

  lemma LossShows(db: map<Key, Value>, states: seq<State>, actions: seq<Action>, i: nat)
    requires IsRun(db, states, actions) && i < |actions| && LosesNothing(db, states, actions, i)
    requires FreesLost(states[i], actions[i], Lost(db, states, actions, i))
    ensures !Serialized(states[i + 1], db)
  {
    hide Next, Enabled, SerialIsLegal, OpenAreLegal, RollbackRestores, OwnersSeeOwnWrites, RecordsLocked, LostAreHeld, FreesLost, Lost, After, SerialHistory, Free, BaseInv;
    BaseInvHolds(db, states, actions, i);
    ValueInvHolds(db, states, actions, i);
    FreedLossShows(states[i], actions[i], db, Lost(db, states, actions, i));
  }

  /** Exactly when a run is serializable on values: every state of it is, if and only if no aborted
      participant ever unlocks a row in which its first write to some key was a put over an existing
      value. Overwriting puts of transactions that commit, and of aborted ones that still hold their
      locks, do no harm. */
  lemma SerializableIff(db: map<Key, Value>, states: seq<State>, actions: seq<Action>)
    requires IsRun(db, states, actions)
    ensures (forall i :: 0 <= i < |states| ==> Serialized(states[i], db)) <==> LosesNothing(db, states, actions, |actions|)
  {
    hide Next, Enabled, Serialized, FreesLost, Lost;
    if LosesNothing(db, states, actions, |actions|) {
      forall i | 0 <= i < |states|
        ensures Serialized(states[i], db)
      {
        Serializable(db, states, actions, i);
      }
    } else {
      var i := FirstLoss(db, states, actions, |actions|);
      LossShows(db, states, actions, i);
    }
  }

  /** While a transaction keeps a key locked and stays undecided, decisions of others do not change
      the committed value of the key. */
  lemma {:induction false} CommittedValueIsStable(
      db: map<Key, Value>, states: seq<State>, actions: seq<Action>, j: nat, i: nat, k: Key, t: TxnId)
    requires IsRun(db, states, actions) && j <= i < |states|
    requires forall m :: j <= m <= i ==> HoldsX(states[m], k, t) && t !in states[m].decisions
    ensures SerialStore(states[i], db)(k) == SerialStore(states[j], db)(k)
  {
    hide Next, Enabled, BaseInv, Serial, After;
    if j < i {
      CommittedValueIsStable(db, states, actions, j, i - 1, k, t);
      var (s, a) := (states[i - 1], actions[i - 1]);
      BaseInvHolds(db, states, actions, i - 1);
      assert HoldsX(s, k, t) && t !in states[i].decisions;
      CommittedValueStep(s, a, db, k, t);
    }
  }

  lemma {:induction false} RecordsLockedHolds(db: map<Key, Value>, states: seq<State>, actions: seq<Action>, i: nat)
    requires IsRun(db, states, actions) && i < |states|
    ensures RecordsLocked(states[i])
  {
    hide Next, Enabled, BaseInv, RecordsOk;
    if i > 0 {
      RecordsLockedHolds(db, states, actions, i - 1);
      BaseInvHolds(db, states, actions, i - 1);
      RecordsLockedKept(states[i - 1], actions[i - 1]);
    }
  }

  /** Did the transaction overwrite a value of the key, as its first write to it, in steps `j` to `i`? */
  ghost predicate OverwroteIn(
      db: map<Key, Value>, states: seq<State>, actions: seq<Action>, j: nat, i: nat, k: Key, t: TxnId)
    requires IsRun(db, states, actions) && i <= |actions|
  {
    exists m :: j <= m < i && (k, t) in Overwritten(states[m], actions[m])
  }

  /** One step under the exclusive lock: only the holder touches the key, and only an overwriting put
      changes what its rollback will leave. */
  lemma RollbackStep(s: State, a: Action, k: Key, t: TxnId)
    requires BaseInv(s) && RecordsLocked(s) && Enabled(s, a) && HoldsX(s, k, t) && (k.node, t) in s.parts
    ensures (k.node, t) in Next(s, a).parts
    ensures RolledBack(Next(s, a).parts[(k.node, t)].writes, k, Look(Next(s, a).db, k)) ==
            if (k, t) in Overwritten(s, a) then None else RolledBack(s.parts[(k.node, t)].writes, k, Look(s.db, k))
  {
    hide Next, AccessEffect, UndoEffect, RolledBack, HeldAt, Gone, BaseInv, LockInv, RecordsLocked;
    DataMoves(s, a);
    PartMoves(s, a, k.node, t);
    BaseGivesLocks(s);
    var ws := s.parts[(k.node, t)].writes;
    if a.Access? {
      UntouchedElsewhere(s.db, s.parts[(a.key.node, a.t)].writes, a.key, a.request);
      if t == a.t && k == a.key && Overwriting(s, a) {
        OverwriteIsUnrecorded(s.db, ws, k, a.request.value);
      } else if t == a.t && k.node == a.key.node {
        AccessRollsBack(s.db, ws, a.key, a.request, k);
      } else if k == a.key {
        ExclusiveIsAlone(s, k, t, a.t);
      }
    } else if a.UndoOne? {
      UndoIsExclusive(s, a);
      UndoLooks(s.db, s.parts[(a.n, a.t)].writes[|s.parts[(a.n, a.t)].writes| - 1]);
      if t == a.t && k.node == a.n {
        RolledBackLast(ws, k, Look(s.db, k));
      } else if k == s.parts[(a.n, a.t)].writes[|s.parts[(a.n, a.t)].writes| - 1].key {
        ExclusiveIsAlone(s, k, a.t, t);
      }
    } else {
      WritesMove(s, a, k.node, t);
    }
  }

  lemma {:induction false} RollbackWhileHeld(
      db: map<Key, Value>, states: seq<State>, actions: seq<Action>, j: nat, i: nat, k: Key, t: TxnId)
    requires IsRun(db, states, actions) && j <= i < |states|
    requires forall m :: j <= m <= i ==> HoldsX(states[m], k, t)
    requires (k.node, t) in states[j].parts && !Recorded(states[j].parts[(k.node, t)].writes, k)
    ensures (k.node, t) in states[i].parts
    ensures RolledBack(states[i].parts[(k.node, t)].writes, k, Look(states[i].db, k)) ==
            if OverwroteIn(db, states, actions, j, i, k, t) then None else Look(states[j].db, k)
    ensures OverwroteIn(db, states, actions, j, i, k, t) ==> k in states[j].db
  {
    hide Next, Enabled, BaseInv, RecordsLocked, RolledBack, HeldAt;
    if i == j {
      RolledBackUnrecorded(states[j].parts[(k.node, t)].writes, k, Look(states[j].db, k));
    } else {
      RollbackWhileHeld(db, states, actions, j, i - 1, k, t);
      var (s, a) := (states[i - 1], actions[i - 1]);
      BaseInvHolds(db, states, actions, i - 1);
      RecordsLockedHolds(db, states, actions, i - 1);
      assert HoldsX(s, k, t);
      RollbackStep(s, a, k, t);
      if (k, t) in Overwritten(s, a) {
        RolledBackUnrecorded(s.parts[(k.node, t)].writes, k, Look(s.db, k));
      }
    }
  }

  /** Rollback: at some moment before a transaction first writes a key it has locked, the key holds some
      value; when the rollback of the transaction is complete, the key holds that value again if and
      only if the transaction's first write did not overwrite it, whatever other transactions did in
      between. */
  lemma RollbackRestoresFirstValue(
      db: map<Key, Value>, states: seq<State>, actions: seq<Action>, j: nat, i: nat, k: Key, t: TxnId)
    requires IsRun(db, states, actions) && j <= i < |states|
    requires forall m :: j <= m <= i ==> HoldsX(states[m], k, t)
    requires (k.node, t) in states[j].parts && !Recorded(states[j].parts[(k.node, t)].writes, k)
    requires (k.node, t) in states[i].parts && states[i].parts[(k.node, t)].stage == Releasing(Abort)
    ensures Look(states[i].db, k) == Look(states[j].db, k) <==> !OverwroteIn(db, states, actions, j, i, k, t)
    ensures OverwroteIn(db, states, actions, j, i, k, t) ==> Look(states[i].db, k) == None
  {
    hide Next, Enabled, BaseInv, HeldAt;
    RollbackWhileHeld(db, states, actions, j, i, k, t);
    RecordsLockedHolds(db, states, actions, i);
    assert RecordsOk(states[i], k.node, t);
  }
}
