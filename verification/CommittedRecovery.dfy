/** Recovery against the committed transactions of the whole system: when does recovering a node give the
    values that the serial execution of the committed transactions leaves there? */
module CommittedRecovery {
  import opened Common
  import opened LockQueue
  import opened LockManager
  import opened Txn
  import opened Cluster
  import opened AtomicCommit
  import opened LockSafety
  import opened ConflictOrder
  import opened Histories
  import opened Serializability
  import opened NodeLogs
  import opened NodeRecovery
  import L = LogRecords
  import R = Recoveries

  ghost predicate TouchedBy(rs: seq<L.LogRecord>, t: TxnId, text: Bytes) {
    exists j :: 0 <= j < |rs| && rs[j].txn == t && R.Touches(rs[j], text)
  }

  /** Whatever an open transaction can roll back, and whatever is lost, is in the log. */
  ghost predicate WritesAreLogged(s: State, rs: seq<L.LogRecord>, n: NodeId, lost: iset<(Key, TxnId)>) {
    && (forall t: TxnId, text :: OpenAt(s, n, t) && Recorded(s.parts[(n, t)].writes, Key(n, text)) ==> TouchedBy(rs, t, text))
    && (forall t: TxnId, text :: (Key(n, text), t) in lost ==> TouchedBy(rs, t, text))
  }

  /** What an undecided transaction met at its first write of a key is still the committed value. */
  ghost predicate MetIsCommitted(s: State, db: map<Key, Value>, rs: seq<L.LogRecord>, n: NodeId, text: Bytes) {
    var f := R.FirstTouch(rs, R.LoserRecords(rs), text, 0);
    f < |rs| && rs[f].txn !in s.decisions ==> R.At(R.Replay(rs[..f]), text) == SerialStore(s, db)(Key(n, text))
  }

  ghost predicate AllMetAreCommitted(s: State, db: map<Key, Value>, rs: seq<L.LogRecord>, n: NodeId) {
    forall text :: MetIsCommitted(s, db, rs, n, text)
  }

  // ---- one step ---------------------------------------------------------------------------------------

  lemma TouchedStays(rs: seq<L.LogRecord>, e: Option<(TxnId, L.Op)>, t: TxnId, text: Bytes)
    requires TouchedBy(rs, t, text) || (e.Some? && e.value.0 == t && (e.value.1.Insert? || e.value.1.Delete?) && e.value.1.key == text)
    ensures TouchedBy(Appended(rs, e), t, text)
  {
    var rs' := Appended(rs, e);
    if TouchedBy(rs, t, text) {
      var j :| 0 <= j < |rs| && rs[j].txn == t && R.Touches(rs[j], text);
      assert rs'[j] == rs[j];
    } else {
      assert R.Touches(rs'[|rs|], text);
    }
  }

  /** An access that adds a write record also logs. */
  lemma RecordIsLogged(db: map<Key, Value>, ws: seq<WriteRecord>, key: Key, request: Request)
    requires AccessEffect(db, ws, key, request).0 != ws
    ensures AccessOp(db, key, request).Some?
  {
  }

  lemma PutIsLogged(db: map<Key, Value>, key: Key, request: Request)
    requires request.DoPut?
    ensures AccessOp(db, key, request).Some?
  {
  }

  ghost predicate LogsWriteOf(e: Option<(TxnId, L.Op)>, t: TxnId, text: Bytes) {
    e.Some? && e.value.0 == t && (e.value.1.Insert? || e.value.1.Delete?) && e.value.1.key == text
  }

  /** A new write record is of a key that the step logs. */
  lemma NewRecordIsLogged(s: State, a: Action, n: NodeId, t: TxnId, text: Bytes)
    requires Enabled(s, a) && OpenAt(Next(s, a), n, t) && Recorded(Next(s, a).parts[(n, t)].writes, Key(n, text))
    requires !(OpenAt(s, n, t) && Recorded(s.parts[(n, t)].writes, Key(n, text)))
    ensures LogsWriteOf(LoggedAt(s, a, n), t, text)
  {
    hide Next, AccessEffect, AccessOp, UndoEffect, UndoOp, LockOn, UnlockOn;
    RecordsMove(s, a, n, t);
    AccessLogsWrites(s, a);
    DataMoves(s, a);
    RecordIsLogged(s.db, s.parts[(a.key.node, a.t)].writes, a.key, a.request);
  }

  /** So is a new loss. */
  lemma NewLossIsLogged(s: State, a: Action, n: NodeId, t: TxnId, text: Bytes)
    requires Enabled(s, a) && (Key(n, text), t) in Overwritten(s, a)
    ensures LogsWriteOf(LoggedAt(s, a, n), t, text)
  {
    hide AccessOp, UndoOp;
    AccessLogsWrites(s, a);
    PutIsLogged(s.db, a.key, a.request);
  }

  lemma WritesAreLoggedKept(s: State, a: Action, rs: seq<L.LogRecord>, n: NodeId, lost: iset<(Key, TxnId)>)
    requires Enabled(s, a) && WritesAreLogged(s, rs, n, lost)
    ensures WritesAreLogged(Next(s, a), Appended(rs, LoggedAt(s, a, n)), n, lost + Overwritten(s, a))
  {
    hide Next, Enabled, LoggedAt, Overwritten, TouchedBy, Appended, Recorded;
    var (s', e) := (Next(s, a), LoggedAt(s, a, n));
    forall t: TxnId, text | OpenAt(s', n, t) && Recorded(s'.parts[(n, t)].writes, Key(n, text))
      ensures TouchedBy(Appended(rs, e), t, text)
    {
      if !(OpenAt(s, n, t) && Recorded(s.parts[(n, t)].writes, Key(n, text))) { NewRecordIsLogged(s, a, n, t, text); }
      TouchedStays(rs, e, t, text);
    }
    forall t: TxnId, text | (Key(n, text), t) in lost + Overwritten(s, a)
      ensures TouchedBy(Appended(rs, e), t, text)
    {
      if (Key(n, text), t) !in lost { NewLossIsLogged(s, a, n, t, text); }
      TouchedStays(rs, e, t, text);
    }
  }

  /** The first touch of an open transaction stays the first. */
  lemma FirstTouchStays(s: State, a: Action, rs: seq<L.LogRecord>, n: NodeId, text: Bytes)
    requires LogInv(s, rs, n) && Enabled(s, a)
    requires var rs' := Appended(rs, LoggedAt(s, a, n)); R.FirstTouch(rs', R.LoserRecords(rs'), text, 0) < |rs|
    ensures var rs' := Appended(rs, LoggedAt(s, a, n));
            var f := R.FirstTouch(rs', R.LoserRecords(rs'), text, 0);
            && R.FirstTouch(rs, R.LoserRecords(rs), text, 0) == f && rs'[..f] == rs[..f] && rs'[f] == rs[f]
            && rs[f].txn in R.Losers(rs)
  {
    hide Next, Enabled, LoggedAt, OpenAt, LosersAreOpen, WritersAreKnown, WritesAreHeld, R.Losers, R.WellFormed;
    var rs' := Appended(rs, LoggedAt(s, a, n));
    var (f, f') := (R.FirstTouch(rs, R.LoserRecords(rs), text, 0), R.FirstTouch(rs', R.LoserRecords(rs'), text, 0));
    hide R.FirstTouch;
    assert forall j :: 0 <= j < |rs| ==> rs'[j] == rs[j];
    StillLoser(s, a, rs, n, f');
    assert f <= f' && rs'[f] == rs[f];
  }

  /** The first write that an open transaction logs of a key is an access to the committed value. */
  lemma FirstWriteMeetsCommitted(s: State, a: Action, db: map<Key, Value>, rs: seq<L.LogRecord>, n: NodeId,
                                 lost: iset<(Key, TxnId)>, text: Bytes)
    requires BaseInv(s) && RecordsLocked(s) && RollbackRestores(s, db, lost) && Enabled(s, a)
    requires WritesAreLogged(s, rs, n, lost) && LoggedAt(s, a, n).Some?
    requires var t := LoggedAt(s, a, n).value.0; LogsWriteOf(LoggedAt(s, a, n), t, text) && !TouchedBy(rs, t, text)
    ensures HoldsX(s, Key(n, text), LoggedAt(s, a, n).value.0)
    ensures LoggedAt(s, a, n).value.0 !in s.decisions ==> Look(s.db, Key(n, text)) == SerialStore(s, db)(Key(n, text))
  {
    hide Next, BaseInv, HeldAt, AccessOp, UndoOp, TouchedBy, After, Serial, SerialHistory, RolledBack, RecordsLocked;
    var (t, k) := (LoggedAt(s, a, n).value.0, Key(n, text));
    WriterHolds(s, a, n);
    AccessLogsWrites(s, a);
    if a.UndoOne? { UndoIsExclusive(s, a); }
    RolledBackUnrecorded(s.parts[(n, t)].writes, k, Look(s.db, k));
  }

  lemma TouchMeansFirst(rs: seq<L.LogRecord>, t: TxnId, text: Bytes)
    requires TouchedBy(rs, t, text) && t in R.Losers(rs)
    ensures R.FirstTouch(rs, R.LoserRecords(rs), text, 0) < |rs|
  {
    hide R.Losers;
  }

  lemma DecisionsGrow(s: State, a: Action, t: TxnId)
    requires Enabled(s, a) && t !in Next(s, a).decisions
    ensures t !in s.decisions
  {
    hide Next;
    LogAndMessagesGrow(s, a);
  }

  lemma NotTouchedBefore(rs: seq<L.LogRecord>, rs': seq<L.LogRecord>, t: TxnId, text: Bytes)
    requires |rs'| == |rs| + 1 && rs'[..|rs|] == rs && t in R.Losers(rs') && R.FirstTouch(rs', R.LoserRecords(rs'), text, 0) == |rs|
    ensures !TouchedBy(rs, t, text)
  {
    hide R.Losers;
    assert forall j :: 0 <= j < |rs| ==> rs'[j] == rs[j];
  }

  lemma MetIsCommittedKept(s: State, a: Action, db: map<Key, Value>, rs: seq<L.LogRecord>, n: NodeId,
                           lost: iset<(Key, TxnId)>, text: Bytes)
    requires BaseInv(s) && RecordsLocked(s) && RollbackRestores(s, db, lost) && Enabled(s, a)
    requires LogInv(s, rs, n) && LogIsStore(s, rs, n) && WritesAreLogged(s, rs, n, lost) && MetIsCommitted(s, db, rs, n, text)
    ensures MetIsCommitted(Next(s, a), db, Appended(rs, LoggedAt(s, a, n)), n, text)
  {
    hide Next, Enabled, LoggedAt, BaseInv, HeldAt, RecordsLocked, RollbackRestores, WritesAreLogged, TouchedBy, OpenAt;
    hide R.Losers, R.Replay, R.WellFormed, R.LockedToTheEnd, LosersAreOpen, WritersAreKnown, After, Serial, SerialHistory;
    var rs' := Appended(rs, LoggedAt(s, a, n));
    var f := R.FirstTouch(rs', R.LoserRecords(rs'), text, 0);
    if f < |rs'| && rs'[f].txn !in Next(s, a).decisions {
      var t := rs'[f].txn;
      DecisionsGrow(s, a, t);
      if f < |rs| {
        FirstTouchStays(s, a, rs, n, text);
      } else {
        NotTouchedBefore(rs, rs', t, text);
        FirstWriteMeetsCommitted(s, a, db, rs, n, lost, text);
        assert rs'[..f] == rs;
      }
      CommittedValueStep(s, a, db, Key(n, text), t);
    }
  }

  // ---- every run --------------------------------------------------------------------------------------

  lemma NothingLogged(db: map<Key, Value>, n: NodeId)
    ensures WritesAreLogged(Initial(db), [], n, iset{}) && AllMetAreCommitted(Initial(db), db, [], n)
  {
  }

  lemma {:induction false} WritesAreLoggedHolds(db: map<Key, Value>, states: seq<State>, actions: seq<Action>, n: NodeId, i: nat)
    requires IsRun(db, states, actions) && i < |states|
    ensures WritesAreLogged(states[i], NodeLog(db, states, actions, n, i), n, Lost(db, states, actions, i))
  {
    hide Next, Enabled, LoggedAt, WritesAreLogged, Overwritten, Appended;
    if i == 0 {
      NothingLogged(db, n);
    } else {
      WritesAreLoggedHolds(db, states, actions, n, i - 1);
      WritesAreLoggedKept(states[i - 1], actions[i - 1], NodeLog(db, states, actions, n, i - 1), n, Lost(db, states, actions, i - 1));
    }
  }

  lemma {:induction false} MetAreCommitted(db: map<Key, Value>, states: seq<State>, actions: seq<Action>, n: NodeId, i: nat)
    requires IsRun(db, states, actions) && i < |states| && forall k: Key :: k in db ==> k.node != n
    requires LosesNothing(db, states, actions, i)
    ensures AllMetAreCommitted(states[i], db, NodeLog(db, states, actions, n, i), n)
  {
    hide Next, Enabled, LoggedAt, WritesAreLogged, MetIsCommitted, Appended, Lost, FreesLost, LogInv, LogIsStore;
    hide BaseInv, RecordsLocked;
    hide RollbackRestores, LostAreHeld, SerialIsLegal, OpenAreLegal, OwnersSeeOwnWrites, FreeKeysCommitted;
    if i == 0 {
      NothingLogged(db, n);
    } else {
      MetAreCommitted(db, states, actions, n, i - 1);
      WritesAreLoggedHolds(db, states, actions, n, i - 1);
      NodeLogsAreLocked(db, states, actions, n, i - 1);
      NodeLogIsStore(db, states, actions, n, i - 1);
      BaseInvHolds(db, states, actions, i - 1);
      RecordsLockedHolds(db, states, actions, i - 1);
      ValueInvHolds(db, states, actions, i - 1);
      var (s, a, rs) := (states[i - 1], actions[i - 1], NodeLog(db, states, actions, n, i - 1));
      forall text
        ensures MetIsCommitted(states[i], db, NodeLog(db, states, actions, n, i), n, text)
      {
        MetIsCommittedKept(s, a, db, rs, n, Lost(db, states, actions, i - 1), text);
      }
    }
  }

  // ---- recovery ---------------------------------------------------------------------------------------

  /** Does recovery leave under the key what the committed transactions have left: the value that its open writer met,
      or, when that one is decided itself, the value that it has written? */
  ghost predicate SafeToUndo(s: State, rs: seq<L.LogRecord>, text: Bytes) {
    var w := R.FirstTouch(rs, R.LoserRecords(rs), text, 0);
    w < |rs| ==> R.Left(rs, text) == R.At(R.Replay(if rs[w].txn in s.decisions then rs else rs[..w]), text)
  }

  /** Has an aborted transaction, which still holds its locks, already lost the value of the key? */
  ghost predicate LostBefore(s: State, k: Key, lost: iset<(Key, TxnId)>) {
    exists t :: (k, t) in lost && (k.node, t) in s.parts && s.parts[(k.node, t)].stage == Releasing(Abort)
  }

  /** An aborted transaction that has lost the key still holds it, alone. */
  lemma LostIsHeld(s: State, db: map<Key, Value>, k: Key, t: TxnId, lost: iset<(Key, TxnId)>)
    requires BaseInv(s) && LostAreHeld(s, db, lost)
    requires (k, t) in lost && (k.node, t) in s.parts && s.parts[(k.node, t)].stage == Releasing(Abort)
    ensures HoldsX(s, k, t) && t !in s.decisions && SerialStore(s, db)(k).Some?
  {
    hide HeldAt, After, Serial, SerialHistory;
    AbortedIsUndecided(s, k.node, t);
  }

  /** A key that an open transaction has written: only that transaction matters. */
  lemma TouchedKey(s: State, db: map<Key, Value>, rs: seq<L.LogRecord>, n: NodeId, lost: iset<(Key, TxnId)>, text: Bytes)
    requires BaseInv(s) && LostAreHeld(s, db, lost) && FreeKeysCommitted(s, db)
    requires LogInv(s, rs, n) && LogIsStore(s, rs, n) && MetIsCommitted(s, db, rs, n, text)
    requires R.FirstTouch(rs, R.LoserRecords(rs), text, 0) < |rs|
    ensures R.At(R.Recovered(rs), text) == SerialStore(s, db)(Key(n, text)) <==> SafeToUndo(s, rs, text)
    ensures !LostBefore(s, Key(n, text), lost)
  {
    hide BaseInv, HeldAt, After, Serial, SerialHistory, LostAreHeld;
    hide R.Losers, R.Replay, R.WellFormed, R.LockedToTheEnd, R.Recovered, R.Left, WritersAreKnown, OpenLogs;
    var (k, f) := (Key(n, text), R.FirstTouch(rs, R.LoserRecords(rs), text, 0));
    var t := rs[f].txn;
    R.RecoveredAt(rs, text);
    BaseGivesLocks(s);
    assert HoldsX(s, k, t);
    forall u | HoldsX(s, k, u)
      ensures u == t
    {
      BothHold(s, k, t, u);
    }
    if u :| (k, u) in lost && (n, u) in s.parts && s.parts[(n, u)].stage == Releasing(Abort) {
      LostIsHeld(s, db, k, u, lost);
    }
    assert R.At(R.Replay(rs), text) == Look(s.db, k);
  }

  /** A participant that holds a key and has not written it has rolled back, or has never written it. */
  lemma HolderHasNoRecord(s: State, rs: seq<L.LogRecord>, n: NodeId, lost: iset<(Key, TxnId)>, text: Bytes, u: TxnId)
    requires BaseInv(s) && RecordsLocked(s) && LogInv(s, rs, n) && WritesAreLogged(s, rs, n, lost)
    requires R.FirstTouch(rs, R.LoserRecords(rs), text, 0) == |rs|
    requires HoldsX(s, Key(n, text), u) && u !in s.decisions && (n, u) in s.parts
    ensures !Recorded(s.parts[(n, u)].writes, Key(n, text))
    ensures (Key(n, text), u) in lost ==> s.parts[(n, u)].stage == Releasing(Abort)
  {
    hide TouchedBy, R.Losers, R.LoserRecords, R.WellFormed, R.LockedToTheEnd, R.FirstTouch, WritersAreKnown;
    hide WritesAreHeld, OpenLogs;
    assert PartOk(s, n, u) && RecordsOk(s, n, u);
    if OpenAt(s, n, u) {
      assert u in R.Losers(rs);
      if TouchedBy(rs, u, text) { TouchMeansFirst(rs, u, text); }
    }
  }

  /** Who has lost the key, if anybody has, is its undecided holder. */
  lemma OnlyHolder(s: State, db: map<Key, Value>, k: Key, u: TxnId, lost: iset<(Key, TxnId)>)
    requires BaseInv(s) && LostAreHeld(s, db, lost)
    requires HoldsX(s, k, u) || forall t :: HoldsX(s, k, t) ==> t in s.decisions
    ensures LostBefore(s, k, lost) ==>
              HoldsX(s, k, u) && u !in s.decisions && (k, u) in lost && (k.node, u) in s.parts && SerialStore(s, db)(k).Some?
  {
    hide BaseInv, HeldAt, After, Serial, SerialHistory, LostAreHeld;
    BaseGivesLocks(s);
    if t :| (k, t) in lost && (k.node, t) in s.parts && s.parts[(k.node, t)].stage == Releasing(Abort) {
      LostIsHeld(s, db, k, t, lost);
      if HoldsX(s, k, u) { BothHold(s, k, t, u); }
    }
  }

  lemma LogIsLinked(s: State, rs: seq<L.LogRecord>, n: NodeId)
    requires LogInv(s, rs, n)
    ensures R.WellLinked(rs)
  {
    hide R.WellFormed, R.WellLinked;
    R.ChainsAreLinks(rs);
  }

  /** A key that no open transaction has written. */
  lemma UntouchedKey(s: State, db: map<Key, Value>, rs: seq<L.LogRecord>, n: NodeId, lost: iset<(Key, TxnId)>, text: Bytes)
    requires BaseInv(s) && RecordsLocked(s) && RollbackRestores(s, db, lost) && LostAreHeld(s, db, lost) && FreeKeysCommitted(s, db)
    requires LogInv(s, rs, n) && LogIsStore(s, rs, n) && WritesAreLogged(s, rs, n, lost)
    requires R.FirstTouch(rs, R.LoserRecords(rs), text, 0) == |rs|
    ensures R.At(R.Recovered(rs), text) == SerialStore(s, db)(Key(n, text)) <==> !LostBefore(s, Key(n, text), lost)
  {
    hide BaseInv, HeldAt, After, Serial, SerialHistory, LostAreHeld, RecordsLocked, WritesAreLogged, LogInv;
    hide RolledBack, Recorded;
    hide R.Losers, R.Replay, R.Recovered, R.FirstTouch, R.Left, R.WellLinked;
    var k := Key(n, text);
    R.RecoveredAt(rs, text);
    LogIsLinked(s, rs, n);
    R.UntouchedIsLeft(rs, text);
    assert R.At(R.Replay(rs), text) == Look(s.db, k);
    if u :| HoldsX(s, k, u) && u !in s.decisions {
      HolderHasNoRecord(s, rs, n, lost, text, u);
      RolledBackUnrecorded(s.parts[(n, u)].writes, k, Look(s.db, k));
      OnlyHolder(s, db, k, u, lost);
    } else {
      OnlyHolder(s, db, k, 0, lost);
    }
  }

  lemma UntouchedIsSafe(s: State, rs: seq<L.LogRecord>, text: Bytes)
    requires R.FirstTouch(rs, R.LoserRecords(rs), text, 0) == |rs|
    ensures SafeToUndo(s, rs, text)
  {
    hide R.FirstTouch;
  }

  /** Unless the open writer of the key has logged a write behind its PREPARED record, all that matters is whether
      undoing its first write leaves the value that it met or, when it is decided, the one that it has written. */
  lemma SafeToUndoIff(s: State, rs: seq<L.LogRecord>, n: NodeId, text: Bytes)
    requires LogInv(s, rs, n)
    requires forall t :: OpenAt(s, n, t) ==> !R.StopsShort(rs, t)
    ensures var w := R.FirstTouch(rs, R.LoserRecords(rs), text, 0);
            SafeToUndo(s, rs, text) <==>
            (w < |rs| ==> R.UndoneValue(rs[w].op) == R.At(R.Replay(if rs[w].txn in s.decisions then rs else rs[..w]), text))
  {
    hide R.Losers, R.LoserRecords, R.Replay, R.FirstTouch, R.Left, R.StopsShort, R.WellFormed, R.SafeKey;
    hide R.SafeFirstWrite, OpenLogs, IsOpenLog, OpenAt;
    LosersHaveOpenLogs(s, rs, n, text);
    OpenIsUndone(rs, text);
  }

  /** Recovering a node that started empty, at any moment of a run that has unlocked nothing lost, gives every key
      the value that the serial execution of the committed transactions leaves, if and only if undo is safe for each
      key of an open transaction and no aborted transaction has lost a value already. */
  lemma RecoversCommittedIff(db: map<Key, Value>, states: seq<State>, actions: seq<Action>, n: NodeId, i: nat)
    requires IsRun(db, states, actions) && i < |states| && forall k: Key :: k in db ==> k.node != n
    requires LosesNothing(db, states, actions, i)
    ensures var (s, rs, lost) := (states[i], NodeLog(db, states, actions, n, i), Lost(db, states, actions, i));
            (forall text :: R.At(R.Recovered(rs), text) == SerialStore(s, db)(Key(n, text))) <==>
            (forall text :: SafeToUndo(s, rs, text) && !LostBefore(s, Key(n, text), lost))
  {
    hide Next, Enabled, LoggedAt, WritesAreLogged, MetIsCommitted, Lost, LogInv, LogIsStore, BaseInv, RecordsLocked;
    hide FreesLost, NodeLog;
    hide RollbackRestores, LostAreHeld, SerialIsLegal, OpenAreLegal, OwnersSeeOwnWrites, FreeKeysCommitted;
    hide SafeToUndo, LostBefore, SerialStore, R.Recovered;
    var (s, rs, lost) := (states[i], NodeLog(db, states, actions, n, i), Lost(db, states, actions, i));
    MetAreCommitted(db, states, actions, n, i);
    WritesAreLoggedHolds(db, states, actions, n, i);
    NodeLogsAreLocked(db, states, actions, n, i);
    NodeLogIsStore(db, states, actions, n, i);
    BaseInvHolds(db, states, actions, i);
    RecordsLockedHolds(db, states, actions, i);
    ValueInvHolds(db, states, actions, i);
    forall text
      ensures R.At(R.Recovered(rs), text) == SerialStore(s, db)(Key(n, text)) <==>
              SafeToUndo(s, rs, text) && !LostBefore(s, Key(n, text), lost)
    {
      if R.FirstTouch(rs, R.LoserRecords(rs), text, 0) < |rs| {
        TouchedKey(s, db, rs, n, lost, text);
      } else {
        UntouchedKey(s, db, rs, n, lost, text);
        UntouchedIsSafe(s, rs, text);
      }
    }
  }
}
