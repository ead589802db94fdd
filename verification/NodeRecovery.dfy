/** The log that each node of the cluster writes in a run, and what recovering that node from it gives. */
module NodeRecovery {
  import opened Common
  import opened LockQueue
  import opened LockManager
  import opened Txn
  import opened Cluster
  import opened AtomicCommit
  import opened LockSafety
  import opened ConflictOrder
  import opened Serializability
  import opened NodeLogs
  import opened LogChain
  import L = LogRecords
  import M = LogManagers
  import R = Recoveries

  function For(t: TxnId, op: Option<L.Op>): Option<(TxnId, L.Op)> {
    match op
    case Some(o) => Some((t, o))
    case None => None
  }

  /** What a step of the cluster logs at a node, if anything, and for which transaction. */
  ghost function LoggedAt(s: State, a: Action, n: NodeId): Option<(TxnId, L.Op)>
    requires Enabled(s, a)
  {
    match a
    case Start(m, t) => if m == n then Some((t, L.Begin)) else None
    case Access(key, t, request) => if key.node == n then For(t, AccessOp(s.db, key, request)) else None
    case Prepare(m, t) => if m == n && s.parts[(n, t)].view.state !in {Aborted, Prepared} then Some((t, L.Prepared)) else None
    case DeliverCommit(m, t) => if m == n && s.parts[(n, t)].view.state != Aborted then Some((t, L.Commit)) else None
    case UndoOne(m, t) => if m == n then For(t, UndoOp(s.db, s.parts[(n, t)].writes[|s.parts[(n, t)].writes| - 1])) else None
    case FinishUndo(m, t) => if m == n then Some((t, L.Abort)) else None
    case _ => None
  }

  function Appended(rs: seq<L.LogRecord>, e: Option<(TxnId, L.Op)>): seq<L.LogRecord> {
    match e
    case Some((t, op)) => Logged(rs, t, LastOf(L.Links(rs), t), op)
    case None => rs
  }

  /** The log of node `n` after `i` steps of the run. */
  ghost function NodeLog(db: map<Key, Value>, states: seq<State>, actions: seq<Action>, n: NodeId, i: nat): seq<L.LogRecord>
    requires IsRun(db, states, actions) && i <= |actions|
  {
    if i == 0 then [] else
      Appended(NodeLog(db, states, actions, n, i - 1), LoggedAt(states[i - 1], actions[i - 1], n))
  }

  /** The transaction has neither committed nor finished rolling back at the node. */
  predicate OpenAt(s: State, n: NodeId, t: TxnId) {
    (n, t) in s.parts && s.parts[(n, t)].stage in {Running, Undoing}
  }

  /** The log leaves open exactly the transactions that are. */
  ghost predicate LosersAreOpen(s: State, rs: seq<L.LogRecord>, n: NodeId) {
    forall t: TxnId :: t in R.Losers(rs) <==> OpenAt(s, n, t)
  }

  /** Whatever an open transaction has logged a write of, it still has locked. */
  ghost predicate WritesAreHeld(s: State, rs: seq<L.LogRecord>, n: NodeId) {
    forall i :: 0 <= i < |rs| && rs[i].txn in R.Losers(rs) && (rs[i].op.Insert? || rs[i].op.Delete?) ==>
                  HoldsX(s, Key(n, rs[i].op.key), rs[i].txn)
  }

  /** Replaying the log gives the store of the node. */
  ghost predicate LogIsStore(s: State, rs: seq<L.LogRecord>, n: NodeId) {
    forall text :: R.At(R.Replay(rs), text) == Look(s.db, Key(n, text))
  }

  ghost predicate WritersAreKnown(s: State, rs: seq<L.LogRecord>, n: NodeId) {
    forall i :: 0 <= i < |rs| ==> (n, rs[i].txn) in s.parts
  }

  /** The log of an open transaction: BEGIN first, and neither COMMIT nor ABORT. */
  ghost predicate IsOpenLog(rs: seq<L.LogRecord>, t: TxnId) {
    && (exists i :: 0 <= i < |rs| && rs[i].txn == t && rs[i].op.Begin?)
    && (forall i :: 0 <= i < |rs| && rs[i].txn == t ==> !rs[i].op.Commit? && !rs[i].op.Abort?)
    && (forall i, j :: 0 <= j < i < |rs| && rs[j].txn == rs[i].txn == t ==> !rs[i].op.Begin?)
  }

  ghost predicate OpenLogs(s: State, rs: seq<L.LogRecord>, n: NodeId) {
    forall t :: OpenAt(s, n, t) ==> IsOpenLog(rs, t)
  }

  ghost predicate LogInv(s: State, rs: seq<L.LogRecord>, n: NodeId) {
    && OpenLogs(s, rs, n) && LosersAreOpen(s, rs, n) && WritersAreKnown(s, rs, n) && WritesAreHeld(s, rs, n)
    && R.LockedToTheEnd(rs, R.Losers(rs)) && R.WellFormed(rs)
  }

  // ---- one step ---------------------------------------------------------------------------------------

  /** A step logs at the node where it happens, for the transaction that takes it. */
  lemma LoggedWhere(s: State, a: Action, n: NodeId)
    requires Enabled(s, a) && LoggedAt(s, a, n).Some?
    ensures !AtCoordinator(a) && PlaceOf(a) == (n, LoggedAt(s, a, n).value.0)
  {
    hide AccessOp, UndoOp;
  }

  /** What `e`, logged by a step, tells of its transaction; `open` and `open'` are whether it was and is open. */
  predicate LogsStage(e: Option<(TxnId, L.Op)>, known: bool, open: bool, open': bool) {
    match e
    case Some((_, op)) => open' == (!op.Commit? && !op.Abort?) && if op.Begin? then !known else open
    case None => open' == open
  }

  /** The data records of the node are of accesses and of steps of rollbacks. */
  lemma AccessLogsWrites(s: State, a: Action)
    requires Enabled(s, a)
    ensures a.Access? ==> match AccessOp(s.db, a.key, a.request)
                          case Some(op) => (op.Insert? || op.Delete?) && op.key == a.key.text && !a.request.DoGet?
                          case None => true
    ensures a.UndoOne? ==>
              var r := s.parts[(a.n, a.t)].writes[|s.parts[(a.n, a.t)].writes| - 1];
              match UndoOp(s.db, r)
              case Some(op) => (op.Insert? || op.Delete?) && op.key == r.key.text
              case None => true
  {
  }

  lemma OwnLogsStage(s: State, a: Action)
    requires Enabled(s, a) && !AtCoordinator(a)
    ensures var (n, t) := PlaceOf(a); LogsStage(LoggedAt(s, a, n), (n, t) in s.parts, OpenAt(s, n, t), OpenAt(Next(s, a), n, t))
  {
    AccessLogsWrites(s, a);
    hide LockOn, UnlockOn, AccessEffect, UndoEffect, AccessOp, UndoOp;
  }

  lemma OpenAtMoves(s: State, a: Action, n: NodeId, t: TxnId)
    requires Enabled(s, a)
    ensures var e := LoggedAt(s, a, n);
            if e.Some? && e.value.0 == t then LogsStage(e, (n, t) in s.parts, OpenAt(s, n, t), OpenAt(Next(s, a), n, t))
            else OpenAt(Next(s, a), n, t) == OpenAt(s, n, t)
    ensures LoggedAt(s, a, n).Some? && LoggedAt(s, a, n).value.0 == t ==> (n, t) in Next(s, a).parts
    ensures (n, t) in s.parts ==> (n, t) in Next(s, a).parts
  {
    hide Next, Enabled, LoggedAt;
    if LoggedAt(s, a, n).Some? { LoggedWhere(s, a, n); }
    if AtCoordinator(a) {
      CoordinatorFrame(s, a);
    } else {
      ParticipantFrame(s, a);
      OwnLogsStage(s, a);
    }
  }

  /** Who logs a write at a node holds its key exclusively. */
  lemma WriterHolds(s: State, a: Action, n: NodeId)
    requires BaseInv(s) && RecordsLocked(s) && Enabled(s, a) && LoggedAt(s, a, n).Some?
    requires var op := LoggedAt(s, a, n).value.1; op.Insert? || op.Delete?
    ensures HoldsX(s, Key(n, LoggedAt(s, a, n).value.1.key), LoggedAt(s, a, n).value.0)
  {
    hide AccessOp, UndoOp, HeldAt;
    AccessLogsWrites(s, a);
    if a.UndoOne? { UndoIsExclusive(s, a); }
  }

  lemma LosersMove(rs: seq<L.LogRecord>, t: TxnId, op: L.Op)
    ensures var rs' := Logged(rs, t, LastOf(L.Links(rs), t), op);
            R.Losers(rs') == if op.Commit? || op.Abort? then R.Losers(rs) - {t} else R.Losers(rs) + {t}
    ensures R.WellFormed(rs) ==> R.WellFormed(Logged(rs, t, LastOf(L.Links(rs), t), op))
  {
    var r := L.LogRecord(|rs|, t, LastOf(L.Links(rs), t), op);
    R.Snoc(rs, r);
    if R.WellFormed(rs) { R.WellFormedSnoc(rs, r); }
  }

  lemma HeldStaysHeld(s: State, a: Action, n: NodeId, k: Key, t: TxnId)
    requires BaseInv(s) && Enabled(s, a) && HoldsX(s, k, t) && OpenAt(s, k.node, t)
    ensures HoldsX(Next(s, a), k, t)
  {
    hide Next, HeldAt;
    BaseGivesLocks(s);
    ExclusiveMoves(s, a, k, t);
  }

  /** A transaction with a record in the log that is open after the step was open before. */
  lemma StillLoser(s: State, a: Action, rs: seq<L.LogRecord>, n: NodeId, i: nat)
    requires LogInv(s, rs, n) && Enabled(s, a) && i < |rs| && rs[i].txn in R.Losers(Appended(rs, LoggedAt(s, a, n)))
    ensures rs[i].txn in R.Losers(rs) && OpenAt(s, n, rs[i].txn)
  {
    hide Next, Enabled, LoggedAt, OpenAt, WritesAreHeld, R.Losers, R.LockedToTheEnd, R.WellFormed;
    var (t, e) := (rs[i].txn, LoggedAt(s, a, n));
    OpenAtMoves(s, a, n, t);
    if e.Some? { LosersMove(rs, e.value.0, e.value.1); }
    assert t in R.Losers(rs) <==> OpenAt(s, n, t);
  }

  lemma WritesAreHeldKept(s: State, a: Action, rs: seq<L.LogRecord>, n: NodeId)
    requires BaseInv(s) && RecordsLocked(s) && LogInv(s, rs, n) && Enabled(s, a)
    ensures WritesAreHeld(Next(s, a), Appended(rs, LoggedAt(s, a, n)), n)
  {
    hide Next, LoggedAt, HeldAt, BaseInv, RecordsLocked, OpenAt, R.LockedToTheEnd, R.WellFormed;
    var (e, rs') := (LoggedAt(s, a, n), Appended(rs, LoggedAt(s, a, n)));
    if e.Some? { LosersMove(rs, e.value.0, e.value.1); }
    hide R.Losers;
    forall i | 0 <= i < |rs'| && rs'[i].txn in R.Losers(rs') && (rs'[i].op.Insert? || rs'[i].op.Delete?)
      ensures HoldsX(Next(s, a), Key(n, rs'[i].op.key), rs'[i].txn)
    {
      var t := rs'[i].txn;
      OpenAtMoves(s, a, n, t);
      if i < |rs| {
        assert rs'[i] == rs[i];
        StillLoser(s, a, rs, n, i);
        HeldStaysHeld(s, a, n, Key(n, rs[i].op.key), t);
      } else {
        WriterHolds(s, a, n);
        HeldStaysHeld(s, a, n, Key(n, rs'[i].op.key), t);
      }
    }
  }

  lemma LosersAreOpenKept(s: State, a: Action, rs: seq<L.LogRecord>, n: NodeId)
    requires LogInv(s, rs, n) && Enabled(s, a)
    ensures LosersAreOpen(Next(s, a), Appended(rs, LoggedAt(s, a, n)), n)
    ensures WritersAreKnown(Next(s, a), Appended(rs, LoggedAt(s, a, n)), n)
    ensures R.WellFormed(Appended(rs, LoggedAt(s, a, n)))
  {
    hide Next, Enabled, LoggedAt, OpenAt, WritesAreHeld, R.Losers, R.LockedToTheEnd, R.WellFormed;
    var (e, rs') := (LoggedAt(s, a, n), Appended(rs, LoggedAt(s, a, n)));
    if e.Some? { LosersMove(rs, e.value.0, e.value.1); }
    forall t: TxnId
      ensures t in R.Losers(rs') <==> OpenAt(Next(s, a), n, t)
    {
      OpenAtMoves(s, a, n, t);
    }
    forall i | 0 <= i < |rs'|
      ensures (n, rs'[i].txn) in Next(s, a).parts
    {
      OpenAtMoves(s, a, n, rs'[i].txn);
      if i < |rs| { assert rs'[i] == rs[i]; }
    }
  }

  lemma IsOpenLogKept(rs: seq<L.LogRecord>, e: Option<(TxnId, L.Op)>, t: TxnId)
    requires e.Some? && e.value.0 == t && e.value.1.Begin? ==> forall i :: 0 <= i < |rs| ==> rs[i].txn != t
    requires e.Some? && e.value.0 == t ==> !e.value.1.Commit? && !e.value.1.Abort?
    requires IsOpenLog(rs, t) || (e.Some? && e.value.0 == t && e.value.1.Begin?)
    ensures IsOpenLog(Appended(rs, e), t)
  {
    var rs' := Appended(rs, e);
    assert forall i :: 0 <= i < |rs| ==> rs'[i] == rs[i];
    if IsOpenLog(rs, t) {
      var i :| 0 <= i < |rs| && rs[i].txn == t && rs[i].op.Begin?;
      assert rs'[i].op.Begin?;
    } else {
      assert rs'[|rs|].op.Begin?;
    }
  }

  lemma OpenLogsKept(s: State, a: Action, rs: seq<L.LogRecord>, n: NodeId)
    requires LogInv(s, rs, n) && Enabled(s, a)
    ensures OpenLogs(Next(s, a), Appended(rs, LoggedAt(s, a, n)), n)
  {
    hide Next, Enabled, LoggedAt, OpenAt, WritesAreHeld, IsOpenLog, R.Losers, R.LockedToTheEnd, R.WellFormed;
    forall t | OpenAt(Next(s, a), n, t)
      ensures IsOpenLog(Appended(rs, LoggedAt(s, a, n)), t)
    {
      OpenAtMoves(s, a, n, t);
      IsOpenLogKept(rs, LoggedAt(s, a, n), t);
    }
  }

  lemma BothHold(s: State, k: Key, t: TxnId, u: TxnId)
    requires LockInv(s) && HoldsX(s, k, t) && HoldsX(s, k, u)
    ensures t == u
  {
    hide LockInv;
    if t != u { ExclusiveIsAlone(s, k, t, u); }
  }

  /** A new write cannot be to a key that another open transaction has written. */
  lemma LockedToTheEndKept(s: State, a: Action, rs: seq<L.LogRecord>, n: NodeId)
    requires BaseInv(s) && RecordsLocked(s) && LogInv(s, rs, n) && Enabled(s, a)
    ensures var rs' := Appended(rs, LoggedAt(s, a, n)); R.LockedToTheEnd(rs', R.Losers(rs'))
  {
    hide Next, Enabled, LoggedAt, OpenAt, R.Losers, HeldAt, BaseInv, RecordsLocked, R.WellFormed;
    var rs' := Appended(rs, LoggedAt(s, a, n));
    forall i, j | 0 <= i < j < |rs'| && rs'[i].txn in R.Losers(rs') && (rs'[i].op.Insert? || rs'[i].op.Delete?)
      && R.Touches(rs'[j], rs'[i].op.key)
      ensures rs'[j].txn == rs'[i].txn
    {
      assert rs'[i] == rs[i];
      StillLoser(s, a, rs, n, i);
      if j < |rs| {
        assert rs'[j] == rs[j];
      } else if rs'[j].txn != rs[i].txn {
        WriterHolds(s, a, n);
        BaseGivesLocks(s);
        BothHold(s, Key(n, rs[i].op.key), rs'[j].txn, rs[i].txn);
      }
    }
  }

  lemma LogInvKept(s: State, a: Action, rs: seq<L.LogRecord>, n: NodeId)
    requires BaseInv(s) && RecordsLocked(s) && LogInv(s, rs, n) && Enabled(s, a)
    ensures LogInv(Next(s, a), Appended(rs, LoggedAt(s, a, n)), n)
  {
    hide Next, Enabled, LoggedAt, LosersAreOpen, WritersAreKnown, WritesAreHeld, R.LockedToTheEnd, R.WellFormed;
    hide R.Losers, BaseInv, OpenLogs;
    OpenLogsKept(s, a, rs, n);
    LosersAreOpenKept(s, a, rs, n);
    WritesAreHeldKept(s, a, rs, n);
    LockedToTheEndKept(s, a, rs, n);
  }

  lemma ReplayAppended(rs: seq<L.LogRecord>, e: Option<(TxnId, L.Op)>)
    ensures R.Replay(Appended(rs, e)) == if e.Some? then R.Redone(R.Replay(rs), e.value.1) else R.Replay(rs)
  {
    hide R.Replay, R.Active;
    if e.Some? { R.Snoc(rs, Appended(rs, e)[|rs|]); }
  }

  /** An access changes the store as redoing what it logs. */
  lemma AccessIsRedone(db: map<Key, Value>, ws: seq<WriteRecord>, key: Key, request: Request, store: R.Store, text: Bytes)
    requires R.At(store, text) == Look(db, Key(key.node, text))
    ensures var (db', op) := (AccessEffect(db, ws, key, request).1, AccessOp(db, key, request));
            R.At(if op.Some? then R.Redone(store, op.value) else store, text) == Look(db', Key(key.node, text))
  {
  }

  /** A step of a rollback changes the store as redoing what it logs. */
  lemma UndoIsRedone(db: map<Key, Value>, r: WriteRecord, store: R.Store, text: Bytes)
    requires R.At(store, text) == Look(db, Key(r.key.node, text))
    ensures var op := UndoOp(db, r);
            R.At(if op.Some? then R.Redone(store, op.value) else store, text) == Look(UndoEffect(db, r), Key(r.key.node, text))
  {
  }

  lemma OthersLogNoWrites(s: State, a: Action, n: NodeId)
    requires Enabled(s, a) && LoggedAt(s, a, n).Some? && !a.Access? && !a.UndoOne?
    ensures !LoggedAt(s, a, n).value.1.Insert? && !LoggedAt(s, a, n).value.1.Delete?
  {
  }

  lemma UndoneKeyIsHere(s: State, a: Action)
    requires BaseInv(s) && RecordsLocked(s) && Enabled(s, a) && a.UndoOne?
    ensures var ws := s.parts[(a.n, a.t)].writes; ws[|ws| - 1].key.node == a.n
  {
    hide BaseInv, RecordsLocked;
    UndoIsExclusive(s, a);
  }

  /** The store of the node moves as its log says. */
  lemma LogIsStoreKept(s: State, a: Action, rs: seq<L.LogRecord>, n: NodeId)
    requires BaseInv(s) && RecordsLocked(s) && Enabled(s, a)
    requires LogIsStore(s, rs, n)
    ensures LogIsStore(Next(s, a), Appended(rs, LoggedAt(s, a, n)), n)
  {
    hide Next, BaseInv, RecordsLocked, R.Replay, Appended, AccessEffect, UndoEffect, AccessOp, UndoOp, HeldAt;
    DataMoves(s, a);
    ReplayAppended(rs, LoggedAt(s, a, n));
    if a.UndoOne? { UndoneKeyIsHere(s, a); }
    if !a.Access? && !a.UndoOne? && LoggedAt(s, a, n).Some? { OthersLogNoWrites(s, a, n); }
    forall text
      ensures R.At(R.Replay(Appended(rs, LoggedAt(s, a, n))), text) == Look(Next(s, a).db, Key(n, text))
    {
      assert R.At(R.Replay(rs), text) == Look(s.db, Key(n, text));
      if a.Access? {
        var ws := s.parts[(a.key.node, a.t)].writes;
        if a.key.node == n {
          AccessIsRedone(s.db, ws, a.key, a.request, R.Replay(rs), text);
        } else {
          UntouchedElsewhere(s.db, ws, a.key, a.request);
        }
      } else if a.UndoOne? {
        var r := s.parts[(a.n, a.t)].writes[|s.parts[(a.n, a.t)].writes| - 1];
        if a.n == n { UndoIsRedone(s.db, r, R.Replay(rs), text); } else { UndoLooks(s.db, r); }
      }
    }
  }

  // ---- every run --------------------------------------------------------------------------------------

  lemma EmptyNodeLog(db: map<Key, Value>, n: NodeId)
    ensures LogInv(Initial(db), [], n)
    ensures (forall k: Key :: k in db ==> k.node != n) ==> LogIsStore(Initial(db), [], n)
  {
    assert R.Losers([]) == {} by { R.EmptyLog(); }
    R.EmptyLog();
  }

  /** Strict two-phase locking, as the log of each node shows it: in every run, nobody writes a key after an open
      transaction has, and the log leaves open exactly the transactions that are. */
  lemma {:induction false} NodeLogsAreLocked(db: map<Key, Value>, states: seq<State>, actions: seq<Action>, n: NodeId, i: nat)
    requires IsRun(db, states, actions) && i < |states|
    ensures LogInv(states[i], NodeLog(db, states, actions, n, i), n)
  {
    hide Next, Enabled, LogInv, BaseInv, RecordsLocked, LoggedAt;
    if i == 0 {
      EmptyNodeLog(db, n);
    } else {
      NodeLogsAreLocked(db, states, actions, n, i - 1);
      BaseInvHolds(db, states, actions, i - 1);
      RecordsLockedHolds(db, states, actions, i - 1);
      LogInvKept(states[i - 1], actions[i - 1], NodeLog(db, states, actions, n, i - 1), n);
    }
  }

  /** A node that starts empty can be rebuilt from its log: replayed, the log is its store. */
  lemma {:induction false} NodeLogIsStore(db: map<Key, Value>, states: seq<State>, actions: seq<Action>, n: NodeId, i: nat)
    requires IsRun(db, states, actions) && i < |states| && forall k: Key :: k in db ==> k.node != n
    ensures LogIsStore(states[i], NodeLog(db, states, actions, n, i), n)
  {
    hide Next, Enabled, LogIsStore, BaseInv, RecordsLocked, LoggedAt;
    if i == 0 {
      EmptyNodeLog(db, n);
    } else {
      NodeLogIsStore(db, states, actions, n, i - 1);
      BaseInvHolds(db, states, actions, i - 1);
      RecordsLockedHolds(db, states, actions, i - 1);
      LogIsStoreKept(states[i - 1], actions[i - 1], NodeLog(db, states, actions, n, i - 1), n);
    }
  }

  /** Recovery knows every open transaction. */
  lemma OpenIsTracked(rs: seq<L.LogRecord>, t: TxnId)
    requires R.WellFormed(rs) && IsOpenLog(rs, t) && R.Unmixed(rs, t)
    ensures t in R.Tracked(rs)
  {
    hide R.Tracked, R.LastKnown;
    R.TrackedIff(rs, t);
    var i :| 0 <= i < |rs| && rs[i].txn == t && rs[i].op.Begin?;
  }

  /** Unless it has logged a write behind its PREPARED record, all of an open transaction's writes are undone. */
  lemma OpenIsUndone(rs: seq<L.LogRecord>, text: Bytes)
    requires R.WellFormed(rs)
    requires var w := R.FirstTouch(rs, R.LoserRecords(rs), text, 0); w < |rs| ==> IsOpenLog(rs, rs[w].txn) && !R.StopsShort(rs, rs[w].txn)
    ensures R.SafeKey(rs, text) <==> R.SafeFirstWrite(rs, text)
    ensures var w := R.FirstTouch(rs, R.LoserRecords(rs), text, 0); w < |rs| ==> R.Left(rs, text) == R.UndoneValue(rs[w].op)
  {
    hide R.Tracked, R.Losers, R.Replay, R.WellFormed, R.FirstTouch, R.Left;
    var w := R.FirstTouch(rs, R.LoserRecords(rs), text, 0);
    if w < |rs| {
      OpenIsTracked(rs, rs[w].txn);
      R.FirstWriteIsLeft(rs, text);
    }
  }

  lemma LosersHaveOpenLogs(s: State, rs: seq<L.LogRecord>, n: NodeId, text: Bytes)
    requires LogInv(s, rs, n)
    ensures var w := R.FirstTouch(rs, R.LoserRecords(rs), text, 0);
            w < |rs| ==> OpenAt(s, n, rs[w].txn) && IsOpenLog(rs, rs[w].txn)
  {
    hide R.FirstTouch, R.Losers, R.WellFormed, R.LockedToTheEnd, IsOpenLog, OpenAt;
    var w := R.FirstTouch(rs, R.LoserRecords(rs), text, 0);
    if w < |rs| { assert rs[w].txn in R.Losers(rs); }
  }

  /** Recovering a node at any moment of any run. A key that no open transaction has written gets the value it
      had. The whole store is the one that the node's committed and rolled back transactions leave if and only if
      every key is left as its first open writer met it. And unless an open transaction has logged a write behind
      its PREPARED record, that is so if and only if its first write to each key was safe. */
  lemma NodeRecovery(db: map<Key, Value>, states: seq<State>, actions: seq<Action>, n: NodeId, i: nat)
    requires IsRun(db, states, actions) && i < |states| && forall k: Key :: k in db ==> k.node != n
    ensures var rs := NodeLog(db, states, actions, n, i);
            && (forall t: TxnId :: t in R.Losers(rs) <==> OpenAt(states[i], n, t))
            && (forall text :: (forall j :: 0 <= j < |rs| && OpenAt(states[i], n, rs[j].txn) ==> !R.Touches(rs[j], text)) ==>
                  R.At(R.Recovered(rs), text) == Look(states[i].db, Key(n, text)))
            && (R.Recovered(rs) == R.Replay(R.Without(rs, R.Losers(rs))) <==> forall text :: R.SafeKey(rs, text))
            && ((forall t :: OpenAt(states[i], n, t) ==> !R.StopsShort(rs, t)) ==>
                  forall text :: R.SafeKey(rs, text) <==> R.SafeFirstWrite(rs, text))
  {
    hide Next, Enabled, BaseInv, RecordsLocked, LoggedAt, OpenAt, NodeLog, R.Losers, R.Replay, R.Without, R.Recovered;
    hide R.LockedToTheEnd, R.WellFormed, R.WellLinked, WritesAreHeld, OpenLogs, R.FirstTouch, R.SafeKey;
    hide R.SafeFirstWrite, R.StopsShort, R.Left;
    var (s, rs) := (states[i], NodeLog(db, states, actions, n, i));
    NodeLogsAreLocked(db, states, actions, n, i);
    NodeLogIsStore(db, states, actions, n, i);
    R.ChainsAreLinks(rs);
    R.RecoveryIsExactIff(rs);
    forall text | forall j :: 0 <= j < |rs| && OpenAt(s, n, rs[j].txn) ==> !R.Touches(rs[j], text)
      ensures R.At(R.Recovered(rs), text) == Look(s.db, Key(n, text))
    {
      R.RecoveredAt(rs, text);
      R.UntouchedIsLeft(rs, text);
      assert R.At(R.Replay(rs), text) == Look(s.db, Key(n, text));
    }
    if forall t :: OpenAt(s, n, t) ==> !R.StopsShort(rs, t) {
      forall text
        ensures R.SafeKey(rs, text) <==> R.SafeFirstWrite(rs, text)
      {
        LosersHaveOpenLogs(s, rs, n, text);
        OpenIsUndone(rs, text);
      }
    }
  }

  // ---- what the file holds at a crash -----------------------------------------------------------------

  /** Every prefix of the log of a node is the log that it had at some earlier moment. */
  lemma {:induction false} PrefixIsNodeLog(db: map<Key, Value>, states: seq<State>, actions: seq<Action>, n: NodeId, i: nat, m: nat)
    returns (j: nat)
    requires IsRun(db, states, actions) && i < |states| && m <= |NodeLog(db, states, actions, n, i)|
    ensures j <= i && NodeLog(db, states, actions, n, j) == NodeLog(db, states, actions, n, i)[..m]
  {
    hide Next, Enabled, LoggedAt;
    var rs := NodeLog(db, states, actions, n, i);
    if m == |rs| {
      j := i;
    } else {
      var before := NodeLog(db, states, actions, n, i - 1);
      assert rs[..m] == before[..m];
      j := PrefixIsNodeLog(db, states, actions, n, i - 1, m);
    }
  }

  /** At any moment the log file of a node holds the whole log that the node had at some earlier moment, with at least
      every record that the flush thread has reported; so recovery from the file is recovery at that moment. */
  lemma FileIsNodeLog(db: map<Key, Value>, states: seq<State>, actions: seq<Action>, n: NodeId, i: nat, log: M.LogManager)
    returns (j: nat)
    requires i < |states| && IsRun(db, states, actions)
    requires log.records == NodeLog(db, states, actions, n, i)
    requires log.Valid()
    ensures j <= i && log.persistentLsn < |NodeLog(db, states, actions, n, j)|
    ensures L.AllLoggable(NodeLog(db, states, actions, n, j)) && log.file == L.LogBytes(NodeLog(db, states, actions, n, j))
  {
    hide Next, Enabled, NodeLog, L.LogBytes, L.Loggable;
    j := PrefixIsNodeLog(db, states, actions, n, i, log.stored);
  }

  // ---- the protocol's entries -------------------------------------------------------------------------

  /** The entries of the protocol that the records of a node stand for. */
  function Outcomes(rs: seq<L.LogRecord>, n: NodeId): seq<LogEntry> {
    if |rs| == 0 then [] else
      var r := rs[|rs| - 1];
      Outcomes(rs[..|rs| - 1], n) +
      match r.op
      case Prepared => [LogEntry(n, r.txn, LogPrepared)]
      case Commit => [LogEntry(n, r.txn, LogCommit)]
      case Abort => [LogEntry(n, r.txn, LogAbort)]
      case _ => []
  }

  function EntriesOf(log: seq<LogEntry>, n: NodeId): seq<LogEntry> {
    if |log| == 0 then [] else
      EntriesOf(log[..|log| - 1], n) + if log[|log| - 1].node == n then [log[|log| - 1]] else []
  }

  function EntryOf(n: NodeId, e: Option<(TxnId, L.Op)>): seq<LogEntry> {
    match e
    case None => []
    case Some((t, op)) =>
      match op
      case Prepared => [LogEntry(n, t, LogPrepared)]
      case Commit => [LogEntry(n, t, LogCommit)]
      case Abort => [LogEntry(n, t, LogAbort)]
      case _ => []
  }

  lemma OutcomesAppended(rs: seq<L.LogRecord>, e: Option<(TxnId, L.Op)>, n: NodeId)
    ensures Outcomes(Appended(rs, e), n) == Outcomes(rs, n) + EntryOf(n, e)
  {
    if e.Some? {
      assert Appended(rs, e)[..|rs|] == rs;
    } else {
      assert Outcomes(rs, n) + [] == Outcomes(rs, n);
    }
  }

  lemma EntriesOfSnoc(log: seq<LogEntry>, e: LogEntry, n: NodeId)
    ensures EntriesOf(log + [e], n) == EntriesOf(log, n) + if e.node == n then [e] else []
  {
    assert (log + [e])[..|log|] == log;
  }

  /** What the three actions that log an outcome append to the entries of the protocol. */
  lemma EntryIs(s: State, a: Action, n: NodeId)
    requires Enabled(s, a) && (a.Prepare? || a.DeliverCommit? || a.FinishUndo?)
    ensures var log' := Next(s, a).log;
            if log' == s.log then EntryOf(n, LoggedAt(s, a, n)) == []
            else var e := log'[|log'| - 1]; log' == s.log + [e] && EntryOf(n, LoggedAt(s, a, n)) == if e.node == n then [e] else []
  {
  }

  lemma OutcomeIsEntry(s: State, a: Action, n: NodeId)
    requires Enabled(s, a) && (a.Prepare? || a.DeliverCommit? || a.FinishUndo?)
    ensures EntriesOf(Next(s, a).log, n) == EntriesOf(s.log, n) + EntryOf(n, LoggedAt(s, a, n))
  {
    hide Next, Enabled, LoggedAt, EntriesOf, EntryOf;
    EntryIs(s, a, n);
    var log' := Next(s, a).log;
    if log' != s.log { EntriesOfSnoc(s.log, log'[|log'| - 1], n); }
    assert EntriesOf(s.log, n) + [] == EntriesOf(s.log, n);
  }

  lemma OthersLogNoOutcome(s: State, a: Action, n: NodeId)
    requires Enabled(s, a) && !a.Prepare? && !a.DeliverCommit? && !a.FinishUndo?
    ensures EntryOf(n, LoggedAt(s, a, n)) == []
  {
    AccessLogsWrites(s, a);
    hide AccessOp, UndoOp;
  }

  lemma EntriesMove(s: State, a: Action, n: NodeId)
    requires Enabled(s, a)
    ensures EntriesOf(Next(s, a).log, n) == EntriesOf(s.log, n) + EntryOf(n, LoggedAt(s, a, n))
  {
    hide Next, LoggedAt, EntriesOf, EntryOf;
    if a.Prepare? || a.DeliverCommit? || a.FinishUndo? {
      OutcomeIsEntry(s, a, n);
    } else {
      LogStays(s, a);
      OthersLogNoOutcome(s, a, n);
    }
  }

  lemma NoEntries(n: NodeId)
    ensures Outcomes([], n) == [] && EntriesOf([], n) == []
  {
  }

  /** The two logs of the model are one: the outcomes in the log of a node are the entries of that node that
      atomic commitment speaks of, in the same order. */
  lemma {:induction false} LogsAgree(db: map<Key, Value>, states: seq<State>, actions: seq<Action>, n: NodeId, i: nat)
    requires IsRun(db, states, actions) && i < |states|
    ensures Outcomes(NodeLog(db, states, actions, n, i), n) == EntriesOf(states[i].log, n)
  {
    hide Next, Enabled, LoggedAt, Outcomes, EntriesOf, EntryOf;
    if i == 0 {
      NoEntries(n);
    } else {
      LogsAgree(db, states, actions, n, i - 1);
      EntriesMove(states[i - 1], actions[i - 1], n);
      OutcomesAppended(NodeLog(db, states, actions, n, i - 1), LoggedAt(states[i - 1], actions[i - 1], n), n);
    }
  }
}
