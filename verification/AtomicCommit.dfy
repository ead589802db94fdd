/** Atomic commitment: what two-phase commit keeps in every run, with lost, delayed and duplicated
    messages (src/transaction/transaction_manager.cpp, include/transaction/transaction_manager_rpc.h). */
module AtomicCommit {
  import opened Common
  import opened LockQueue
  import opened LockManager
  import opened Txn
  import opened Cluster

  /** The participant has logged COMMIT. */
  predicate Committing(p: Part) {
    match p.stage
    case Releasing(outcome) => outcome.Commit?
    case Ended(outcome) => outcome.Commit?
    case _ => false
  }

  /** The participant is rolling back or has logged ABORT. */
  predicate Aborting(p: Part) {
    match p.stage
    case Releasing(outcome) => outcome.Abort?
    case Ended(outcome) => outcome.Abort?
    case Undoing => true
    case Running => false
  }

  ghost predicate PartOk(s: State, n: NodeId, t: TxnId)
    requires (n, t) in s.parts
  {
    && t in s.coords && n in s.coords[t].nodes
    && (Committing(s.parts[(n, t)]) ==> Message(CommitMsg, n, t) in s.msgs && t in s.decisions)
    && (Aborting(s.parts[(n, t)]) ==> Message(AbortMsg, n, t) in s.msgs)
    && (s.parts[(n, t)].view.state == Prepared ==> LogEntry(n, t, LogPrepared) in s.log)
  }

  ghost predicate MessageOk(s: State, m: Message) {
    && m.txn in s.coords && m.node in s.coords[m.txn].nodes
    && var c := s.coords[m.txn];
       match m.kind
       case PrepareMsg => c.distributed && c.phase in {Voting, SaidCommit, SaidAbort}
       case YesMsg =>
         && c.distributed && c.phase in {Voting, SaidCommit, SaidAbort}
         && (m.node, m.txn) in s.parts
         && (s.parts[(m.node, m.txn)].stage == Running ==> s.parts[(m.node, m.txn)].view.state == Prepared)
         && LogEntry(m.node, m.txn, LogPrepared) in s.log
       case CommitMsg => if c.distributed then c.phase == SaidCommit else c.phase in {OnePhase, SaidAbort}
       case AbortMsg => c.phase == SaidAbort
  }

  ghost predicate CoordOk(s: State, t: TxnId)
    requires t in s.coords
  {
    var c := s.coords[t];
    && (c.distributed && c.phase == SaidCommit ==> t in s.decisions && forall n :: n in c.nodes ==> Message(YesMsg, n, t) in s.msgs)
    && (!c.distributed ==> (exists n :: c.nodes == {n}) && c.phase != SaidCommit && c.phase != Voting)
  }

  ghost predicate DecisionOk(s: State, t: TxnId) {
    && t in s.coords
    && if s.coords[t].distributed then s.coords[t].phase == SaidCommit
       else forall n :: n in s.coords[t].nodes ==> (n, t) in s.parts && Committing(s.parts[(n, t)])
  }

  ghost predicate LogEntryOk(s: State, e: LogEntry) {
    && (e.node, e.txn) in s.parts
    && (e.kind == LogCommit ==> Committing(s.parts[(e.node, e.txn)]))
    && (e.kind == LogAbort ==> Aborting(s.parts[(e.node, e.txn)]) && s.parts[(e.node, e.txn)].stage != Undoing)
  }

  ghost predicate ProtocolInv(s: State) {
    && (forall n, t :: (n, t) in s.parts ==> PartOk(s, n, t))
    && (forall m :: m in s.msgs ==> MessageOk(s, m))
    && (forall t :: t in s.coords ==> CoordOk(s, t))
    && (forall t :: t in s.decisions ==> DecisionOk(s, t))
    && (forall e :: e in s.log ==> LogEntryOk(s, e))
  }

  /** No transaction is decided twice. */
  ghost predicate DistinctDecisions(ds: seq<TxnId>) {
    forall i, j :: 0 <= i < j < |ds| ==> ds[i] != ds[j]
  }

  /** Each node logs at most one outcome of a transaction. */
  ghost predicate OneOutcome(log: seq<LogEntry>) {
    forall i, j :: 0 <= i < j < |log| && log[i].node == log[j].node && log[i].txn == log[j].txn
      ==> log[i].kind == LogPrepared || log[j].kind == LogPrepared
  }

  /** No node logs COMMIT of a distributed transaction before every participant has logged PREPARED. */
  ghost predicate CommitAfterAllPrepared(s: State) {
    forall i, n :: 0 <= i < |s.log| && s.log[i].kind == LogCommit && s.log[i].txn in s.coords
      && s.coords[s.log[i].txn].distributed && n in s.coords[s.log[i].txn].nodes
      ==> LogEntry(n, s.log[i].txn, LogPrepared) in s.log[..i]
  }

  /** How a coordinator may move. */
  predicate PhaseMoves(c: Coord, c': Coord) {
    && c'.nodes == c.nodes && c'.distributed == c.distributed
    && (c'.phase == c.phase
        || (c.phase == Working && c'.phase == if c.distributed then Voting else OnePhase)
        || (c.phase == Voting && c'.phase == SaidCommit)
        || (c.phase in {Working, Voting, OnePhase} && c'.phase == SaidAbort))
  }

  /** The actions of a coordinator; the others happen at a participant. */
  predicate AtCoordinator(a: Action) {
    a.Begin? || a.StartCommit? || a.DecideCommit? || a.DecideAbort?
  }

  /** The participant at which an action happens. */
  function PlaceOf(a: Action): (NodeId, TxnId)
    requires !AtCoordinator(a)
  {
    if a.Access? then (a.key.node, a.t) else (a.n, a.t)
  }

  /** A coordinator changes its own entry and sends messages. */
  lemma CoordinatorFrame(s: State, a: Action)
    requires Enabled(s, a) && AtCoordinator(a)
    ensures Next(s, a).parts == s.parts && Next(s, a).tables == s.tables && Next(s, a).log == s.log
  {
  }

  lemma ParticipantCoords(s: State, a: Action)
    requires Enabled(s, a) && !AtCoordinator(a)
    ensures Next(s, a).coords == s.coords
  {
    hide LockOn, UnlockOn, AccessEffect, UndoEffect;
  }

  /** A participant changes its own entry and no other. */
  lemma ParticipantFrame(s: State, a: Action)
    requires Enabled(s, a) && !AtCoordinator(a)
    ensures PlaceOf(a) in Next(s, a).parts
    ensures Next(s, a).parts == s.parts[PlaceOf(a) := Next(s, a).parts[PlaceOf(a)]]
  {
    hide LockOn, UnlockOn, AccessEffect, UndoEffect;
  }

  lemma CoordsMove(s: State, a: Action)
    requires Enabled(s, a)
    ensures forall t :: t in s.coords ==> t in Next(s, a).coords && PhaseMoves(s.coords[t], Next(s, a).coords[t])
  {
    if !AtCoordinator(a) {
      hide Next;
      ParticipantCoords(s, a);
    }
  }

  /** How a participant may move, as far as the protocol cares. */
  ghost predicate PartMoved(p: Part, p': Part, working: bool) {
    && (Committing(p) ==> Committing(p'))
    && (Aborting(p) ==> Aborting(p'))
    && (p.stage != Undoing && Aborting(p) ==> p'.stage != Undoing)
    && (p'.stage == Running ==> p.stage == Running)
    && (p'.stage == Running ==> p'.view.state == p.view.state || p'.view.state == Prepared || working)
  }

  lemma OwnPartMoves(s: State, a: Action)
    requires Enabled(s, a) && !AtCoordinator(a) && PlaceOf(a) in s.parts
    ensures PlaceOf(a) in Next(s, a).parts
    ensures PartMoved(s.parts[PlaceOf(a)], Next(s, a).parts[PlaceOf(a)], InPhase(s, a.t, Working))
  {
    hide LockOn, UnlockOn, AccessEffect, UndoEffect;
  }

  lemma PartMoves(s: State, a: Action, n: NodeId, t: TxnId)
    requires Enabled(s, a) && (n, t) in s.parts
    ensures (n, t) in Next(s, a).parts
    ensures PartMoved(s.parts[(n, t)], Next(s, a).parts[(n, t)], InPhase(s, t, Working))
  {
    hide Next, Enabled;
    if AtCoordinator(a) {
      CoordinatorFrame(s, a);
    } else {
      ParticipantFrame(s, a);
      if PlaceOf(a) == (n, t) {
        OwnPartMoves(s, a);
      }
    }
  }

  lemma LogAndMessagesGrow(s: State, a: Action)
    requires Enabled(s, a)
    ensures s.msgs <= Next(s, a).msgs
    ensures forall e :: e in s.log ==> e in Next(s, a).log
    ensures forall t :: t in s.decisions ==> t in Next(s, a).decisions
  {
    hide LockOn, UnlockOn, AccessEffect, UndoEffect;
  }

  /** What a participant needed for each new thing it did; `before` is None for one that starts. */
  ghost predicate PartWasAllowed(s: State, s': State, n: NodeId, t: TxnId, before: Option<Part>, p': Part) {
    && (before.None? ==> t in s.coords && n in s.coords[t].nodes && p' == Part(TxnView(Default, map[]), [], Running))
    && (Committing(p') && !(before.Some? && Committing(before.value)) ==>
          && Message(CommitMsg, n, t) in s.msgs && t in s.coords
          && (s.coords[t].distributed || t in s'.decisions))
    && (Aborting(p') && !(before.Some? && Aborting(before.value)) ==> Message(AbortMsg, n, t) in s.msgs)
    && (p'.view.state == Prepared && !(before.Some? && before.value.view.state == Prepared) ==>
          LogEntry(n, t, LogPrepared) in s'.log)
  }

  function PartIn(s: State, n: NodeId, t: TxnId): Option<Part> {
    if (n, t) in s.parts then Some(s.parts[(n, t)]) else None
  }

  lemma OwnPartNews(s: State, a: Action)
    requires Enabled(s, a) && !AtCoordinator(a)
    ensures PlaceOf(a) in Next(s, a).parts
    ensures var (n, t) := PlaceOf(a); PartWasAllowed(s, Next(s, a), n, t, PartIn(s, n, t), Next(s, a).parts[(n, t)])
  {
    hide LockOn, UnlockOn, AccessEffect, UndoEffect;
  }

  lemma PartNews(s: State, a: Action, n: NodeId, t: TxnId)
    requires Enabled(s, a) && (n, t) in Next(s, a).parts
    ensures PartWasAllowed(s, Next(s, a), n, t, PartIn(s, n, t), Next(s, a).parts[(n, t)])
  {
    hide Next, Enabled;
    if AtCoordinator(a) {
      CoordinatorFrame(s, a);
    } else {
      ParticipantFrame(s, a);
      if PlaceOf(a) == (n, t) {
        OwnPartNews(s, a);
      }
    }
  }

  lemma PartOkKept(s: State, a: Action, n: NodeId, t: TxnId)
    requires ProtocolInv(s) && Enabled(s, a) && (n, t) in Next(s, a).parts
    ensures PartOk(Next(s, a), n, t)
  {
    hide Next;
    CoordsMove(s, a);
    LogAndMessagesGrow(s, a);
    PartNews(s, a, n, t);
    if (n, t) in s.parts {
      assert PartOk(s, n, t);
    }
    if Message(CommitMsg, n, t) in s.msgs {
      assert MessageOk(s, Message(CommitMsg, n, t));
      assert CoordOk(s, t);
    }
  }

  lemma OldMessageOk(s: State, a: Action, m: Message)
    requires ProtocolInv(s) && Enabled(s, a) && m in s.msgs
    ensures MessageOk(Next(s, a), m)
  {
    hide Next;
    assert MessageOk(s, m) && CoordOk(s, m.txn);
    CoordsMove(s, a);
    LogAndMessagesGrow(s, a);
    if (m.node, m.txn) in s.parts {
      PartMoves(s, a, m.node, m.txn);
    }
  }

  /** What was needed to send each new message. */
  lemma MessageNews(s: State, a: Action, m: Message)
    requires Enabled(s, a) && m !in s.msgs && m in Next(s, a).msgs
    ensures m.kind == YesMsg ==>
              && a == Prepare(m.node, m.txn) && Message(PrepareMsg, m.node, m.txn) in s.msgs && (m.node, m.txn) in s.parts
              && Next(s, a).parts[(m.node, m.txn)].view.state == Prepared
    ensures m.kind != YesMsg ==>
              && m.txn in s.coords && m.txn in Next(s, a).coords && m.node in s.coords[m.txn].nodes
              && var (c, phase') := (s.coords[m.txn], Next(s, a).coords[m.txn].phase);
                 match m.kind
                 case PrepareMsg => c.distributed && phase' == Voting
                 case CommitMsg => (c.phase == Voting && phase' == SaidCommit) || (!c.distributed && phase' == OnePhase)
                 case AbortMsg => phase' == SaidAbort
                 case YesMsg => true
  {
    hide LockOn, UnlockOn, AccessEffect, UndoEffect;
  }

  lemma NewMessageOk(s: State, a: Action, m: Message)
    requires ProtocolInv(s) && Enabled(s, a) && m !in s.msgs && m in Next(s, a).msgs
    ensures MessageOk(Next(s, a), m)
  {
    hide Next;
    MessageNews(s, a, m);
    CoordsMove(s, a);
    if m.kind == YesMsg {
      assert MessageOk(s, Message(PrepareMsg, m.node, m.txn));
      PartMoves(s, a, m.node, m.txn);
      PartOkKept(s, a, m.node, m.txn);
    } else {
      assert CoordOk(s, m.txn);
    }
  }

  lemma NewCoordOk(s: State, a: Action)
    requires ProtocolInv(s) && Enabled(s, a) && a.Begin?
    ensures CoordOk(Next(s, a), a.t)
  {
  }

  /** Only one action lets a coordinator say COMMIT. */
  lemma SaidCommitNews(s: State, a: Action, t: TxnId)
    requires Enabled(s, a) && t in s.coords && t in Next(s, a).coords
    requires Next(s, a).coords[t].phase == SaidCommit && s.coords[t].phase != SaidCommit
    ensures a == DecideCommit(t)
  {
    if !AtCoordinator(a) {
      hide Next;
      ParticipantCoords(s, a);
    }
  }

  /** `a` appends its transaction to the decisions, and it was not decided before. */
  ghost predicate Decides(s: State, s': State, a: Action)
    requires a.DecideCommit? || a.DeliverCommit?
  {
    && s'.decisions == s.decisions + [a.t] && a.t !in s.decisions && a.t in s.coords && a.t in s'.coords
    && if a.DecideCommit? then s.coords[a.t].distributed && s'.coords[a.t].phase == SaidCommit
       else !s.coords[a.t].distributed && (a.n, a.t) in s'.parts && Committing(s'.parts[(a.n, a.t)])
  }

  lemma CommitDecides(s: State, a: Action)
    requires ProtocolInv(s) && Enabled(s, a) && a.DecideCommit?
    ensures Decides(s, Next(s, a), a)
  {
    assert CoordOk(s, a.t);
  }

  lemma CoordOkKept(s: State, a: Action, t: TxnId)
    requires ProtocolInv(s) && Enabled(s, a) && t in s.coords
    ensures CoordOk(Next(s, a), t)
  {
    hide Next;
    assert CoordOk(s, t);
    CoordsMove(s, a);
    LogAndMessagesGrow(s, a);
    if Next(s, a).coords[t].phase == SaidCommit && s.coords[t].phase != SaidCommit {
      SaidCommitNews(s, a, t);
      CommitDecides(s, a);
    }
  }

  lemma CoordsOnlyBegin(s: State, a: Action)
    requires Enabled(s, a)
    ensures forall t :: t in Next(s, a).coords && t !in s.coords ==> a.Begin? && t == a.t
  {
    hide LockOn, UnlockOn, AccessEffect, UndoEffect;
  }

  lemma DecisionsStay(s: State, a: Action)
    requires Enabled(s, a) && !a.DecideCommit? && !a.DeliverCommit?
    ensures Next(s, a).decisions == s.decisions
  {
    hide LockOn, UnlockOn, AccessEffect, UndoEffect;
  }

  lemma LogStays(s: State, a: Action)
    requires Enabled(s, a) && !a.Prepare? && !a.DeliverCommit? && !a.FinishUndo?
    ensures Next(s, a).log == s.log
  {
    hide LockOn, UnlockOn, AccessEffect, UndoEffect;
  }

  lemma DeliveryDecides(s: State, a: Action)
    requires ProtocolInv(s) && Enabled(s, a) && a.DeliverCommit?
    ensures Next(s, a).decisions == s.decisions || Decides(s, Next(s, a), a)
  {
    assert PartOk(s, a.n, a.t);
    if a.t in s.decisions {
      assert DecisionOk(s, a.t);
    }
  }

  /** At most one transaction is decided. */
  lemma DecisionGrowth(s: State, a: Action)
    requires ProtocolInv(s) && Enabled(s, a)
    ensures Next(s, a).decisions == s.decisions || ((a.DecideCommit? || a.DeliverCommit?) && Decides(s, Next(s, a), a))
    ensures a.DecideCommit? ==> Decides(s, Next(s, a), a)
  {
    hide ProtocolInv, Next, Enabled;
    if a.DecideCommit? {
      CommitDecides(s, a);
    } else if a.DeliverCommit? {
      DeliveryDecides(s, a);
    } else {
      DecisionsStay(s, a);
    }
  }

  lemma DecisionOkKept(s: State, a: Action, t: TxnId)
    requires ProtocolInv(s) && Enabled(s, a) && t in Next(s, a).decisions
    ensures DecisionOk(Next(s, a), t)
  {
    hide Next;
    CoordsMove(s, a);
    DecisionGrowth(s, a);
    if t in s.decisions {
      assert DecisionOk(s, t);
      forall n | n in s.coords[t].nodes && !s.coords[t].distributed
        ensures (n, t) in Next(s, a).parts && Committing(Next(s, a).parts[(n, t)])
      {
        PartMoves(s, a, n, t);
      }
    } else if a.DeliverCommit? {
      assert CoordOk(s, t) && PartOk(s, a.n, t);
    }
  }

  lemma LogEntryOkKept(s: State, a: Action, e: LogEntry)
    requires ProtocolInv(s) && Enabled(s, a) && e in s.log
    ensures LogEntryOk(Next(s, a), e)
  {
    hide Next;
    assert LogEntryOk(s, e);
    PartMoves(s, a, e.node, e.txn);
  }

  lemma NewLogEntryOk(s: State, a: Action, e: LogEntry)
    requires Enabled(s, a) && e in Next(s, a).log && e !in s.log
    ensures LogEntryOk(Next(s, a), e)
  {
    hide LockOn, UnlockOn, AccessEffect, UndoEffect;
  }

  lemma ProtocolInvKept(s: State, a: Action)
    requires ProtocolInv(s) && Enabled(s, a)
    ensures ProtocolInv(Next(s, a))
  {
    hide Next;
    forall n, t | (n, t) in Next(s, a).parts
      ensures PartOk(Next(s, a), n, t)
    {
      PartOkKept(s, a, n, t);
    }
    forall m | m in Next(s, a).msgs
      ensures MessageOk(Next(s, a), m)
    {
      if m in s.msgs { OldMessageOk(s, a, m); } else { NewMessageOk(s, a, m); }
    }
    CoordsOnlyBegin(s, a);
    forall t | t in Next(s, a).coords
      ensures CoordOk(Next(s, a), t)
    {
      if t in s.coords { CoordOkKept(s, a, t); } else { NewCoordOk(s, a); }
    }
    forall t | t in Next(s, a).decisions
      ensures DecisionOk(Next(s, a), t)
    {
      DecisionOkKept(s, a, t);
    }
    forall e | e in Next(s, a).log
      ensures LogEntryOk(Next(s, a), e)
    {
      if e in s.log { LogEntryOkKept(s, a, e); } else { NewLogEntryOk(s, a, e); }
    }
  }

  /** At most one entry is appended; it belongs to a transaction still running at its node, and a
      COMMIT entry of a distributed transaction finds every participant prepared. */
  ghost predicate LogGrew(s: State, log': seq<LogEntry>) {
    && |s.log| <= |log'| <= |s.log| + 1 && log'[..|s.log|] == s.log
    && (|log'| > |s.log| ==>
          var e := log'[|s.log|];
          && e.txn in s.coords
          && (forall f :: f in s.log && f.node == e.node && f.txn == e.txn ==> f.kind == LogPrepared || e.kind == LogPrepared)
          && (e.kind == LogCommit && s.coords[e.txn].distributed ==>
                forall n :: n in s.coords[e.txn].nodes ==> LogEntry(n, e.txn, LogPrepared) in s.log))
  }

  /** The entry that one of the three logging actions appends, if any. */
  lemma EntryAppended(s: State, a: Action)
    requires Enabled(s, a) && (a.Prepare? || a.DeliverCommit? || a.FinishUndo?)
    ensures (a.n, a.t) in s.parts && Next(s, a).log[..|s.log|] == s.log <= Next(s, a).log
    ensures s.parts[(a.n, a.t)].stage == if a.FinishUndo? then Undoing else Running
    ensures Next(s, a).log != s.log ==>
              Next(s, a).log == s.log + [LogEntry(a.n, a.t, match a case Prepare(_, _) => LogPrepared
                                                                case DeliverCommit(_, _) => LogCommit
                                                                case _ => LogAbort)]
    ensures a.DeliverCommit? ==> Message(CommitMsg, a.n, a.t) in s.msgs
  {
  }

  lemma LogGrowth(s: State, a: Action)
    requires ProtocolInv(s) && Enabled(s, a)
    ensures LogGrew(s, Next(s, a).log)
  {
    hide Next, Enabled;
    if a.Prepare? || a.DeliverCommit? || a.FinishUndo? {
      EntryAppended(s, a);
      assert PartOk(s, a.n, a.t);
      forall f | f in s.log && f.node == a.n && f.txn == a.t
        ensures f.kind == LogPrepared
      {
        assert LogEntryOk(s, f);
      }
      if a.DeliverCommit? {
        assert MessageOk(s, Message(CommitMsg, a.n, a.t)) && CoordOk(s, a.t);
      }
    } else {
      LogStays(s, a);
    }
  }

  lemma OutcomesKept(s: State, s': State)
    requires LogGrew(s, s'.log) && OneOutcome(s.log)
    ensures OneOutcome(s'.log)
  {
    assert forall i :: 0 <= i < |s.log| ==> s'.log[i] == s.log[i] && s.log[i] in s.log;
  }

  lemma PreparedOrderKept(s: State, s': State)
    requires ProtocolInv(s) && LogGrew(s, s'.log) && CommitAfterAllPrepared(s)
    requires forall t :: t in s.coords ==> t in s'.coords && PhaseMoves(s.coords[t], s'.coords[t])
    ensures CommitAfterAllPrepared(s')
  {
    forall i, n | 0 <= i < |s'.log| && s'.log[i].kind == LogCommit && s'.log[i].txn in s'.coords
      && s'.coords[s'.log[i].txn].distributed && n in s'.coords[s'.log[i].txn].nodes
      ensures LogEntry(n, s'.log[i].txn, LogPrepared) in s'.log[..i]
    {
      if i < |s.log| {
        assert s'.log[i] == s.log[i] && s'.log[..i] == s.log[..i];
        assert LogEntryOk(s, s.log[i]) && PartOk(s, s.log[i].node, s.log[i].txn);
      } else {
        assert s'.log[..i] == s.log;
      }
    }
  }

  ghost predicate CommitInv(s: State) {
    ProtocolInv(s) && DistinctDecisions(s.decisions) && OneOutcome(s.log) && CommitAfterAllPrepared(s)
  }

  lemma CommitInvKept(s: State, a: Action)
    requires CommitInv(s) && Enabled(s, a)
    ensures CommitInv(Next(s, a))
  {
    hide Next, Enabled;
    ProtocolInvKept(s, a);
    DecisionGrowth(s, a);
    LogGrowth(s, a);
    CoordsMove(s, a);
    OutcomesKept(s, Next(s, a));
    hide ProtocolInv, OneOutcome;
    PreparedOrderKept(s, Next(s, a));
  }

  lemma {:induction false} CommitInvHolds(db: map<Key, Value>, states: seq<State>, actions: seq<Action>, i: nat)
    requires IsRun(db, states, actions) && i < |states|
    ensures CommitInv(states[i])
  {
    if i > 0 {
      hide CommitInv, Next, Enabled;
      CommitInvHolds(db, states, actions, i - 1);
      CommitInvKept(states[i - 1], actions[i - 1]);
    }
  }

  /** The coordinator's decision: it waits for the replies in turn and stops at the first that is not a
      yes. A reply is a yes only when the participant has sent one; a lost call counts as a no. Whatever it
      decides is a step that the protocol allows. */
  method Decide(ghost s: State, t: TxnId, nodes: seq<NodeId>, replies: seq<bool>) returns (a: Action)
    requires InPhase(s, t, Voting) && |replies| == |nodes|
    requires forall n :: n in s.coords[t].nodes <==> n in nodes
    requires forall i :: 0 <= i < |nodes| && replies[i] ==> Message(YesMsg, nodes[i], t) in s.msgs
    ensures Enabled(s, a) && (a == DecideCommit(t) || a == DecideAbort(t))
    ensures a == DecideCommit(t) <==> forall i :: 0 <= i < |replies| ==> replies[i]
  {
    var commitFlag := true;
    for i := 0 to |nodes|
      invariant commitFlag && forall j :: 0 <= j < i ==> replies[j]
    {
      if !replies[i] {
        commitFlag := false;
        break;
      }
    }
    a := if commitFlag then DecideCommit(t) else DecideAbort(t);
  }

  /** Two nodes never disagree: if one logs COMMIT of a transaction, no node logs its ABORT. */
  lemma NoMixedOutcome(s: State, e: LogEntry, f: LogEntry)
    requires CommitInv(s) && e in s.log && f in s.log
    requires e.txn == f.txn && e.kind == LogCommit
    ensures f.kind != LogAbort
  {
  }

  /** Atomic commitment, for every run of the cluster: outcomes agree across nodes, each node logs at
      most one of them, and COMMIT is logged only after every participant logged PREPARED. */
  lemma AtomicCommitment(db: map<Key, Value>, states: seq<State>, actions: seq<Action>, i: nat)
    requires IsRun(db, states, actions) && i < |states|
    ensures var s := states[i];
            && OneOutcome(s.log)
            && CommitAfterAllPrepared(s)
            && forall e, f :: e in s.log && f in s.log && e.txn == f.txn && e.kind == LogCommit ==> f.kind != LogAbort
  {
    CommitInvHolds(db, states, actions, i);
    forall e, f | e in states[i].log && f in states[i].log && e.txn == f.txn && e.kind == LogCommit
      ensures f.kind != LogAbort
    {
      NoMixedOutcome(states[i], e, f);
    }
  }
}
