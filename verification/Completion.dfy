/** Commit and abort come to an end: from every state of a run, the messages that a coordinator has sent are enough for
    every participant to finish (src/transaction/transaction_manager.cpp,
    include/transaction/transaction_manager_rpc.h). */
module Completions {
  import opened Common
  import opened LockQueue
  import opened LockManager
  import opened Txn
  import opened Cluster
  import opened AtomicCommit
  import opened LockSafety
  import opened HandlerRuns

  // ---- what completion relies on ------------------------------------------------------------------------

  ghost predicate Sent(s: State, kind: MessageKind, t: TxnId)
    requires t in s.coords
  {
    forall n :: n in s.coords[t].nodes ==> Message(kind, n, t) in s.msgs
  }

  /** A coordinator has told every participant, and there is one, what it has moved on to. */
  ghost predicate Told(s: State, t: TxnId)
    requires t in s.coords
  {
    && (exists n :: n in s.coords[t].nodes)
    && match s.coords[t].phase
       case Working => true
       case Voting => Sent(s, PrepareMsg, t)
       case OnePhase => Sent(s, CommitMsg, t)
       case SaidCommit => Sent(s, CommitMsg, t)
       case SaidAbort => Sent(s, AbortMsg, t)
  }

  /** What a participant has done is in the log, and its lock sets are of the kinds that are released. */
  ghost predicate Recorded(s: State, n: NodeId, t: TxnId)
    requires (n, t) in s.parts
  {
    var p := s.parts[(n, t)];
    && (Committing(p) ==> LogEntry(n, t, LogCommit) in s.log)
    && (Aborting(p) && p.stage != Undoing ==> LogEntry(n, t, LogAbort) in s.log)
    && KindsMatch(p.view.sets)
  }

  ghost predicate CompletionInv(s: State) {
    && (forall t :: t in s.coords ==> Told(s, t))
    && (forall n, t :: (n, t) in s.parts ==> Recorded(s, n, t))
  }

  lemma NoneIsEmpty(nodes: set<NodeId>)
    requires forall n :: n !in nodes
    ensures nodes == {}
  {
    assert forall n :: n in nodes ==> n in {};
  }

  lemma SomeNode(nodes: set<NodeId>)
    requires nodes != {}
    ensures exists n :: n in nodes
  {
    if forall n :: n !in nodes { NoneIsEmpty(nodes); }
  }

  lemma CoordinatorTells(s: State, a: Action)
    requires Enabled(s, a) && AtCoordinator(a) && (a.t in s.coords ==> Told(s, a.t))
    ensures a.t in Next(s, a).coords && (a.Begin? || a.t in s.coords)
    ensures Next(s, a).coords == s.coords[a.t := Next(s, a).coords[a.t]]
    ensures Told(Next(s, a), a.t)
  {
    if a.Begin? { SomeNode(a.nodes); }
  }

  lemma ToldKept(s: State, a: Action, t: TxnId)
    requires CompletionInv(s) && Enabled(s, a) && t in Next(s, a).coords
    ensures Told(Next(s, a), t)
  {
    hide Next, Enabled;
    LogAndMessagesGrow(s, a);
    if AtCoordinator(a) {
      CoordinatorTells(s, a);
    } else {
      ParticipantCoords(s, a);
    }
    if !AtCoordinator(a) || a.t != t {
      assert Told(s, t);
    }
  }

  lemma OwnOutcome(s: State, a: Action)
    requires Enabled(s, a) && !AtCoordinator(a)
    ensures PlaceOf(a) in Next(s, a).parts
    ensures var (s', n, t) := (Next(s, a), PlaceOf(a).0, PlaceOf(a).1);
            var (p, p') := (PartIn(s, n, t), s'.parts[(n, t)]);
            && (Committing(p') ==> (p.Some? && Committing(p.value)) || LogEntry(n, t, LogCommit) in s'.log)
            && (Aborting(p') && p'.stage != Undoing ==>
                  (p.Some? && Aborting(p.value) && p.value.stage != Undoing) || LogEntry(n, t, LogAbort) in s'.log)
  {
    hide LockOn, UnlockOn, AccessEffect, UndoEffect;
  }

  lemma KindsKept(s: State, a: Action, n: NodeId, t: TxnId)
    requires LockInv(s) && Enabled(s, a) && (n, t) in s.parts && KindsMatch(s.parts[(n, t)].view.sets)
    ensures (n, t) in Next(s, a).parts && KindsMatch(Next(s, a).parts[(n, t)].view.sets)
  {
    hide Next, Enabled, LockOn, UnlockOn, Held, KindsMatch, TableInv, Backed;
    ViewMoves(s, a, n, t);
    assert PartCovered(s, n, t) && TableInv(TableAt(s, n));
    var v := s.parts[(n, t)].view;
    if a.LockItem? && a.n == n && a.t == t {
      LockOnKeepsInStep(TableAt(s, n), v, t, a.id, a.mode);
    } else if a.UnlockItem? && a.n == n && a.t == t {
      UnlockOnKeepsInStep(TableAt(s, n), v, t, a.id);
    }
  }

  lemma RecordedKept(s: State, a: Action, n: NodeId, t: TxnId)
    requires LockInv(s) && CompletionInv(s) && Enabled(s, a) && (n, t) in Next(s, a).parts
    ensures Recorded(Next(s, a), n, t)
  {
    hide Next, Enabled, LockInv;
    LogAndMessagesGrow(s, a);
    PartNews(s, a, n, t);
    if (n, t) in s.parts {
      assert Recorded(s, n, t);
      KindsKept(s, a, n, t);
    }
    if AtCoordinator(a) {
      CoordinatorFrame(s, a);
    } else if PlaceOf(a) == (n, t) {
      OwnOutcome(s, a);
    } else {
      ParticipantFrame(s, a);
    }
  }

  lemma CompletionInvKept(s: State, a: Action)
    requires LockInv(s) && CompletionInv(s) && Enabled(s, a)
    ensures CompletionInv(Next(s, a))
  {
    hide Next, Enabled, LockInv;
    forall t | t in Next(s, a).coords
      ensures Told(Next(s, a), t)
    {
      ToldKept(s, a, t);
    }
    forall n, t | (n, t) in Next(s, a).parts
      ensures Recorded(Next(s, a), n, t)
    {
      RecordedKept(s, a, n, t);
    }
  }

  /** Everything that holds in every state of every run and that completion relies on. */
  ghost predicate SystemInv(s: State) {
    ProtocolInv(s) && LockInv(s) && CompletionInv(s)
  }

  lemma SystemInvKept(s: State, a: Action)
    requires SystemInv(s) && Enabled(s, a)
    ensures SystemInv(Next(s, a))
  {
    hide ProtocolInv, LockInv, CompletionInv, Next, Enabled;
    ProtocolInvKept(s, a);
    LockInvKept(s, a);
    CompletionInvKept(s, a);
  }

  lemma InitialInv(db: map<Key, Value>)
    ensures SystemInv(Initial(db))
  {
  }

  lemma {:induction false} SystemInvHolds(db: map<Key, Value>, states: seq<State>, actions: seq<Action>, i: nat)
    requires IsRun(db, states, actions) && i < |states|
    ensures SystemInv(states[i])
  {
    hide SystemInv, Next, Enabled;
    if i == 0 {
      InitialInv(db);
    } else {
      SystemInvHolds(db, states, actions, i - 1);
      SystemInvKept(states[i - 1], actions[i - 1]);
    }
  }

  lemma {:induction false} PathKeepsInv(s: State, actions: seq<Action>, s': State)
    requires SystemInv(s) && Path(s, actions, s')
    ensures SystemInv(s')
    decreases |actions|
  {
    hide SystemInv, Next, Enabled;
    if |actions| > 0 {
      SystemInvKept(s, actions[0]);
      PathKeepsInv(Next(s, actions[0]), actions[1..], s');
    }
  }

  // ---- what one participant does leaves the others alone -------------------------------------------------

  /** Nothing has happened to the coordinators and, outside `places`, to the participants; no message is lost. */
  ghost predicate Elsewhere(s: State, s': State, places: set<(NodeId, TxnId)>) {
    && s'.coords == s.coords && s.msgs <= s'.msgs
    && (forall t :: t in s.decisions ==> t in s'.decisions)
    && (forall x :: x !in places ==> (x in s.parts <==> x in s'.parts))
    && (forall x :: x !in places && x in s.parts ==> s'.parts[x] == s.parts[x])
  }

  lemma {:induction false} PathFrame(s: State, actions: seq<Action>, s': State, n: NodeId, t: TxnId)
    requires Path(s, actions, s') && OnlyAt(actions, n, t)
    ensures Elsewhere(s, s', {(n, t)})
    decreases |actions|
  {
    hide Next, Enabled;
    if |actions| > 0 {
      var a := actions[0];
      assert !AtCoordinator(a) && PlaceOf(a) == (n, t);
      ParticipantFrame(s, a);
      ParticipantCoords(s, a);
      LogAndMessagesGrow(s, a);
      assert OnlyAt(actions[1..], n, t);
      PathFrame(Next(s, a), actions[1..], s', n, t);
    }
  }

  // ---- one participant ------------------------------------------------------------------------------------

  /** The participant has ended so, has logged it, and holds nothing. */
  ghost predicate Done(s: State, n: NodeId, t: TxnId, outcome: Outcome) {
    && (n, t) in s.parts && s.parts[(n, t)].stage == Ended(outcome)
    && LogEntry(n, t, if outcome == Commit then LogCommit else LogAbort) in s.log
    && forall id :: HeldAt(s, n, id, t).None?
  }

  lemma EndedIsDone(s: State, n: NodeId, t: TxnId, outcome: Outcome)
    requires SystemInv(s) && (n, t) in s.parts && s.parts[(n, t)].stage == Ended(outcome)
    ensures Done(s, n, t, outcome)
  {
    assert Recorded(s, n, t);
  }

  lemma PartInStep(s: State, n: NodeId, t: TxnId)
    requires SystemInv(s) && (n, t) in s.parts
    ensures InStep(TableAt(s, n), s.parts[(n, t)].view.sets, t)
  {
    hide Held;
    assert Recorded(s, n, t) && PartCovered(s, n, t);
  }

  /** Where a participant can get to, by itself, once the coordinator has told it the outcome. */
  ghost predicate Obeys(s: State, n: NodeId, t: TxnId, outcome: Outcome) {
    && (n, t) in s.parts && t in s.coords
    && match s.parts[(n, t)].stage
       case Running => if outcome == Commit then Message(CommitMsg, n, t) in s.msgs && s.parts[(n, t)].view.state != Aborted
                       else Message(AbortMsg, n, t) in s.msgs
       case Undoing => outcome == Abort
       case Releasing(o) => o == outcome
       case Ended(o) => o == outcome
  }

  lemma UndoToEnd(s: State, n: NodeId, t: TxnId) returns (actions: seq<Action>, s': State)
    requires SystemInv(s) && (n, t) in s.parts && s.parts[(n, t)].stage == Undoing
    ensures Path(s, actions, s') && OnlyAt(actions, n, t) && (n, t) in s'.parts && s'.parts[(n, t)].stage == Ended(Abort)
  {
    hide SystemInv, Next, Enabled, InStep, Path, LogAfter;
    PartInStep(s, n, t);
    var undo, s1 := UndoRun(s, n, t, []);
    FinishUndoStep(s1, n, t);
    var b := FinishUndo(n, t);
    OneStep(s1, b, n, []);
    PathJoin(s, undo, s1, [b], Next(s1, b), n, []);
    var release;
    release, s' := ReleaseRun(Next(s1, b), n, t, []);
    PathJoin(s, undo + [b], Next(s1, b), release, s', n, []);
    actions := undo + [b] + release;
  }

  /** A participant that has been told the outcome ends so, from wherever it is. */
  lemma EndOne(s: State, n: NodeId, t: TxnId, outcome: Outcome) returns (actions: seq<Action>, s': State)
    requires SystemInv(s) && Obeys(s, n, t, outcome)
    ensures Path(s, actions, s') && SystemInv(s') && Elsewhere(s, s', {(n, t)}) && Done(s', n, t, outcome)
  {
    hide SystemInv, Next, InStep, Path, LogAfter, Done, Elsewhere;
    PartInStep(s, n, t);
    match s.parts[(n, t)].stage {
      case Running =>
        if outcome == Commit {
          actions, s' := CommitRun(s, n, t, []);
        } else {
          actions, s' := AbortRun(s, n, t, []);
        }
      case Undoing => actions, s' := UndoToEnd(s, n, t);
      case Releasing(_) => actions, s' := ReleaseRun(s, n, t, []);
      case Ended(_) =>
        actions, s' := [], s;
        NothingToUndo(s, n, t, []);
    }
    PathKeepsInv(s, actions, s');
    PathFrame(s, actions, s', n, t);
    EndedIsDone(s', n, t, outcome);
  }

  // ---- all participants -----------------------------------------------------------------------------------

  function Places(nodes: set<NodeId>, t: TxnId): set<(NodeId, TxnId)> {
    set n | n in nodes :: (n, t)
  }

  lemma StillObeys(s: State, s': State, n: NodeId, t: TxnId, outcome: Outcome, places: set<(NodeId, TxnId)>)
    requires Obeys(s, n, t, outcome) && Elsewhere(s, s', places) && (n, t) !in places
    ensures Obeys(s', n, t, outcome)
  {
  }

  lemma ElsewhereJoin(s: State, m: State, s': State, n: NodeId, t: TxnId, rest: set<NodeId>)
    requires Elsewhere(s, m, {(n, t)}) && Elsewhere(m, s', Places(rest, t))
    ensures Elsewhere(s, s', Places(rest + {n}, t))
  {
    var places := Places(rest + {n}, t);
    assert (n, t) in places && Places(rest, t) <= places;
    forall x | x !in places
      ensures x in s.parts <==> x in s'.parts
      ensures x in s.parts ==> s'.parts[x] == s.parts[x]
    {
      assert x !in {(n, t)} && x !in Places(rest, t);
    }
  }

  lemma ElsewhereMore(s: State, s': State, some: set<NodeId>, all: set<NodeId>, t: TxnId)
    requires Elsewhere(s, s', Places(some, t)) && some <= all
    ensures Elsewhere(s, s', Places(all, t))
  {
    assert Places(some, t) <= Places(all, t);
  }

  lemma NothingElsewhere(s: State, places: set<(NodeId, TxnId)>)
    ensures Path(s, [], s) && Elsewhere(s, s, places)
  {
  }

  lemma StaysEnded(s: State, s': State, n: NodeId, t: TxnId, outcome: Outcome, places: set<(NodeId, TxnId)>)
    requires Done(s, n, t, outcome) && Elsewhere(s, s', places) && (n, t) !in places && SystemInv(s')
    ensures Done(s', n, t, outcome)
  {
    hide SystemInv, HeldAt;
    EndedIsDone(s', n, t, outcome);
  }

  /** One participant after another. */
  lemma {:induction false} EndAll(s: State, t: TxnId, nodes: set<NodeId>, outcomes: map<NodeId, Outcome>)
    returns (actions: seq<Action>, s': State)
    requires SystemInv(s) && nodes <= outcomes.Keys && forall n :: n in nodes ==> Obeys(s, n, t, outcomes[n])
    ensures Path(s, actions, s') && SystemInv(s') && Elsewhere(s, s', Places(nodes, t))
    ensures forall n :: n in nodes ==> Done(s', n, t, outcomes[n])
    decreases nodes
  {
    hide SystemInv, Obeys, Path, LogAfter, HeldAt, Elsewhere, Next, Enabled;
    if n :| n in nodes {
      var first, m := EndOne(s, n, t, outcomes[n]);
      var others := nodes - {n};
      forall x | x in others
        ensures Obeys(m, x, t, outcomes[x])
      {
        StillObeys(s, m, x, t, outcomes[x], {(n, t)});
      }
      var rest;
      rest, s' := EndAll(m, t, others, outcomes);
      actions := first + rest;
      PathJoin(s, first, m, rest, s', n, []);
      assert others + {n} == nodes;
      ElsewhereJoin(s, m, s', n, t, others);
      StaysEnded(m, s', n, t, outcomes[n], Places(others, t));
    } else {
      actions, s' := [], s;
      NothingElsewhere(s, Places(nodes, t));
    }
  }

  // ---- what a decision leads to ---------------------------------------------------------------------------

  /** Every participant has ended so. */
  ghost predicate AllDone(s: State, t: TxnId, outcome: Outcome)
    requires t in s.coords
  {
    forall n :: n in s.coords[t].nodes ==> Done(s, n, t, outcome)
  }

  lemma NobodyAborts(s: State, n: NodeId, t: TxnId)
    requires ProtocolInv(s) && InPhase(s, t, SaidCommit)
    ensures Message(AbortMsg, n, t) !in s.msgs
  {
  }

  lemma DecidedObeys(s: State, n: NodeId, t: TxnId)
    requires SystemInv(s) && InPhase(s, t, SaidCommit) && n in s.coords[t].nodes
    ensures Obeys(s, n, t, Commit)
  {
    hide LockInv;
    assert CoordOk(s, t) && Told(s, t);
    assert MessageOk(s, Message(YesMsg, n, t));
    assert PartOk(s, n, t);
    NobodyAborts(s, n, t);
  }

  /** A distributed transaction that has been decided can be committed at every participant, in every state, by what
      has been sent already. */
  lemma DecidedCommits(s: State, t: TxnId) returns (actions: seq<Action>, s': State)
    requires SystemInv(s) && InPhase(s, t, SaidCommit)
    ensures Path(s, actions, s') && SystemInv(s') && Elsewhere(s, s', Places(s.coords[t].nodes, t)) && AllDone(s', t, Commit)
  {
    var nodes := s.coords[t].nodes;
    forall n | n in nodes
      ensures Obeys(s, n, t, Commit)
    {
      DecidedObeys(s, n, t);
    }
    hide SystemInv, Obeys, Path, Done, Next, Enabled;
    actions, s' := EndAll(s, t, nodes, map n | n in nodes :: Commit);
  }

  lemma OneVote(s: State, n: NodeId, t: TxnId)
    requires Message(PrepareMsg, n, t) in s.msgs && RunningAt(s, n, t) && s.parts[(n, t)].view.state != Aborted
    ensures var a := Prepare(n, t);
            && Enabled(s, a) && Message(YesMsg, n, t) in Next(s, a).msgs && !AtCoordinator(a) && PlaceOf(a) == (n, t)
            && RunningAt(Next(s, a), n, t) && Next(s, a).parts[(n, t)].view.state == Prepared
  {
    hide LockOn, UnlockOn, AccessEffect, UndoEffect;
  }

  /** The participant has been asked, and can say yes. */
  ghost predicate CanVote(s: State, n: NodeId, t: TxnId) {
    Message(PrepareMsg, n, t) in s.msgs && RunningAt(s, n, t) && s.parts[(n, t)].view.state != Aborted
  }

  /** Participants that have not aborted say yes, one after another. */
  lemma {:induction false} VoteAll(s: State, t: TxnId, nodes: set<NodeId>) returns (actions: seq<Action>, s': State)
    requires SystemInv(s) && forall n :: n in nodes ==> CanVote(s, n, t)
    ensures Path(s, actions, s') && SystemInv(s') && Elsewhere(s, s', Places(nodes, t))
    ensures forall n :: n in nodes ==> Message(YesMsg, n, t) in s'.msgs
    decreases nodes
  {
    hide SystemInv, Path, LogAfter, Next, Enabled;
    if n :| n in nodes {
      var a := Prepare(n, t);
      OneVote(s, n, t);
      OneStep(s, a, n, []);
      SystemInvKept(s, a);
      var m := Next(s, a);
      assert OnlyAt([a], n, t);
      PathFrame(s, [a], m, n, t);
      var others := nodes - {n};
      assert forall x :: x in others ==> CanVote(s, x, t) && (x, t) !in {(n, t)};
      var rest;
      rest, s' := VoteAll(m, t, others);
      actions := [a] + rest;
      PathJoin(s, [a], m, rest, s', n, []);
      assert others + {n} == nodes;
      ElsewhereJoin(s, m, s', n, t, others);
    } else {
      actions, s' := [], s;
      NothingElsewhere(s, Places(nodes, t));
    }
  }

  lemma StartAsks(s: State, t: TxnId)
    requires InPhase(s, t, Working)
    ensures Enabled(s, StartCommit(t))
    ensures var s' := Next(s, StartCommit(t));
            && InPhase(s', t, if s.coords[t].distributed then Voting else OnePhase)
            && s'.coords[t].nodes == s.coords[t].nodes && s'.parts == s.parts
  {
  }

  lemma CommitIsDecided(s: State, t: TxnId)
    requires InPhase(s, t, Voting) && forall n :: n in s.coords[t].nodes ==> Message(YesMsg, n, t) in s.msgs
    ensures Enabled(s, DecideCommit(t))
    ensures var s' := Next(s, DecideCommit(t)); InPhase(s', t, SaidCommit) && s'.coords[t].nodes == s.coords[t].nodes
  {
  }

  lemma AbortIsDecided(s: State, t: TxnId)
    requires t in s.coords && s.coords[t].phase in {Working, Voting, OnePhase}
    ensures Enabled(s, DecideAbort(t))
    ensures var s' := Next(s, DecideAbort(t));
            InPhase(s', t, SaidAbort) && s'.coords[t].nodes == s.coords[t].nodes && s'.parts == s.parts
  {
  }

  /** Once every participant has said yes, the coordinator can decide, and every participant commit. */
  lemma VotedCommits(s: State, t: TxnId) returns (actions: seq<Action>, s': State)
    requires SystemInv(s) && InPhase(s, t, Voting) && forall n :: n in s.coords[t].nodes ==> Message(YesMsg, n, t) in s.msgs
    ensures Path(s, actions, s') && SystemInv(s') && InPhase(s', t, SaidCommit)
    ensures s'.coords[t].nodes == s.coords[t].nodes && AllDone(s', t, Commit)
  {
    hide SystemInv, Path, LogAfter, Done, Next, Enabled;
    var a := DecideCommit(t);
    CommitIsDecided(s, t);
    OneStep(s, a, 0, []);
    SystemInvKept(s, a);
    var rest;
    rest, s' := DecidedCommits(Next(s, a), t);
    actions := [a] + rest;
    PathJoin(s, [a], Next(s, a), rest, s', 0, []);
  }

  /** Every participant runs and has not aborted. */
  ghost predicate AllRun(s: State, t: TxnId)
    requires t in s.coords
  {
    forall n :: n in s.coords[t].nodes ==> RunningAt(s, n, t) && s.parts[(n, t)].view.state != Aborted
  }

  /** A distributed transaction whose participants all run can be asked, voted on, decided and committed. */
  lemma WorkCommits(s: State, t: TxnId) returns (actions: seq<Action>, s': State)
    requires SystemInv(s) && InPhase(s, t, Working) && s.coords[t].distributed && AllRun(s, t)
    ensures Path(s, actions, s') && SystemInv(s') && InPhase(s', t, SaidCommit)
    ensures s'.coords[t].nodes == s.coords[t].nodes && AllDone(s', t, Commit)
  {
    var a := StartCommit(t);
    StartAsks(s, t);
    SystemInvKept(s, a);
    var m := Next(s, a);
    assert Told(m, t);
    hide SystemInv, Path, LogAfter, Done, Next, Enabled;
    OneStep(s, a, 0, []);
    var votes, v := VoteAll(m, t, s.coords[t].nodes);
    PathJoin(s, [a], m, votes, v, 0, []);
    var rest;
    rest, s' := VotedCommits(v, t);
    actions := [a] + votes + rest;
    PathJoin(s, [a] + votes, v, rest, s', 0, []);
  }

  /** The one participant of a local transaction commits by the one message that it is sent. */
  lemma LocalCommits(s: State, t: TxnId) returns (actions: seq<Action>, s': State)
    requires SystemInv(s) && InPhase(s, t, Working) && !s.coords[t].distributed && AllRun(s, t)
    ensures Path(s, actions, s') && SystemInv(s') && InPhase(s', t, OnePhase)
    ensures s'.coords[t].nodes == s.coords[t].nodes && AllDone(s', t, Commit)
  {
    var a := StartCommit(t);
    StartAsks(s, t);
    SystemInvKept(s, a);
    var (m, nodes) := (Next(s, a), s.coords[t].nodes);
    assert Told(m, t);
    assert forall n :: n in nodes ==> Obeys(m, n, t, Commit);
    hide SystemInv, Path, LogAfter, Done, Next, Enabled, Obeys;
    OneStep(s, a, 0, []);
    var rest;
    rest, s' := EndAll(m, t, nodes, map n | n in nodes :: Commit);
    actions := [a] + rest;
    PathJoin(s, [a], m, rest, s', 0, []);
  }

  /** A participant that has logged COMMIT stays with it; every other one aborts. */
  function EndOf(p: Part): Outcome {
    if Committing(p) then Commit else Abort
  }

  lemma RefusedObeys(s: State, n: NodeId, t: TxnId)
    requires SystemInv(s) && InPhase(s, t, SaidAbort) && (n, t) in s.parts
    ensures n in s.coords[t].nodes && Obeys(s, n, t, EndOf(s.parts[(n, t)]))
    ensures s.coords[t].distributed ==> EndOf(s.parts[(n, t)]) == Abort
  {
    hide LockInv;
    assert Told(s, t) && PartOk(s, n, t);
    assert Committing(s.parts[(n, t)]) ==> MessageOk(s, Message(CommitMsg, n, t));
  }

  /** Every participant that the transaction has comes to its end after an abort decision. */
  lemma RefusedEnds(s: State, t: TxnId) returns (actions: seq<Action>, s': State)
    requires SystemInv(s) && InPhase(s, t, SaidAbort)
    ensures Path(s, actions, s') && SystemInv(s') && Elsewhere(s, s', Places(s.coords[t].nodes, t))
    ensures forall n :: (n, t) in s.parts ==> Done(s', n, t, EndOf(s.parts[(n, t)]))
    ensures s.coords[t].distributed ==> forall n :: (n, t) in s.parts ==> Done(s', n, t, Abort)
  {
    hide SystemInv, Path, LogAfter, Done, Next, Enabled, Obeys, EndOf, Elsewhere;
    var nodes := set n | n in s.coords[t].nodes && (n, t) in s.parts;
    var outcomes := map n | n in nodes :: EndOf(s.parts[(n, t)]);
    forall n | (n, t) in s.parts
      ensures n in nodes && Obeys(s, n, t, outcomes[n]) && (s.coords[t].distributed ==> outcomes[n] == Abort)
    {
      RefusedObeys(s, n, t);
    }
    actions, s' := EndAll(s, t, nodes, outcomes);
    ElsewhereMore(s, s', nodes, s.coords[t].nodes, t);
  }

  /** Until it has decided to commit, a coordinator can give a transaction up, and then every participant that has not
      logged COMMIT rolls back and ends. */
  lemma GivenUpEnds(s: State, t: TxnId) returns (actions: seq<Action>, s': State)
    requires SystemInv(s) && t in s.coords && s.coords[t].phase in {Working, Voting, OnePhase}
    ensures Path(s, actions, s') && SystemInv(s') && InPhase(s', t, SaidAbort) && s'.coords[t].nodes == s.coords[t].nodes
    ensures forall n :: (n, t) in s.parts ==> Done(s', n, t, EndOf(s.parts[(n, t)]))
    ensures s.coords[t].distributed ==> forall n :: (n, t) in s.parts ==> Done(s', n, t, Abort)
  {
    var a := DecideAbort(t);
    AbortIsDecided(s, t);
    assert Next(s, a).coords[t].distributed == s.coords[t].distributed;
    hide SystemInv, Path, LogAfter, Done, Next, Enabled, EndOf;
    OneStep(s, a, 0, []);
    SystemInvKept(s, a);
    var rest;
    rest, s' := RefusedEnds(Next(s, a), t);
    actions := [a] + rest;
    PathJoin(s, [a], Next(s, a), rest, s', 0, []);
  }

  // ---- exactly which outcomes are still open ------------------------------------------------------------------

  /** Every participant has started. */
  ghost predicate AllStarted(s: State, t: TxnId) {
    t in s.coords && forall n :: n in s.coords[t].nodes ==> (n, t) in s.parts
  }

  /** The participant will never commit. */
  predicate Refuses(p: Part) {
    Aborting(p) || (p.stage == Running && p.view.state == Aborted)
  }

  /** Nobody has aborted, and the coordinator has not given up, unless it had said COMMIT before. */
  ghost predicate CommitIsOpen(s: State, t: TxnId)
    requires t in s.coords
  {
    && (s.coords[t].phase == SaidAbort ==> Sent(s, CommitMsg, t))
    && forall n :: n in s.coords[t].nodes && (n, t) in s.parts ==> !Refuses(s.parts[(n, t)])
  }

  /** The coordinator has not said COMMIT for good, and nobody has committed. */
  ghost predicate AbortIsOpen(s: State, t: TxnId)
    requires t in s.coords
  {
    && s.coords[t].phase != SaidCommit
    && forall n :: n in s.coords[t].nodes && (n, t) in s.parts ==> !Committing(s.parts[(n, t)])
  }

  ghost predicate CanEnd(s: State, t: TxnId, outcome: Outcome) {
    exists actions, s' :: Path(s, actions, s') && t in s'.coords && AllDone(s', t, outcome)
  }

  lemma CommittersHaveSaid(s: State, n: NodeId, t: TxnId)
    requires SystemInv(s) && t in s.coords && (n, t) in s.parts && Committing(s.parts[(n, t)])
    ensures s.coords[t].phase != Working && s.coords[t].phase != Voting
    ensures s.coords[t].distributed ==> s.coords[t].phase == SaidCommit
  {
    hide LockInv, CompletionInv;
    assert PartOk(s, n, t) && MessageOk(s, Message(CommitMsg, n, t));
  }

  /** Where commit is open, everybody runs, or has committed. */
  lemma OpenRuns(s: State, n: NodeId, t: TxnId)
    requires SystemInv(s) && AllStarted(s, t) && CommitIsOpen(s, t) && n in s.coords[t].nodes
    ensures s.coords[t].phase in {Working, Voting} ==> RunningAt(s, n, t) && s.parts[(n, t)].view.state != Aborted
    ensures s.coords[t].phase == Voting ==> CanVote(s, n, t)
    ensures s.coords[t].phase in {OnePhase, SaidAbort} ==> Obeys(s, n, t, Commit)
  {
    hide ProtocolInv, LockInv;
    assert Told(s, t);
    if Committing(s.parts[(n, t)]) { CommittersHaveSaid(s, n, t); }
  }

  lemma EndsInPhase(s: State, t: TxnId) returns (actions: seq<Action>, s': State)
    requires SystemInv(s) && AllStarted(s, t) && CommitIsOpen(s, t) && s.coords[t].phase in {OnePhase, SaidAbort}
    ensures Path(s, actions, s') && t in s'.coords && AllDone(s', t, Commit)
  {
    hide SystemInv, CommitIsOpen, Path, LogAfter, Done, Obeys, Next, Enabled;
    var nodes := s.coords[t].nodes;
    forall n | n in nodes
      ensures Obeys(s, n, t, Commit)
    {
      OpenRuns(s, n, t);
    }
    actions, s' := EndAll(s, t, nodes, map n | n in nodes :: Commit);
  }

  lemma VotesThenCommits(s: State, t: TxnId) returns (actions: seq<Action>, s': State)
    requires SystemInv(s) && AllStarted(s, t) && CommitIsOpen(s, t) && s.coords[t].phase == Voting
    ensures Path(s, actions, s') && t in s'.coords && AllDone(s', t, Commit)
  {
    hide SystemInv, CommitIsOpen, Path, LogAfter, Done, CanVote, Next, Enabled;
    forall n | n in s.coords[t].nodes
      ensures CanVote(s, n, t)
    {
      OpenRuns(s, n, t);
    }
    var votes, v := VoteAll(s, t, s.coords[t].nodes);
    var rest;
    rest, s' := VotedCommits(v, t);
    actions := votes + rest;
    PathJoin(s, votes, v, rest, s', 0, []);
  }

  lemma OpenCommits(s: State, t: TxnId) returns (actions: seq<Action>, s': State)
    requires SystemInv(s) && AllStarted(s, t) && CommitIsOpen(s, t)
    ensures Path(s, actions, s') && t in s'.coords && AllDone(s', t, Commit)
  {
    hide SystemInv, CommitIsOpen, Path, Done, Next, Enabled;
    match s.coords[t].phase {
      case Working =>
        forall n | n in s.coords[t].nodes
          ensures RunningAt(s, n, t) && s.parts[(n, t)].view.state != Aborted
        {
          OpenRuns(s, n, t);
        }
        if s.coords[t].distributed {
          actions, s' := WorkCommits(s, t);
        } else {
          actions, s' := LocalCommits(s, t);
        }
      case Voting => actions, s' := VotesThenCommits(s, t);
      case SaidCommit => actions, s' := DecidedCommits(s, t);
      case _ => actions, s' := EndsInPhase(s, t);
    }
  }

  lemma OwnRefusal(s: State, a: Action)
    requires Enabled(s, a) && !AtCoordinator(a) && PlaceOf(a) in s.parts && Refuses(s.parts[PlaceOf(a)])
    ensures PlaceOf(a) in Next(s, a).parts && Refuses(Next(s, a).parts[PlaceOf(a)])
  {
    hide UnlockOn, LockCall, AccessEffect, UndoEffect;
  }

  lemma RefusalStays(s: State, a: Action, n: NodeId, t: TxnId)
    requires Enabled(s, a) && (n, t) in s.parts && Refuses(s.parts[(n, t)])
    ensures (n, t) in Next(s, a).parts && Refuses(Next(s, a).parts[(n, t)])
  {
    hide Next, Enabled, Refuses;
    if AtCoordinator(a) {
      CoordinatorFrame(s, a);
    } else {
      ParticipantFrame(s, a);
      if PlaceOf(a) == (n, t) { OwnRefusal(s, a); }
    }
  }

  /** An outcome that is closed stays closed. */
  lemma CommitStaysClosed(s: State, a: Action, t: TxnId)
    requires SystemInv(s) && AllStarted(s, t) && !CommitIsOpen(s, t) && Enabled(s, a)
    ensures AllStarted(Next(s, a), t) && !CommitIsOpen(Next(s, a), t)
  {
    hide SystemInv, Next, Enabled, Refuses;
    CoordsMove(s, a);
    forall n | n in s.coords[t].nodes
      ensures (n, t) in Next(s, a).parts
    {
      PartMoves(s, a, n, t);
    }
    if s.coords[t].phase == SaidAbort && !Sent(s, CommitMsg, t) {
      var n :| n in s.coords[t].nodes && Message(CommitMsg, n, t) !in s.msgs;
      if Message(CommitMsg, n, t) in Next(s, a).msgs { MessageNews(s, a, Message(CommitMsg, n, t)); }
    } else {
      var n :| n in s.coords[t].nodes && Refuses(s.parts[(n, t)]);
      RefusalStays(s, a, n, t);
    }
  }

  lemma AbortStaysClosed(s: State, a: Action, t: TxnId)
    requires AllStarted(s, t) && !AbortIsOpen(s, t) && Enabled(s, a)
    ensures AllStarted(Next(s, a), t) && !AbortIsOpen(Next(s, a), t)
  {
    hide Next, Enabled, Committing, Aborting;
    CoordsMove(s, a);
    forall n | n in s.coords[t].nodes
      ensures (n, t) in Next(s, a).parts && (Committing(s.parts[(n, t)]) ==> Committing(Next(s, a).parts[(n, t)]))
    {
      PartMoves(s, a, n, t);
    }
  }

  ghost predicate IsOpen(s: State, t: TxnId, outcome: Outcome)
    requires t in s.coords
  {
    if outcome == Commit then CommitIsOpen(s, t) else AbortIsOpen(s, t)
  }

  lemma StartedHasBegun(s: State, t: TxnId)
    requires AllStarted(s, t)
    ensures t in s.coords
  {
  }

  lemma {:induction false} StaysClosed(s: State, actions: seq<Action>, s': State, t: TxnId, outcome: Outcome)
    requires SystemInv(s) && AllStarted(s, t) && !IsOpen(s, t, outcome) && Path(s, actions, s')
    ensures SystemInv(s') && AllStarted(s', t) && !IsOpen(s', t, outcome)
    decreases |actions|
  {
    hide SystemInv, AllStarted, CommitIsOpen, AbortIsOpen, Next, Enabled;
    if |actions| > 0 {
      var a := actions[0];
      SystemInvKept(s, a);
      assert t in s.coords by { StartedHasBegun(s, t); }
      if outcome == Commit { CommitStaysClosed(s, a, t); } else { AbortStaysClosed(s, a, t); }
      StaysClosed(Next(s, a), actions[1..], s', t, outcome);
    }
  }

  /** Where everybody has ended so, the outcome is open. */
  lemma {:induction false} DoneIsOpen(s: State, t: TxnId, outcome: Outcome)
    requires AllStarted(s, t) && AllDone(s, t, outcome)
    requires SystemInv(s)
    ensures IsOpen(s, t, outcome)
  {
    hide LockInv;
    assert Told(s, t);
    forall n | n in s.coords[t].nodes
      ensures s.parts[(n, t)].stage == Ended(outcome)
      ensures Message(if outcome == Commit then CommitMsg else AbortMsg, n, t) in s.msgs
    {
      assert Done(s, n, t, outcome) && PartOk(s, n, t);
    }
    if outcome == Abort {
      var n :| n in s.coords[t].nodes;
      assert MessageOk(s, Message(AbortMsg, n, t));
    }
  }

  lemma OpenAborts(s: State, t: TxnId) returns (actions: seq<Action>, s': State)
    requires SystemInv(s) && AllStarted(s, t) && AbortIsOpen(s, t)
    ensures Path(s, actions, s') && t in s'.coords && AllDone(s', t, Abort)
  {
    hide SystemInv, Path, Done, Next, Enabled;
    if s.coords[t].phase == SaidAbort {
      actions, s' := RefusedEnds(s, t);
    } else {
      actions, s' := GivenUpEnds(s, t);
    }
  }

  /** In every state of every run, a transaction that has started at every participant can still be ended so everywhere,
      with every participant logging the outcome and letting go of all its locks, if and only if that outcome is
      open. */
  lemma CanEndIff(db: map<Key, Value>, states: seq<State>, actions: seq<Action>, i: nat, t: TxnId, outcome: Outcome)
    requires IsRun(db, states, actions) && i < |states| && AllStarted(states[i], t)
    ensures CanEnd(states[i], t, outcome) <==> IsOpen(states[i], t, outcome)
  {
    var s := states[i];
    SystemInvHolds(db, states, actions, i);
    StartedHasBegun(s, t);
    hide SystemInv, CommitIsOpen, AbortIsOpen, AllStarted, Path, Done, Next, Enabled;
    if IsOpen(s, t, outcome) {
      var more, s';
      if outcome == Commit { more, s' := OpenCommits(s, t); } else { more, s' := OpenAborts(s, t); }
      assert Path(s, more, s') && AllDone(s', t, outcome);
    } else if CanEnd(s, t, outcome) {
      var more, s' :| Path(s, more, s') && t in s'.coords && AllDone(s', t, outcome);
      StaysClosed(s, more, s', t, outcome);
      DoneIsOpen(s', t, outcome);
    }
  }

  lemma ClosedAbortCommits(s: State, t: TxnId)
    requires SystemInv(s) && AllStarted(s, t) && !AbortIsOpen(s, t)
    ensures CommitIsOpen(s, t)
  {
    hide LockInv;
    if s.coords[t].phase == SaidCommit {
      forall n | n in s.coords[t].nodes
        ensures !Refuses(s.parts[(n, t)])
      {
        DecidedObeys(s, n, t);
      }
    } else {
      var n :| n in s.coords[t].nodes && Committing(s.parts[(n, t)]);
      CommittersHaveSaid(s, n, t);
      assert CoordOk(s, t) && PartOk(s, n, t);
    }
  }

  /** One of the two is always open, so no transaction is ever stuck. */
  lemma NeverStuck(db: map<Key, Value>, states: seq<State>, actions: seq<Action>, i: nat, t: TxnId)
    requires IsRun(db, states, actions) && i < |states| && AllStarted(states[i], t)
    ensures CanEnd(states[i], t, Commit) || CanEnd(states[i], t, Abort)
  {
    var s := states[i];
    SystemInvHolds(db, states, actions, i);
    CanEndIff(db, states, actions, i, t, Commit);
    CanEndIff(db, states, actions, i, t, Abort);
    hide CanEnd;
    if !AbortIsOpen(s, t) { ClosedAbortCommits(s, t); }
  }

  // ---- before the decision: locks and accesses ------------------------------------------------------------------

  lemma LockStep(s: State, n: NodeId, t: TxnId, id: LockDataId, mode: LockMode)
    requires RunningAt(s, n, t) && InPhase(s, t, Working)
    ensures Enabled(s, LockItem(n, t, id, mode))
    ensures var (s', r) := (Next(s, LockItem(n, t, id, mode)), LockOn(TableAt(s, n), s.parts[(n, t)].view, t, id, mode));
            && RunningAt(s', n, t) && InPhase(s', t, Working) && TableAt(s', n) == r.0 && s'.parts[(n, t)].view == r.1
  {
    hide LockOn, UnlockOn, AccessEffect, UndoEffect;
  }

  /** A running participant that has no request on a row locks it and then reads or writes it, if and only if the
      other holders of the row leave room for the mode that this takes. */
  lemma LocksAndAccesses(s: State, key: Key, t: TxnId, request: Request, mode: LockMode)
    requires LockInv(s) && RunningAt(s, key.node, t) && InPhase(s, t, Working) && MayGrow(s.parts[(key.node, t)].view)
    requires RowOf(key.text).Some? && (mode == Exclusive || (mode == Shared && request.DoGet?))
    requires OwnRequest(QueueOf(TableAt(s, key.node), RowLock(key)), t).None?
    ensures var a := LockItem(key.node, t, RowLock(key), mode);
            && Enabled(s, a)
            && (Enabled(Next(s, a), Access(key, t, request)) <==> OthersAllowOn(TableAt(s, key.node), RowLock(key), t, mode))
  {
    var (table, v, id) := (TableAt(s, key.node), s.parts[(key.node, t)].view, RowLock(key));
    assert TableInv(table);
    LockStep(s, key.node, t, id, mode);
    LockOnEffect(table, v, t, id, mode);
    GrowingSucceedsIff(table, v, t, id, mode);
    hide LockInv, TableInv, LockOn, Next, Held, OthersAllowOn, RowOf, OwnRequest;
  }

  /** What the access does: the event tells what was under the key, and the store has what was asked for. */
  lemma AccessDoes(s: State, key: Key, t: TxnId, request: Request)
    requires Enabled(s, Access(key, t, request))
    ensures var s' := Next(s, Access(key, t, request));
            match request
            case DoGet => s'.db == s.db && s'.history == s.history + [Event(t, key, Get(Look(s.db, key)))]
            case DoPut(v) => s'.db == s.db[key := v] && s'.history == s.history + [Event(t, key, Put(v))]
            case DoDel => s'.db == s.db - {key} && s'.history == s.history + [Event(t, key, Del(key in s.db))]
  {
    hide LockOn, UnlockOn, UndoEffect, RowOf;
    assert key !in s.db ==> s.db - {key} == s.db;
  }

  // ---- every run can go on so -------------------------------------------------------------------------------

  /** A path from where a run has come to continues the run. */
  lemma {:induction false} PathGoesOn(db: map<Key, Value>, states: seq<State>, actions: seq<Action>,
                                      more: seq<Action>, s': State)
    returns (states': seq<State>)
    requires IsRun(db, states, actions) && Path(states[|actions|], more, s')
    ensures IsRun(db, states', actions + more) && states <= states' && states'[|actions + more|] == s'
    decreases |more|
  {
    hide Enabled, Next;
    if |more| == 0 {
      assert actions + more == actions;
      states' := states;
    } else {
      var a := more[0];
      assert (actions + [a]) + more[1..] == actions + more;
      states' := PathGoesOn(db, states + [Next(states[|actions|], a)], actions + [a], more[1..], s');
    }
  }
}
