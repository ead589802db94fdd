/** The smallest run of the cluster that is not serializable on values: one transaction on one node puts
    over a value, is aborted, rolled back and unlocked. */
module LossExamples {
  import opened Common
  import opened LockQueue
  import opened LockManager
  import opened Txn
  import opened Cluster
  import opened Histories
  import opened Serializability

  const T: TxnId := 1

  function Steps(k: Key, w: Value): seq<Action> {
    [Begin(T, {k.node}, false), Start(k.node, T), LockItem(k.node, T, RowLock(k), Exclusive), Access(k, T, DoPut(w)),
     DecideAbort(T), DeliverAbort(k.node, T), UndoOne(k.node, T), FinishUndo(k.node, T), UnlockItem(k.node, T, RowLock(k))]
  }

  function Locked(k: Key): TxnView {
    TxnView(Growing, AddLock(map[], Exclusive, RowLock(k)))
  }

  /** The state with the part, store and coordinator that matter at a time. */
  function At(k: Key, p: Part, db: map<Key, Value>, c: Phase, msgs: set<Message>, log: seq<LogEntry>, history: seq<Event>): State {
    State(map[k.node := map[RowLock(k) := LockRequestQueue([LockRequest(T, Exclusive, true)], false)]],
          map[(k.node, T) := p], map[T := Coord({k.node}, false, c)], msgs, db, log, history, [])
  }

  /** The states of the run up to the unlocking. */
  function States(k: Key, v: Value, w: Value): seq<State> {
    var (n, puts, aborts) := (k.node, [Event(T, k, Put(w))], {Message(AbortMsg, k.node, T)});
    var begun := Initial(map[k := v]).(coords := map[T := Coord({n}, false, Working)]);
    [Initial(map[k := v]),
     begun,
     begun.(parts := map[(n, T) := Part(TxnView(Default, map[]), [], Running)]),
     At(k, Part(Locked(k), [], Running), map[k := v], Working, {}, [], []),
     At(k, Part(Locked(k), [InsertTuple(k)], Running), map[k := w], Working, {}, [], puts),
     At(k, Part(Locked(k), [InsertTuple(k)], Running), map[k := w], SaidAbort, aborts, [], puts),
     At(k, Part(Locked(k), [InsertTuple(k)], Undoing), map[k := w], SaidAbort, aborts, [], puts),
     At(k, Part(Locked(k), [], Undoing), map[], SaidAbort, aborts, [], puts),
     At(k, Part(Locked(k), [], Releasing(Abort)), map[], SaidAbort, aborts, [LogEntry(n, T, LogAbort)], puts)]
  }

  ghost predicate StepIs(k: Key, v: Value, w: Value, i: nat)
    requires i < 8
  {
    var (s, a, s') := (States(k, v, w)[i], Steps(k, w)[i], States(k, v, w)[i + 1]);
    Enabled(s, a) && Next(s, a) == s'
  }

  lemma Started(k: Key, v: Value, w: Value)
    ensures StepIs(k, v, w, 0) && StepIs(k, v, w, 1)
  {
    hide LockOn, UnlockOn, UndoEffect, AccessEffect, RowLock;
  }

  lemma LockGranted(k: Key)
    ensures LockOn(map[], TxnView(Default, map[]), T, RowLock(k), Exclusive) ==
            (map[RowLock(k) := LockRequestQueue([LockRequest(T, Exclusive, true)], false)], Locked(k), true)
  {
    hide RowLock;
    var (waiting, granted) := (LockRequest(T, Exclusive, false), LockRequest(T, Exclusive, true));
    assert [] + [waiting] == [waiting] && [waiting][0 := granted] == [granted];
    assert LockCall(EMPTY_QUEUE, T, Exclusive) == (LockRequestQueue([granted], false), true);
  }

  lemma IsLocked(k: Key, v: Value, w: Value)
    ensures StepIs(k, v, w, 2)
  {
    LockGranted(k);
    hide LockOn, UnlockOn, UndoEffect, AccessEffect, RowLock;
  }

  lemma HeldByT(k: Key)
    ensures Held(map[RowLock(k) := LockRequestQueue([LockRequest(T, Exclusive, true)], false)], RowLock(k), T) == Some(Exclusive)
  {
  }

  lemma PutEffect(k: Key, v: Value, w: Value)
    ensures AccessEffect(map[k := v], [], k, DoPut(w)) == ([InsertTuple(k)], map[k := w], Put(w))
  {
    assert [] + [InsertTuple(k)] == [InsertTuple(k)] && map[k := v][k := w] == map[k := w];
  }

  lemma IsOverwritten(k: Key, v: Value, w: Value)
    requires RowOf(k.text).Some?
    ensures StepIs(k, v, w, 3)
  {
    HeldByT(k);
    PutEffect(k, v, w);
    hide LockOn, UnlockOn, AccessEffect, UndoEffect, RowLock, RowOf, Held;
    var e := Event(T, k, Put(w));
    assert [] + [e] == [e];
  }

  lemma IsOverwriting(k: Key, v: Value, w: Value)
    requires RowOf(k.text).Some?
    ensures Overwriting(States(k, v, w)[3], Steps(k, w)[3])
  {
    HeldByT(k);
    hide LockOn, UnlockOn, AccessEffect, UndoEffect, RowLock, RowOf, Held;
  }

  lemma IsAborted(k: Key, v: Value, w: Value)
    ensures StepIs(k, v, w, 4)
  {
    hide LockOn, UnlockOn, UndoEffect, AccessEffect, RowLock;
    assert Broadcast(AbortMsg, {k.node}, T) == {Message(AbortMsg, k.node, T)};
  }

  lemma AbortArrives(k: Key, v: Value, w: Value)
    ensures StepIs(k, v, w, 5)
  {
    hide LockOn, UnlockOn, UndoEffect, AccessEffect, RowLock;
  }

  lemma IsUndone(k: Key, v: Value, w: Value)
    ensures StepIs(k, v, w, 6)
  {
    hide LockOn, UnlockOn, AccessEffect, RowLock;
    assert map[k := w] - {k} == map[];
  }

  lemma IsRolledBack(k: Key, v: Value, w: Value)
    ensures StepIs(k, v, w, 7)
  {
    hide LockOn, UnlockOn, AccessEffect, UndoEffect, RowLock;
  }

  lemma CanUnlock(k: Key, v: Value, w: Value)
    ensures Enabled(States(k, v, w)[8], Steps(k, w)[8])
  {
    assert RowLock(k) in SetOf(Locked(k).sets, (RowKind, Exclusive));
  }

  lemma EveryStep(k: Key, v: Value, w: Value)
    requires RowOf(k.text).Some?
    ensures forall i :: 0 <= i < 8 ==> StepIs(k, v, w, i)
  {
    hide StepIs, Overwriting;
    Started(k, v, w);
    IsLocked(k, v, w);
    IsOverwritten(k, v, w);
    IsAborted(k, v, w);
    AbortArrives(k, v, w);
    IsUndone(k, v, w);
    IsRolledBack(k, v, w);
  }

  lemma ThisRun(k: Key, v: Value, w: Value) returns (states: seq<State>)
    requires RowOf(k.text).Some?
    ensures IsRun(map[k := v], states, Steps(k, w)) && |states| == 10 && states[..9] == States(k, v, w)
  {
    EveryStep(k, v, w);
    CanUnlock(k, v, w);
    hide Enabled, Next;
    states := States(k, v, w) + [Next(States(k, v, w)[8], Steps(k, w)[8])];
    forall i | 0 <= i < 9
      ensures Enabled(states[i], Steps(k, w)[i]) && states[i + 1] == Next(states[i], Steps(k, w)[i])
    {
      if i < 8 { assert StepIs(k, v, w, i); }
    }
  }

  /** This is a run of the cluster, and once the row is unlocked it is not serializable: the committed value is
      gone. */
  lemma OverwriteLosesValue(k: Key, v: Value, w: Value) returns (states: seq<State>)
    requires RowOf(k.text).Some?
    ensures IsRun(map[k := v], states, Steps(k, w)) && |states| == 10
    ensures !Serialized(states[9], map[k := v])
  {
    hide Enabled, Next, Serialized, Lost, RowLock;
    states := ThisRun(k, v, w);
    var actions := Steps(k, w);
    IsOverwriting(k, v, w);
    assert states[3] == states[..9][3] && states[8] == states[..9][8];
    LostStaysLost(map[k := v], states, actions, 3, 8, k, T);
    assert FreesLost(states[8], actions[8], Lost(map[k := v], states, actions, 8));
    assert forall i :: 0 <= i < 8 ==> !actions[i].UnlockItem?;
    LossShows(map[k := v], states, actions, 8);
  }
}
