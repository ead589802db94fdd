/** A run after which recovery keeps what an aborted transaction has written: the node crashes while it rolls a
    prepared transaction back. The walk of undo starts at the first compensation and ends at the PREPARED record. */
module PreparedExamples {
  import opened Common
  import opened LockQueue
  import opened LockManager
  import opened Txn
  import opened Cluster
  import opened NodeLogs
  import opened NodeRecovery
  import opened LogChain
  import L = LogRecords
  import R = Recoveries

  const T: TxnId := 1

  /** Two keys of one node, in different rows, and their new values. */
  datatype Puts = Puts(k1: Key, k2: Key, v1: Value, v2: Value)

  predicate Apart(c: Puts) {
    && c.k1.node == c.k2.node && RowOf(c.k1.text).Some? && RowOf(c.k2.text).Some?
    && RowLock(c.k1) != RowLock(c.k2)
  }

  function Steps(c: Puts): (actions: seq<Action>)
    ensures |actions| == 11
  {
    var n := c.k1.node;
    [Begin(T, {n}, true), Start(n, T),
     LockItem(n, T, RowLock(c.k1), Exclusive), Access(c.k1, T, DoPut(c.v1)),
     LockItem(n, T, RowLock(c.k2), Exclusive), Access(c.k2, T, DoPut(c.v2)),
     StartCommit(T), Prepare(n, T), DecideAbort(T), DeliverAbort(n, T), UndoOne(n, T)]
  }

  function Granted(): LockRequestQueue {
    LockRequestQueue([LockRequest(T, Exclusive, true)], false)
  }

  function OneLock(c: Puts): LockTable {
    map[RowLock(c.k1) := Granted()]
  }

  function BothLocks(c: Puts): LockTable {
    OneLock(c)[RowLock(c.k2) := Granted()]
  }

  function OneView(c: Puts): TxnView {
    TxnView(Growing, AddLock(map[], Exclusive, RowLock(c.k1)))
  }

  function BothView(c: Puts): TxnView {
    TxnView(Growing, AddLock(OneView(c).sets, Exclusive, RowLock(c.k2)))
  }

  function Event1(c: Puts): Event {
    Event(T, c.k1, Put(c.v1))
  }

  function Event2(c: Puts): Event {
    Event(T, c.k2, Put(c.v2))
  }

  function Stored(c: Puts): map<Key, Value> {
    map[c.k1 := c.v1]
  }

  /** While the transaction runs. */
  function AtWork(c: Puts, table: LockTable, p: Part, db: map<Key, Value>, history: seq<Event>): State {
    State(map[c.k1.node := table], map[(c.k1.node, T) := p], map[T := Coord({c.k1.node}, true, Phase.Working)], {}, db, [], history, [])
  }

  /** Once it is to commit; `kinds` are the messages sent. */
  function Ending(c: Puts, view: TxnView, writes: seq<WriteRecord>, stage: Stage, phase: Phase, kinds: set<MessageKind>,
                  db: map<Key, Value>): State {
    var n := c.k1.node;
    State(map[n := BothLocks(c)], map[(n, T) := Part(view, writes, stage)], map[T := Coord({n}, true, phase)],
          set kind | kind in kinds :: Message(kind, n, T), db,
          if YesMsg in kinds then [LogEntry(n, T, LogPrepared)] else [], [Event1(c), Event2(c)], [])
  }

  function BothRecords(c: Puts): seq<WriteRecord> {
    [InsertTuple(c.k1), InsertTuple(c.k2)]
  }

  function BothStored(c: Puts): map<Key, Value> {
    Stored(c)[c.k2 := c.v2]
  }

  function Begun(c: Puts): State {
    Initial(map[]).(coords := map[T := Coord({c.k1.node}, true, Phase.Working)])
  }

  function AtNode(c: Puts): State {
    Begun(c).(parts := map[(c.k1.node, T) := Part(TxnView(Default, map[]), [], Running)])
  }

  function Locked1(c: Puts): State {
    AtWork(c, OneLock(c), Part(OneView(c), [], Running), map[], [])
  }

  function Put1(c: Puts): State {
    AtWork(c, OneLock(c), Part(OneView(c), [InsertTuple(c.k1)], Running), Stored(c), [Event1(c)])
  }

  function Locked2(c: Puts): State {
    AtWork(c, BothLocks(c), Part(BothView(c), [InsertTuple(c.k1)], Running), Stored(c), [Event1(c)])
  }

  function Put2(c: Puts): State {
    AtWork(c, BothLocks(c), Part(BothView(c), BothRecords(c), Running), BothStored(c), [Event1(c), Event2(c)])
  }

  function PreparedView(c: Puts): TxnView {
    BothView(c).(state := Prepared)
  }

  function Asking(c: Puts): State {
    Ending(c, BothView(c), BothRecords(c), Running, Voting, {PrepareMsg}, BothStored(c))
  }

  function Ready(c: Puts): State {
    Ending(c, PreparedView(c), BothRecords(c), Running, Voting, {PrepareMsg, YesMsg}, BothStored(c))
  }

  function Refused(c: Puts): State {
    Ending(c, PreparedView(c), BothRecords(c), Running, SaidAbort, {PrepareMsg, YesMsg, AbortMsg}, BothStored(c))
  }

  function RollingBack(c: Puts): State {
    Ending(c, PreparedView(c), BothRecords(c), Undoing, SaidAbort, {PrepareMsg, YesMsg, AbortMsg}, BothStored(c))
  }

  function HalfBack(c: Puts): State {
    Ending(c, PreparedView(c), [InsertTuple(c.k1)], Undoing, SaidAbort, {PrepareMsg, YesMsg, AbortMsg}, Stored(c))
  }

  function States(c: Puts): (states: seq<State>)
    ensures |states| == 12
  {
    [Initial(map[]), Begun(c), AtNode(c), Locked1(c), Put1(c), Locked2(c), Put2(c), Asking(c), Ready(c), Refused(c),
     RollingBack(c), HalfBack(c)]
  }

  ghost predicate Goes(s: State, a: Action, s': State) {
    Enabled(s, a) && Next(s, a) == s'
  }

  lemma Started(c: Puts)
    ensures Goes(Initial(map[]), Begin(T, {c.k1.node}, true), Begun(c)) && Goes(Begun(c), Start(c.k1.node, T), AtNode(c))
  {
    hide LockOn, UnlockOn, AccessEffect, UndoEffect, RowLock, RowOf, Held, AddLock, Granted;
  }

  lemma FreshLock(table: LockTable, v: TxnView, id: LockDataId)
    requires id !in table && v.state in {Default, Growing}
    ensures LockOn(table, v, T, id, Exclusive) == (table[id := Granted()], TxnView(Growing, AddLock(v.sets, Exclusive, id)), true)
  {
    var (waiting, granted) := (LockRequest(T, Exclusive, false), LockRequest(T, Exclusive, true));
    assert [] + [waiting] == [waiting] && [waiting][0 := granted] == [granted];
    assert LockCall(EMPTY_QUEUE, T, Exclusive) == (Granted(), true);
  }

  lemma FirstLock(c: Puts)
    ensures Goes(AtNode(c), LockItem(c.k1.node, T, RowLock(c.k1), Exclusive), Locked1(c))
  {
    FreshLock(map[], TxnView(Default, map[]), RowLock(c.k1));
    hide LockOn, UnlockOn, AccessEffect, UndoEffect, RowLock, RowOf, Held, AddLock, Granted;
  }

  lemma LockStep(s: State, n: NodeId, id: LockDataId, table: LockTable, view: TxnView)
    requires RunningAt(s, n, T) && InPhase(s, T, Phase.Working)
    requires LockOn(TableAt(s, n), s.parts[(n, T)].view, T, id, Exclusive) == (table, view, true)
    ensures Goes(s, LockItem(n, T, id, Exclusive),
                 SetPart(s, n, T, s.parts[(n, T)].(view := view)).(tables := s.tables[n := table]))
  {
    hide LockOn, UnlockOn, AccessEffect, UndoEffect;
  }

  lemma SecondLock(c: Puts)
    requires Apart(c)
    ensures Goes(Put1(c), LockItem(c.k1.node, T, RowLock(c.k2), Exclusive), Locked2(c))
  {
    hide Goes, LockOn, RowLock, RowOf, AddLock, Granted;
    FreshLock(OneLock(c), OneView(c), RowLock(c.k2));
    hide OneLock, OneView, Event1;
    LockStep(Put1(c), c.k1.node, RowLock(c.k2), BothLocks(c), BothView(c));
    assert Put1(c).tables[c.k1.node := BothLocks(c)] == Locked2(c).tables;
    assert Put1(c).parts[(c.k1.node, T) := Part(BothView(c), [InsertTuple(c.k1)], Running)] == Locked2(c).parts;
  }

  lemma HeldByT(table: LockTable, id: LockDataId)
    requires id in table && table[id] == Granted()
    ensures Held(table, id, T) == Some(Exclusive)
  {
  }

  lemma PutEffect(db: map<Key, Value>, ws: seq<WriteRecord>, k: Key, v: Value)
    ensures AccessEffect(db, ws, k, DoPut(v)) == (ws + [InsertTuple(k)], db[k := v], Put(v))
  {
  }

  lemma FirstPut(c: Puts)
    requires Apart(c)
    ensures Goes(Locked1(c), Access(c.k1, T, DoPut(c.v1)), Put1(c))
  {
    HeldByT(OneLock(c), RowLock(c.k1));
    PutEffect(map[], [], c.k1, c.v1);
    hide LockOn, UnlockOn, AccessEffect, UndoEffect, RowLock, RowOf, Held, AddLock, Granted;
    assert [] + [Event1(c)] == [Event1(c)] && [] + [InsertTuple(c.k1)] == [InsertTuple(c.k1)];
  }

  lemma SecondPut(c: Puts)
    requires Apart(c)
    ensures Goes(Locked2(c), Access(c.k2, T, DoPut(c.v2)), Put2(c))
  {
    HeldByT(BothLocks(c), RowLock(c.k2));
    PutEffect(Stored(c), [InsertTuple(c.k1)], c.k2, c.v2);
    hide LockOn, UnlockOn, AccessEffect, UndoEffect, RowLock, RowOf, Held, AddLock, Granted;
    assert [Event1(c)] + [Event2(c)] == [Event1(c), Event2(c)];
    assert [InsertTuple(c.k1)] + [InsertTuple(c.k2)] == [InsertTuple(c.k1), InsertTuple(c.k2)];
  }

  lemma Asked(c: Puts)
    ensures Goes(Put2(c), StartCommit(T), Asking(c))
  {
    hide LockOn, UnlockOn, AccessEffect, UndoEffect, RowLock, RowOf, Held, AddLock, Granted;
    assert Broadcast(PrepareMsg, {c.k1.node}, T) == {Message(PrepareMsg, c.k1.node, T)};
  }

  lemma IsPrepared(c: Puts)
    ensures Goes(Asking(c), Prepare(c.k1.node, T), Ready(c))
  {
    hide LockOn, UnlockOn, AccessEffect, UndoEffect, RowLock, RowOf, Held, AddLock, Granted;
  }

  lemma IsRefused(c: Puts)
    ensures Goes(Ready(c), DecideAbort(T), Refused(c))
  {
    hide LockOn, UnlockOn, AccessEffect, UndoEffect, RowLock, RowOf, Held, AddLock, Granted;
    assert Broadcast(AbortMsg, {c.k1.node}, T) == {Message(AbortMsg, c.k1.node, T)};
  }

  lemma AbortArrives(c: Puts)
    ensures Goes(Refused(c), DeliverAbort(c.k1.node, T), RollingBack(c))
  {
    hide LockOn, UnlockOn, AccessEffect, UndoEffect, RowLock, RowOf, Held, AddLock, Granted;
  }

  lemma OneIsUndone(c: Puts)
    requires Apart(c)
    ensures Goes(RollingBack(c), UndoOne(c.k1.node, T), HalfBack(c))
  {
    assert c.k1 != c.k2;
    hide LockOn, UnlockOn, AccessEffect, UndoEffect, RowLock, RowOf, Held, AddLock, Granted;
    assert Stored(c)[c.k2 := c.v2] - {c.k2} == Stored(c);
    assert [InsertTuple(c.k1), InsertTuple(c.k2)][..1] == [InsertTuple(c.k1)];
  }

  lemma StepsAreRun(states: seq<State>, actions: seq<Action>)
    requires |states| == |actions| + 1 && states[0] == Initial(map[])
    requires forall i :: 0 <= i < |actions| ==> Goes(states[i], actions[i], states[i + 1])
    ensures IsRun(map[], states, actions)
  {
    hide Enabled, Next;
    forall i | 0 <= i < |actions|
      ensures Enabled(states[i], actions[i]) && states[i + 1] == Next(states[i], actions[i])
    {
      assert Goes(states[i], actions[i], states[i + 1]);
    }
  }

  lemma ThisIsRun(c: Puts)
    requires Apart(c)
    ensures IsRun(map[], States(c), Steps(c))
  {
    hide Goes, Begun, AtNode, Locked1, Put1, Locked2, Put2, Asking, Ready, Refused, RollingBack, HalfBack;
    Started(c);
    FirstLock(c);
    FirstPut(c);
    SecondLock(c);
    SecondPut(c);
    Asked(c);
    IsPrepared(c);
    IsRefused(c);
    AbortArrives(c);
    OneIsUndone(c);
    StepsAreRun(States(c), Steps(c));
  }

  // ---- what the node has logged -----------------------------------------------------------------------

  function Log(c: Puts): (rs: seq<L.LogRecord>)
    ensures |rs| == 5
  {
    [L.LogRecord(0, T, -1, L.Begin), L.LogRecord(1, T, 0, L.Insert(c.k1.text, c.v1)), L.LogRecord(2, T, 1, L.Insert(c.k2.text, c.v2)),
     L.LogRecord(3, T, 2, L.Prepared), L.LogRecord(4, T, 3, L.Delete(c.k2.text, c.v2))]
  }

  /** How many records the first `i` steps log. */
  function Count(i: nat): nat {
    if i < 2 then 0 else if i < 4 then 1 else if i < 6 then 2 else if i < 8 then 3 else if i < 11 then 4 else 5
  }

  lemma LogsOne(c: Puts, i: nat)
    requires Apart(c) && i < 11 && Enabled(States(c)[i], Steps(c)[i])
    ensures LoggedAt(States(c)[i], Steps(c)[i], c.k1.node) ==
            if Count(i + 1) == Count(i) then None else Some((T, Log(c)[Count(i)].op))
  {
    hide Enabled, RowLock, RowOf, OneLock, BothLocks, Event1, Event2, AddLock;
    hide Begun, AtNode, Locked1, Put1, Locked2, Put2, Ready, Refused, HalfBack;
  }

  lemma Grows(c: Puts, m: nat)
    requires m < 5
    ensures Appended(Log(c)[..m], Some((T, Log(c)[m].op))) == Log(c)[..m + 1]
  {
    hide LastOf;
    var rs := Log(c)[..m];
    assert LastOf(L.Links(rs), T) == m - 1 by {
      if m > 0 { assert L.Links(rs)[m - 1].txn == T; }
    }
  }

  lemma NothingAppended(rs: seq<L.LogRecord>)
    ensures Appended(rs, None) == rs
  {
  }

  lemma {:induction false} LogIs(c: Puts, i: nat)
    requires Apart(c) && IsRun(map[], States(c), Steps(c)) && i <= 11
    ensures NodeLog(map[], States(c), Steps(c), c.k1.node, i) == Log(c)[..Count(i)]
  {
    hide Next, Enabled, LoggedAt, States, Log, Appended;
    if i > 0 {
      LogIs(c, i - 1);
      LogsOne(c, i - 1);
      if Count(i) > Count(i - 1) { Grows(c, Count(i - 1)); } else { NothingAppended(Log(c)[..Count(i)]); }
    }
  }

  // ---- what recovery makes of it ----------------------------------------------------------------------

  lemma LogTail(c: Puts)
    ensures forall m :: 0 <= m < 5 ==> Log(c)[..m] + [Log(c)[m]] == Log(c)[..m + 1]
    ensures Log(c)[..0] == [] && Log(c)[..5] == Log(c)
  {
  }

  lemma NothingLeft()
    ensures R.Without([], {T}) == []
  {
  }

  lemma Built(c: Puts)
    requires c.k1.text != c.k2.text
    ensures R.Replay(Log(c)) == map[c.k1.text := c.v1] && R.Losers(Log(c)) == {T} && R.Tracked(Log(c)) == map[T := 4, L.INVALID_TXN := 3]
    ensures R.Replay(Log(c)[..1]) == map[] && R.Replay(Log(c)[..2]) == map[c.k1.text := c.v1]
    ensures R.Without(Log(c), {T}) == []
  {
    hide R.Replay, R.Active, R.Tracked, R.Without;
    LogTail(c);
    R.EmptyLog();
    assert R.Without([], {T}) == [] by { NothingLeft(); }
    R.Snoc(Log(c)[..0], Log(c)[0]);
    R.Snoc(Log(c)[..1], Log(c)[1]);
    R.Snoc(Log(c)[..2], Log(c)[2]);
    R.Snoc(Log(c)[..3], Log(c)[3]);
    R.Snoc(Log(c)[..4], Log(c)[4]);
  }

  /** The walk comes to the last compensation and to the PREPARED record, and there it ends. */
  lemma WalkEnds(c: Puts)
    requires c.k1.text != c.k2.text
    ensures R.Reached(Log(c)) == {3, 4}
  {
    hide R.Replay, R.Active, R.Tracked, R.Without;
    Built(c);
    var rs := Log(c);
    assert R.Reaches(rs, 3, 3) && R.Reaches(rs, 4, 4) && R.Reaches(rs, 4, 3);
    forall i: nat | i < 5
      ensures R.IsReached(rs, i) <==> i == 3 || i == 4
    {
      assert R.Reaches(rs, 3, i) <==> i == 3;
      assert R.Reaches(rs, 4, i) <==> i == 4 || i == 3;
      if i == 3 { assert R.Reaches(rs, R.Tracked(rs)[T], 3); }
      if i == 4 { assert R.Reaches(rs, R.Tracked(rs)[T], 4); }
    }
  }

  /** Every first write was an insert where nothing was. */
  lemma WritesWereSafe(c: Puts, text: Bytes)
    requires c.k1.text != c.k2.text
    ensures R.SafeFirstWrite(Log(c), text)
  {
    hide R.Replay, R.Active, R.Without, R.FirstTouch;
    Built(c);
    var rs := Log(c);
    if text == c.k1.text {
      R.FirstTouchIs(rs, R.LoserRecords(rs), text, 1);
    } else if text == c.k2.text {
      R.FirstTouchIs(rs, R.LoserRecords(rs), text, 2);
    } else {
      R.FirstTouchIs(rs, R.LoserRecords(rs), text, 5);
    }
  }

  lemma IsLeft(c: Puts, text: Bytes)
    requires c.k1.text != c.k2.text
    ensures R.At(R.Recovered(Log(c)), text) == R.At(map[c.k1.text := c.v1, c.k2.text := c.k2.text], text)
  {
    hide R.Replay, R.Active, R.Without, R.FirstTouch, R.Reached, R.Recovered;
    Built(c);
    WalkEnds(c);
    var rs := Log(c);
    R.RecoveredAt(rs, text);
    R.FirstTouchIs(rs, R.Reached(rs), text, if text == c.k2.text then 4 else 5);
  }

  /** This is a run, and nothing is committed. The transaction was aborted and is half rolled back at the node; each
      of its first writes was safe. Yet the recovered store holds its first key, and the second key as its own value. */
  lemma AbortedWritesSurvive(c: Puts)
    requires Apart(c)
    ensures IsRun(map[], States(c), Steps(c)) && States(c)[11].decisions == []
    ensures var rs := NodeLog(map[], States(c), Steps(c), c.k1.node, 11);
            && (forall text :: R.SafeFirstWrite(rs, text))
            && R.Replay(R.Without(rs, R.Losers(rs))) == map[]
            && R.Recovered(rs) == map[c.k1.text := c.v1, c.k2.text := c.k2.text]
  {
    ThisIsRun(c);
    LogIs(c, 11);
    LogTail(c);
    assert c.k1.text != c.k2.text;
    var rs := Log(c);
    hide Log, States, Steps, R.Recovered, R.SafeFirstWrite, R.Replay, R.Losers, R.Without;
    Built(c);
    forall text
      ensures R.SafeFirstWrite(rs, text)
    {
      WritesWereSafe(c, text);
    }
    assert R.Replay([]) == map[] by { R.EmptyLog(); }
    var left: R.Store := map[c.k1.text := c.v1, c.k2.text := c.k2.text];
    forall text
      ensures R.At(R.Recovered(rs), text) == R.At(left, text)
    {
      IsLeft(c, text);
    }
    R.SameStore(R.Recovered(rs), left);
  }
}
