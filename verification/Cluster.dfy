/** The whole system as a state machine: nodes with lock tables and stores, participants, coordinators
    and the network between them (src/transaction/transaction_manager.cpp,
    include/transaction/transaction_manager_rpc.h, test/benchmark/benchmark_rpc.h).

    The network is the set of messages ever sent: a message in it may be delivered never, late or
    more than once. `log`, `history` and `decisions` record what happened and are never read. */
module Cluster {
  import opened Common
  import opened LockQueue
  import opened LockManager
  import opened Txn

  predicate IsSpace(b: Byte) {
    b == 32 || 9 <= b <= 13
  }

  predicate IsDigit(b: Byte) {
    48 <= b <= 57
  }

  function SkipSpaces(s: Bytes): Bytes {
    if |s| > 0 && IsSpace(s[0]) then SkipSpaces(s[1..]) else s
  }

  /** The decimal number whose leading digits have given `high` and whose next digits `s` starts with. */
  function Number(s: Bytes, high: int): int {
    if |s| > 0 && IsDigit(s[0]) then Number(s[1..], 10 * high + s[0] - 48) else high
  }

  /** The row number that the key text holds from its fourth character on, as std::stoi reads it; None
      where that throws. */
  function RowOf(text: Bytes): Option<int> {
    if |text| < 3 then None else
      var s := SkipSpaces(text[3..]);
      var digits := if |s| > 0 && (s[0] == 45 || s[0] == 43) then s[1..] else s;
      if |digits| == 0 || !IsDigit(digits[0]) then None else
        var row := if s[0] == 45 then -Number(digits, 0) else Number(digits, 0);
        if -0x8000_0000 <= row <= 0x7FFF_FFFF then Some(row) else None
  }

  /** The decimal digits of a number. */
  function Decimal(n: nat): Bytes {
    if n < 10 then [48 + n] else Decimal(n / 10) + [48 + n % 10]
  }

  lemma {:induction false} NumberOfDigits(n: nat, rest: Bytes)
    ensures Number(Decimal(n) + rest, 0) == Number(rest, n)
    ensures |Decimal(n)| > 0 && IsDigit(Decimal(n)[0])
  {
    if n < 10 {
      assert (Decimal(n) + rest)[1..] == rest;
    } else {
      var last: Byte := 48 + n % 10;
      NumberOfDigits(n / 10, [last] + rest);
      assert Decimal(n) + rest == Decimal(n / 10) + ([last] + rest);
      assert ([last] + rest)[1..] == rest;
    }
  }

  lemma NumberEnds(rest: Bytes, n: nat)
    requires |rest| == 0 || !IsDigit(rest[0])
    ensures Number(rest, n) == n
  {
  }

  lemma DigitIs(b: Byte)
    ensures IsDigit(b) ==> !IsSpace(b) && b != 45 && b != 43
  {
  }

  lemma {:induction false} SpacesAreSkipped(spaces: Bytes, s: Bytes)
    requires (forall i :: 0 <= i < |spaces| ==> IsSpace(spaces[i])) && (|s| == 0 || !IsSpace(s[0]))
    ensures SkipSpaces(spaces + s) == s
  {
    if |spaces| == 0 {
      assert spaces + s == s;
    } else {
      SpacesAreSkipped(spaces[1..], s);
      assert (spaces + s)[1..] == spaces[1..] + s;
    }
  }

  /** Behind three characters and white space, the digits of a number are that row, with a minus its negative, up
      to the ends of 32 bits. */
  lemma RowOfDigits(start: Bytes, spaces: Bytes, n: nat, rest: Bytes)
    requires |start| == 3 && (forall i :: 0 <= i < |spaces| ==> IsSpace(spaces[i])) && (|rest| == 0 || !IsDigit(rest[0]))
    ensures var before := start + spaces;
            && RowOf(before + (Decimal(n) + rest)) == (if n <= 0x7FFF_FFFF then Some(n) else None)
            && RowOf(before + ([43] + (Decimal(n) + rest))) == (if n <= 0x7FFF_FFFF then Some(n) else None)
            && RowOf(before + ([45] + (Decimal(n) + rest))) == (if n <= 0x8000_0000 then Some(-(n as int)) else None)
  {
    NumberOfDigits(n, rest);
    hide Decimal, Number, IsDigit, SkipSpaces;
    var digits := Decimal(n) + rest;
    NumberEnds(rest, n);
    DigitIs(digits[0]);
    SpacesAreSkipped(spaces, digits);
    SpacesAreSkipped(spaces, [43] + digits);
    SpacesAreSkipped(spaces, [45] + digits);
    assert (start + spaces + digits)[3..] == spaces + digits;
    assert (start + spaces + ([43] + digits))[3..] == spaces + ([43] + digits) && ([43] + digits)[1..] == digits;
    assert (start + spaces + ([45] + digits))[3..] == spaces + ([45] + digits) && ([45] + digits)[1..] == digits;
  }

  function RowLock(k: Key): LockDataId {
    Row(0, 0, if RowOf(k.text).Some? then RowOf(k.text).value else 0)
  }

  datatype Op = Get(result: Option<Value>) | Put(value: Value) | Del(found: bool)

  datatype Event = Event(txn: TxnId, key: Key, op: Op)

  datatype Outcome = Commit | Abort

  datatype Stage = Running | Undoing | Releasing(outcome: Outcome) | Ended(outcome: Outcome)

  /** A transaction at one node. */
  datatype Part = Part(view: TxnView, writes: seq<WriteRecord>, stage: Stage)

  datatype Phase = Working | Voting | OnePhase | SaidCommit | SaidAbort

  /** A transaction at its coordinator. */
  datatype Coord = Coord(nodes: set<NodeId>, distributed: bool, phase: Phase)

  datatype MessageKind = PrepareMsg | YesMsg | CommitMsg | AbortMsg

  datatype Message = Message(kind: MessageKind, node: NodeId, txn: TxnId)

  datatype LogKind = LogPrepared | LogCommit | LogAbort

  datatype LogEntry = LogEntry(node: NodeId, txn: TxnId, kind: LogKind)

  datatype State = State(
    tables: map<NodeId, LockTable>,
    parts: map<(NodeId, TxnId), Part>,
    coords: map<TxnId, Coord>,
    msgs: set<Message>,
    db: map<Key, Value>,
    log: seq<LogEntry>,
    history: seq<Event>,
    decisions: seq<TxnId>)

  function Initial(db: map<Key, Value>): State {
    State(map[], map[], map[], {}, db, [], [], [])
  }

  function TableAt(s: State, n: NodeId): LockTable {
    if n in s.tables then s.tables[n] else map[]
  }

  /** The mode in which `t` holds `id` at node `n`. */
  function HeldAt(s: State, n: NodeId, id: LockDataId, t: TxnId): Option<LockMode> {
    Held(TableAt(s, n), id, t)
  }

  function Look(db: map<Key, Value>, k: Key): Option<Value> {
    if k in db then Some(db[k]) else None
  }

  predicate RunningAt(s: State, n: NodeId, t: TxnId) {
    (n, t) in s.parts && s.parts[(n, t)].stage == Running
  }

  predicate InPhase(s: State, t: TxnId, p: Phase) {
    t in s.coords && s.coords[t].phase == p
  }

  datatype Request = DoGet | DoPut(value: Value) | DoDel

  datatype Action =
    | Begin(t: TxnId, nodes: set<NodeId>, distributed: bool)
    | Start(n: NodeId, t: TxnId)
    | LockItem(n: NodeId, t: TxnId, id: LockDataId, mode: LockMode)
    | Access(key: Key, t: TxnId, request: Request)
    | StartCommit(t: TxnId)
    | Prepare(n: NodeId, t: TxnId)
    | DecideCommit(t: TxnId)
    | DecideAbort(t: TxnId)
    | DeliverCommit(n: NodeId, t: TxnId)
    | DeliverAbort(n: NodeId, t: TxnId)
    | UndoOne(n: NodeId, t: TxnId)
    | FinishUndo(n: NodeId, t: TxnId)
    | UnlockItem(n: NodeId, t: TxnId, id: LockDataId)
    | Finish(n: NodeId, t: TxnId)

  /** A row is read or written only after LockRow has succeeded on it. */
  predicate LockAllows(held: Option<LockMode>, request: Request) {
    held == Some(Exclusive) || (held == Some(Shared) && request.DoGet?)
  }

  ghost predicate Enabled(s: State, a: Action) {
    match a
    case Begin(t, nodes, distributed) => t !in s.coords && nodes != {} && (!distributed ==> exists n :: nodes == {n})
    case Start(n, t) => t in s.coords && n in s.coords[t].nodes && (n, t) !in s.parts
    case LockItem(n, t, id, mode) => RunningAt(s, n, t) && InPhase(s, t, Working)
    case Access(key, t, request) =>
      && RunningAt(s, key.node, t) && InPhase(s, t, Working)
      && s.parts[(key.node, t)].view.state == Growing && RowOf(key.text).Some?
      && LockAllows(HeldAt(s, key.node, RowLock(key), t), request)
    case StartCommit(t) => InPhase(s, t, Working)
    case Prepare(n, t) => Message(PrepareMsg, n, t) in s.msgs && RunningAt(s, n, t)
    case DecideCommit(t) => InPhase(s, t, Voting) && forall n :: n in s.coords[t].nodes ==> Message(YesMsg, n, t) in s.msgs
    case DecideAbort(t) => t in s.coords && s.coords[t].phase in {Working, Voting, OnePhase}
    case DeliverCommit(n, t) => Message(CommitMsg, n, t) in s.msgs && RunningAt(s, n, t) && t in s.coords
    case DeliverAbort(n, t) => Message(AbortMsg, n, t) in s.msgs && RunningAt(s, n, t)
    case UndoOne(n, t) => (n, t) in s.parts && s.parts[(n, t)].stage == Undoing && s.parts[(n, t)].writes != []
    case FinishUndo(n, t) => (n, t) in s.parts && s.parts[(n, t)].stage == Undoing && s.parts[(n, t)].writes == []
    case UnlockItem(n, t, id) =>
      && (n, t) in s.parts && s.parts[(n, t)].stage.Releasing?
      && exists k :: id in SetOf(s.parts[(n, t)].view.sets, k)
    case Finish(n, t) =>
      && (n, t) in s.parts && s.parts[(n, t)].stage.Releasing?
      && forall k :: SetOf(s.parts[(n, t)].view.sets, k) == {}
  }

  function SetPart(s: State, n: NodeId, t: TxnId, p: Part): State {
    s.(parts := s.parts[(n, t) := p])
  }

  function SetPhase(s: State, t: TxnId, p: Phase): State
    requires t in s.coords
  {
    s.(coords := s.coords[t := s.coords[t].(phase := p)])
  }

  /** KVStore::get, put and del: the new write set and store, and what the caller sees. */
  function AccessEffect(db: map<Key, Value>, writes: seq<WriteRecord>, key: Key, request: Request)
    : (seq<WriteRecord>, map<Key, Value>, Op)
  {
    match request
    case DoGet => (writes, db, Get(Look(db, key)))
    case DoPut(v) => (writes + [InsertTuple(key)], db[key := v], Put(v))
    case DoDel =>
      if key in db then (writes + [DeleteTuple(key, db[key])], db - {key}, Del(true)) else (writes, db, Del(false))
  }

  /** AbortSingle on one write record. */
  function UndoEffect(db: map<Key, Value>, r: WriteRecord): map<Key, Value> {
    match r
    case InsertTuple(key) => db - {key}
    case DeleteTuple(key, value) => db[key := value]
  }

  function Broadcast(kind: MessageKind, nodes: set<NodeId>, t: TxnId): set<Message> {
    set n | n in nodes :: Message(kind, n, t)
  }

  ghost function Next(s: State, a: Action): State
    requires Enabled(s, a)
  {
    match a
    case Begin(t, nodes, distributed) => s.(coords := s.coords[t := Coord(nodes, distributed, Working)])
    case Start(n, t) => SetPart(s, n, t, Part(TxnView(Default, map[]), [], Running))
    case LockItem(n, t, id, mode) =>
      var (table, view, _) := LockOn(TableAt(s, n), s.parts[(n, t)].view, t, id, mode);
      SetPart(s, n, t, s.parts[(n, t)].(view := view)).(tables := s.tables[n := table])
    case Access(key, t, request) =>
      var p := s.parts[(key.node, t)];
      var (writes, db, op) := AccessEffect(s.db, p.writes, key, request);
      SetPart(s, key.node, t, p.(writes := writes)).(db := db, history := s.history + [Event(t, key, op)])
    case StartCommit(t) =>
      if s.coords[t].distributed then
        SetPhase(s, t, Voting).(msgs := s.msgs + Broadcast(PrepareMsg, s.coords[t].nodes, t))
      else
        SetPhase(s, t, OnePhase).(msgs := s.msgs + Broadcast(CommitMsg, s.coords[t].nodes, t))
    case Prepare(n, t) =>
      var p := s.parts[(n, t)];
      if p.view.state == Aborted then s
      else if p.view.state == Prepared then s.(msgs := s.msgs + {Message(YesMsg, n, t)})
      else SetPart(s, n, t, p.(view := p.view.(state := Prepared)))
             .(msgs := s.msgs + {Message(YesMsg, n, t)}, log := s.log + [LogEntry(n, t, LogPrepared)])
    case DecideCommit(t) =>
      SetPhase(s, t, SaidCommit)
        .(msgs := s.msgs + Broadcast(CommitMsg, s.coords[t].nodes, t), decisions := s.decisions + [t])
    case DecideAbort(t) =>
      SetPhase(s, t, SaidAbort).(msgs := s.msgs + Broadcast(AbortMsg, s.coords[t].nodes, t))
    case DeliverCommit(n, t) =>
      var p := s.parts[(n, t)];
      if p.view.state == Aborted then s
      else SetPart(s, n, t, p.(stage := Releasing(Commit)))
             .(log := s.log + [LogEntry(n, t, LogCommit)],
               decisions := if s.coords[t].distributed then s.decisions else s.decisions + [t])
    case DeliverAbort(n, t) => SetPart(s, n, t, s.parts[(n, t)].(stage := Undoing))
    case UndoOne(n, t) =>
      var p := s.parts[(n, t)];
      var last := |p.writes| - 1;
      SetPart(s, n, t, p.(writes := p.writes[..last])).(db := UndoEffect(s.db, p.writes[last]))
    case FinishUndo(n, t) =>
      SetPart(s, n, t, s.parts[(n, t)].(stage := Releasing(Abort))).(log := s.log + [LogEntry(n, t, LogAbort)])
    case UnlockItem(n, t, id) =>
      var (table, view) := UnlockOn(TableAt(s, n), s.parts[(n, t)].view, t, id);
      SetPart(s, n, t, s.parts[(n, t)].(view := view)).(tables := s.tables[n := table])
    case Finish(n, t) =>
      var p := s.parts[(n, t)];
      SetPart(s, n, t, p.(stage := Ended(p.stage.outcome),
                          view := if p.stage.outcome == Commit then p.view.(state := Committed) else p.view))
  }

  /** A run from an initial store: every action is enabled when it happens. */
  ghost predicate IsRun(db: map<Key, Value>, states: seq<State>, actions: seq<Action>) {
    && |states| == |actions| + 1
    && states[0] == Initial(db)
    && forall i :: 0 <= i < |actions| ==> Enabled(states[i], actions[i]) && states[i + 1] == Next(states[i], actions[i])
  }
}
