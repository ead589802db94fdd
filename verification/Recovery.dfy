/** What redo and undo make of a log, as a function of its records, and when that is right. */
module Recoveries {
  import opened Common
  import opened SortedEntries
  import opened LogChain
  import opened LogRecords
  import opened LogManagers

  type Store = map<Bytes, Bytes>

  function At(s: Store, k: Bytes): Option<Bytes> {
    if k in s then Some(s[k]) else None
  }

  function Redone(s: Store, op: Op): Store {
    match op
    case Insert(k, v) => s[k := v]
    case Delete(k, _) => s - {k}
    case _ => s
  }

  /** The store that the records build from nothing. */
  function Replay(rs: seq<LogRecord>): Store {
    if |rs| == 0 then map[] else Redone(Replay(rs[..|rs| - 1]), rs[|rs| - 1].op)
  }

  /** The transactions that the log leaves open, with their last record. */
  function Active(rs: seq<LogRecord>): map<nat, int> {
    if |rs| == 0 then map[] else
      var (before, r) := (Active(rs[..|rs| - 1]), rs[|rs| - 1]);
      if r.op.Commit? || r.op.Abort? then before - {r.txn} else before[r.txn := r.lsn]
  }

  function Losers(rs: seq<LogRecord>): set<nat> {
    Active(rs).Keys
  }

  /** The log without the records of the given transactions. */
  function Without(rs: seq<LogRecord>, ts: set<nat>): seq<LogRecord> {
    if |rs| == 0 then [] else
      Without(rs[..|rs| - 1], ts) + if rs[|rs| - 1].txn in ts then [] else [rs[|rs| - 1]]
  }

  /** What undoing one record does to the store. An undone delete writes the key in place of its value. */
  function UndoOne(s: Store, op: Op): Store {
    match op
    case Insert(k, _) => s - {k}
    case Delete(k, _) => s[k := k]
    case _ => s
  }

  /** The store once the records at the positions `us` have been undone, the last first, down to position `lo`. */
  function Undone(rs: seq<LogRecord>, us: set<nat>, lo: nat, s: Store): Store
    requires lo <= |rs|
    decreases |rs| - lo
  {
    if lo == |rs| then s else
      var later := Undone(rs, us, lo + 1, s);
      if lo in us then UndoOne(later, rs[lo].op) else later
  }

  // ---- what the walk reaches --------------------------------------------------------------------------

  /** What redo knows of the open transactions: the last record that it has read as one of theirs. A PREPARED
      record is read as one of the invalid transaction. */
  function Tracked(rs: seq<LogRecord>): map<nat, int> {
    if |rs| == 0 then map[] else
      var (before, r) := (Tracked(rs[..|rs| - 1]), AsRead(rs[|rs| - 1]));
      if r.op.Commit? || r.op.Abort? then before - {r.txn} else before[r.txn := r.lsn]
  }

  /** Does a walk from record `j` to record `i` stay on the chain? At a record of a type that the reader does not
      know the chain ends. */
  predicate Reaches(rs: seq<LogRecord>, j: int, i: nat): (b: bool)
    ensures b ==> i <= j < |rs|
    decreases j
  {
    && 0 <= j < |rs|
    && (i == j || (IsKnown(rs[j].op) && 0 <= rs[j].prev < j && Reaches(rs, rs[j].prev, i)))
  }

  ghost predicate IsReached(rs: seq<LogRecord>, i: nat) {
    exists t :: t in Tracked(rs) && Reaches(rs, Tracked(rs)[t], i)
  }

  /** The records that undo comes to. */
  ghost function Reached(rs: seq<LogRecord>): set<nat> {
    set i: nat | i < |rs| && IsReached(rs, i)
  }

  /** The records of the transactions that the log leaves open. */
  function LoserRecords(rs: seq<LogRecord>): set<nat> {
    set i: nat | i < |rs| && rs[i].txn in Losers(rs)
  }

  ghost function Recovered(rs: seq<LogRecord>): Store {
    Undone(rs, Reached(rs), 0, Replay(rs))
  }

  /** Each record is numbered by its position, and points back at a record of its transaction, or at one that
      the reader does not know. */
  ghost predicate WellLinked(rs: seq<LogRecord>) {
    && Numbered(rs)
    && forall i {:trigger rs[i]} :: 0 <= i < |rs| && rs[i].prev != INVALID_LSN ==>
         0 <= rs[i].prev < i && (rs[rs[i].prev].txn == rs[i].txn || !IsKnown(rs[rs[i].prev].op))
  }

  /** The tracked record of a transaction is one that was read as its own. */
  lemma {:induction false} TrackedIs(rs: seq<LogRecord>, t: nat)
    requires Numbered(rs) && t in Tracked(rs)
    ensures 0 <= Tracked(rs)[t] < |rs| && AsRead(rs[Tracked(rs)[t]]).txn == t
  {
    var init := rs[..|rs| - 1];
    if t in Tracked(init) { TrackedIs(init, t); }
  }

  lemma {:induction false} ReachesOn(rs: seq<LogRecord>, j: int, m: nat)
    requires Reaches(rs, j, m) && IsKnown(rs[m].op) && 0 <= rs[m].prev < m
    ensures Reaches(rs, j, rs[m].prev)
    decreases j
  {
    if m != j { ReachesOn(rs, rs[j].prev, m); }
  }

  /** A walk stays with its transaction until it meets a record that the reader does not know. */
  lemma {:induction false} ReachesOwn(rs: seq<LogRecord>, j: int, i: nat)
    requires WellLinked(rs) && Reaches(rs, j, i) && IsKnown(rs[i].op)
    ensures IsKnown(rs[j].op) && rs[i].txn == rs[j].txn
    decreases j
  {
    if i != j { ReachesOwn(rs, rs[j].prev, i); }
  }

  /** Undo knows the transaction of every record that it takes back. */
  lemma ReachedIsTracked(rs: seq<LogRecord>, i: nat)
    requires WellLinked(rs) && i in Reached(rs) && IsKnown(rs[i].op)
    ensures rs[i].txn in Tracked(rs)
  {
    hide Tracked, Reaches;
    var t :| t in Tracked(rs) && Reaches(rs, Tracked(rs)[t], i);
    TrackedIs(rs, t);
    ReachesOwn(rs, Tracked(rs)[t], i);
  }

  /** Undo takes back only records of open transactions. */
  lemma {:induction false} TrackedIsOpen(rs: seq<LogRecord>, t: nat)
    requires Numbered(rs) && t in Tracked(rs)
    ensures 0 <= Tracked(rs)[t] < |rs| && (IsKnown(rs[Tracked(rs)[t]].op) ==> t in Losers(rs))
  {
    TrackedIs(rs, t);
    var (init, r) := (rs[..|rs| - 1], rs[|rs| - 1]);
    if t in Tracked(init) && Tracked(init)[t] == Tracked(rs)[t] {
      TrackedIsOpen(init, t);
    }
  }

  lemma ReachedIsOpen(rs: seq<LogRecord>, i: nat)
    requires WellLinked(rs) && i in Reached(rs) && IsKnown(rs[i].op)
    ensures i in LoserRecords(rs)
  {
    hide Tracked, Reaches, Active;
    var t :| t in Tracked(rs) && Reaches(rs, Tracked(rs)[t], i);
    TrackedIsOpen(rs, t);
    ReachesOwn(rs, Tracked(rs)[t], i);
    TrackedIs(rs, t);
  }

  // ---- key by key -----------------------------------------------------------------------------------

  predicate Touches(r: LogRecord, k: Bytes) {
    (r.op.Insert? || r.op.Delete?) && r.op.key == k
  }

  /** The first of the records `us`, from `lo` on, that writes the key. */
  function FirstTouch(rs: seq<LogRecord>, us: set<nat>, k: Bytes, lo: nat): (i: nat)
    requires lo <= |rs|
    ensures lo <= i <= |rs|
    ensures i < |rs| ==> i in us && Touches(rs[i], k)
    ensures forall j :: lo <= j < i ==> !(j in us && Touches(rs[j], k))
    decreases |rs| - lo
  {
    if lo == |rs| || (lo in us && Touches(rs[lo], k)) then lo else FirstTouch(rs, us, k, lo + 1)
  }

  lemma FirstTouchIs(rs: seq<LogRecord>, us: set<nat>, k: Bytes, f: nat)
    requires f <= |rs| && (f < |rs| ==> f in us && Touches(rs[f], k))
    requires forall j :: 0 <= j < f ==> !(j in us && Touches(rs[j], k))
    ensures FirstTouch(rs, us, k, 0) == f
  {
    hide FirstTouch;
  }

  function UndoneValue(op: Op): Option<Bytes> {
    if op.Delete? then Some(op.key) else None
  }

  lemma {:induction false} UndoneAt(rs: seq<LogRecord>, us: set<nat>, lo: nat, s: Store, k: Bytes)
    requires lo <= |rs|
    ensures At(Undone(rs, us, lo, s), k) ==
            var i := FirstTouch(rs, us, k, lo); if i < |rs| then UndoneValue(rs[i].op) else At(s, k)
    decreases |rs| - lo
  {
    if lo < |rs| { UndoneAt(rs, us, lo + 1, s, k); }
  }

  /** Leaving out transactions that do not write a key does not change its value. */
  lemma {:induction false} WithoutOthers(rs: seq<LogRecord>, ts: set<nat>, k: Bytes)
    requires forall i :: 0 <= i < |rs| && rs[i].txn in ts ==> !Touches(rs[i], k)
    ensures At(Replay(Without(rs, ts)), k) == At(Replay(rs), k)
  {
    if |rs| > 0 {
      var (init, r) := (rs[..|rs| - 1], rs[|rs| - 1]);
      WithoutOthers(init, ts, k);
      if r.txn in ts {
        assert Without(init, ts) + [] == Without(init, ts);
      } else {
        assert (Without(init, ts) + [r])[..|Without(init, ts)|] == Without(init, ts);
      }
    }
  }

  lemma SameStore(a: Store, b: Store)
    requires forall k :: At(a, k) == At(b, k)
    ensures a == b
  {
    forall k
      ensures k in a <==> k in b
      ensures k in a && k in b ==> a[k] == b[k]
    {
      assert At(a, k) == At(b, k);
    }
  }

  /** What recovery leaves under a key: the undone value of the first record on it that the walk reaches; or,
      when the walk reaches none, what the log has built. */
  ghost function Left(rs: seq<LogRecord>, k: Bytes): Option<Bytes> {
    var f := FirstTouch(rs, Reached(rs), k, 0);
    if f < |rs| then UndoneValue(rs[f].op) else At(Replay(rs), k)
  }

  lemma RecoveredAt(rs: seq<LogRecord>, k: Bytes)
    ensures At(Recovered(rs), k) == Left(rs, k)
  {
    hide Replay, Undone, Reached;
    UndoneAt(rs, Reached(rs), 0, Replay(rs), k);
  }

  /** A key that no open transaction has written is left as the log has built it. */
  lemma UntouchedIsLeft(rs: seq<LogRecord>, k: Bytes)
    requires WellLinked(rs) && FirstTouch(rs, LoserRecords(rs), k, 0) == |rs|
    ensures Left(rs, k) == At(Replay(rs), k) == At(Replay(Without(rs, Losers(rs))), k)
  {
    hide Replay, Without, Active, Reached, FirstTouch;
    var f := FirstTouch(rs, Reached(rs), k, 0);
    if f < |rs| { ReachedIsOpen(rs, f); }
    assert forall i :: 0 <= i < |rs| && rs[i].txn in Losers(rs) ==> i in LoserRecords(rs);
    WithoutOthers(rs, Losers(rs), k);
  }

  /** Nobody else writes a key after a loser has written it: the loser still holds its lock. */
  ghost predicate LockedToTheEnd(rs: seq<LogRecord>, ts: set<nat>) {
    forall i, j :: 0 <= i < j < |rs| && rs[i].txn in ts && (rs[i].op.Insert? || rs[i].op.Delete?) && Touches(rs[j], rs[i].op.key) ==>
                     rs[j].txn == rs[i].txn
  }

  lemma {:induction false} NobodyElse(rs: seq<LogRecord>, ts: set<nat>, k: Bytes, lo: nat)
    requires lo <= |rs| && forall j :: lo <= j < |rs| && Touches(rs[j], k) ==> rs[j].txn in ts
    ensures At(Replay(Without(rs, ts)), k) == At(Replay(Without(rs[..lo], ts)), k)
  {
    if lo == |rs| {
      assert rs[..lo] == rs;
    } else {
      var (init, r) := (rs[..|rs| - 1], rs[|rs| - 1]);
      NobodyElse(init, ts, k, lo);
      assert init[..lo] == rs[..lo];
      if r.txn in ts {
        assert Without(init, ts) + [] == Without(init, ts);
      } else {
        assert (Without(init, ts) + [r])[..|Without(init, ts)|] == Without(init, ts);
      }
    }
  }

  /** Does recovery leave under the key what a loser met at its first write of it? */
  ghost predicate SafeKey(rs: seq<LogRecord>, k: Bytes) {
    var w := FirstTouch(rs, LoserRecords(rs), k, 0);
    w < |rs| ==> At(Replay(rs[..w]), k) == Left(rs, k)
  }

  /** When a loser first writes the key, does it insert where nothing is, or delete a value that is the key
      itself? A writer can tell before the write. */
  predicate SafeFirstWrite(rs: seq<LogRecord>, k: Bytes) {
    var w := FirstTouch(rs, LoserRecords(rs), k, 0);
    w < |rs| ==> At(Replay(rs[..w]), k) == UndoneValue(rs[w].op)
  }

  /** Without the losers, the log leaves what a loser met at its first write. */
  lemma MetAtFirstWrite(rs: seq<LogRecord>, k: Bytes)
    requires LockedToTheEnd(rs, Losers(rs)) && FirstTouch(rs, LoserRecords(rs), k, 0) < |rs|
    ensures At(Replay(Without(rs, Losers(rs))), k) == At(Replay(rs[..FirstTouch(rs, LoserRecords(rs), k, 0)]), k)
  {
    hide Replay, Without, Active, FirstTouch;
    var (ts, f) := (Losers(rs), FirstTouch(rs, LoserRecords(rs), k, 0));
    NobodyElse(rs, ts, k, f);
    assert forall i :: 0 <= i < f && rs[i].txn in ts ==> i in LoserRecords(rs);
    WithoutOthers(rs[..f], ts, k);
  }

  /** The log of a strict two-phase run is recovered exactly, to what it builds without the losers, if and only
      if every key is left as its first loser met it. */
  lemma RecoveryIsExactIff(rs: seq<LogRecord>)
    requires WellLinked(rs) && LockedToTheEnd(rs, Losers(rs))
    ensures Recovered(rs) == Replay(Without(rs, Losers(rs))) <==> forall k :: SafeKey(rs, k)
  {
    hide Replay, Without, Undone, Active, Recovered, LockedToTheEnd, WellLinked, Left;
    var wanted := Replay(Without(rs, Losers(rs)));
    forall k
      ensures At(Recovered(rs), k) == At(wanted, k) <==> SafeKey(rs, k)
    {
      RecoveredAt(rs, k);
      if FirstTouch(rs, LoserRecords(rs), k, 0) < |rs| { MetAtFirstWrite(rs, k); } else { UntouchedIsLeft(rs, k); }
    }
    if forall k :: SafeKey(rs, k) {
      SameStore(Recovered(rs), wanted);
    }
  }

  // ---- when the walk reaches every record of a transaction --------------------------------------------

  ghost predicate WellFormed(rs: seq<LogRecord>) {
    Numbered(rs) && WellChained(Links(rs))
  }

  lemma ChainsAreLinks(rs: seq<LogRecord>)
    requires WellFormed(rs)
    ensures WellLinked(rs)
  {
    hide LastOf;
    forall i | 0 <= i < |rs| && rs[i].prev != INVALID_LSN
      ensures 0 <= rs[i].prev < i && rs[rs[i].prev].txn == rs[i].txn
    {
      assert Links(rs)[i].prev == LastOf(Links(rs)[..i], rs[i].txn);
      assert Links(rs)[..i][rs[i].prev].txn == rs[i].txn;
    }
  }

  /** A PREPARED record of the transaction of record `i` comes behind it, and before a record of that transaction
      of a type that the reader knows. */
  ghost predicate CutOff(rs: seq<LogRecord>, i: nat)
    requires i < |rs|
  {
    exists p, m :: i < p < m < |rs| && rs[p].txn == rs[m].txn == rs[i].txn && !IsKnown(rs[p].op) && IsKnown(rs[m].op)
  }

  /** On the chain from record `j` back to record `i` of the same transaction nothing is in the way but a record that
      the reader does not know. */
  lemma {:induction false} ReachesIff(rs: seq<LogRecord>, j: nat, i: nat)
    requires WellFormed(rs) && i <= j < |rs| && rs[j].txn == rs[i].txn && IsKnown(rs[i].op) && IsKnown(rs[j].op)
    ensures Reaches(rs, j, i) <==> forall p :: i < p < j && rs[p].txn == rs[i].txn ==> IsKnown(rs[p].op)
    decreases j
  {
    hide LastOf;
    if i < j {
      var (links, t) := (Links(rs), rs[i].txn);
      var prev := rs[j].prev;
      assert links[j].prev == LastOf(links[..j], t);
      assert links[..j][i].txn == t;
      assert i <= prev < j;
      assert links[..j][prev].txn == t;
      assert forall p :: prev < p < j ==> links[..j][p].txn == rs[p].txn;
      if IsKnown(rs[prev].op) {
        ReachesIff(rs, prev, i);
      }
    }
  }

  /** The last record of `t` of a type that the reader knows. */
  function LastKnown(rs: seq<LogRecord>, t: nat): (j: int)
    ensures -1 <= j < |rs| && (j >= 0 ==> rs[j].txn == t && IsKnown(rs[j].op))
    ensures forall i :: j < i < |rs| && rs[i].txn == t ==> !IsKnown(rs[i].op)
  {
    if |rs| == 0 then -1
    else if rs[|rs| - 1].txn == t && IsKnown(rs[|rs| - 1].op) then |rs| - 1
    else LastKnown(rs[..|rs| - 1], t)
  }

  ghost predicate AllKnown(rs: seq<LogRecord>) {
    forall i :: 0 <= i < |rs| ==> IsKnown(rs[i].op)
  }

  /** Is no record of another transaction read as one of `t`? */
  ghost predicate Unmixed(rs: seq<LogRecord>, t: nat) {
    t != INVALID_TXN || AllKnown(rs)
  }

  lemma {:induction false} TrackedIff(rs: seq<LogRecord>, t: nat)
    requires Numbered(rs) && Unmixed(rs, t)
    ensures var j := LastKnown(rs, t);
            && (t in Tracked(rs) <==> j >= 0 && !rs[j].op.Commit? && !rs[j].op.Abort?)
            && (t in Tracked(rs) ==> Tracked(rs)[t] == j)
  {
    if |rs| > 0 { TrackedIff(rs[..|rs| - 1], t); }
  }

  lemma OtherStarts(rs: seq<LogRecord>, u: nat, i: nat)
    requires WellLinked(rs) && u in Tracked(rs) && Reaches(rs, Tracked(rs)[u], i) && IsKnown(rs[i].op)
    ensures rs[i].txn == u
  {
    hide Tracked, Reaches;
    TrackedIs(rs, u);
    ReachesOwn(rs, Tracked(rs)[u], i);
  }

  /** What undo comes to, exactly: the records of each open transaction behind its last PREPARED record, if it has
      any there, and otherwise all of them. */
  lemma {:induction false} ReachedIff(rs: seq<LogRecord>, i: nat)
    requires WellFormed(rs) && i < |rs| && IsKnown(rs[i].op) && Unmixed(rs, rs[i].txn)
    ensures i in Reached(rs) <==> rs[i].txn in Tracked(rs) && !CutOff(rs, i)
  {
    hide Tracked, Reaches, WellFormed, LastKnown;
    var t := rs[i].txn;
    ChainsAreLinks(rs);
    TrackedIff(rs, t);
    forall u | u in Tracked(rs) && Reaches(rs, Tracked(rs)[u], i)
      ensures u == t
    {
      OtherStarts(rs, u, i);
    }
    if t in Tracked(rs) {
      var j := LastKnown(rs, t);
      ReachesIff(rs, j, i);
    }
  }

  /** Has the transaction logged a write behind a PREPARED record; or, if it is the invalid one, has anybody
      logged a PREPARED record? */
  ghost predicate StopsShort(rs: seq<LogRecord>, t: nat) {
    || !Unmixed(rs, t)
    || exists p, m :: 0 <= p < m < |rs| && rs[p].txn == rs[m].txn == t && !IsKnown(rs[p].op) && (rs[m].op.Insert? || rs[m].op.Delete?)
  }

  /** Unless the walk stops short, recovery takes back the first write of a loser to a key. */
  lemma FirstWriteIsLeft(rs: seq<LogRecord>, k: Bytes)
    requires WellFormed(rs)
    requires var w := FirstTouch(rs, LoserRecords(rs), k, 0);
             w < |rs| && rs[w].txn in Tracked(rs) && Unmixed(rs, rs[w].txn) && !CutOff(rs, w)
    ensures Left(rs, k) == UndoneValue(rs[FirstTouch(rs, LoserRecords(rs), k, 0)].op)
  {
    hide Tracked, Reached, Active, Replay, WellFormed, FirstTouch, CutOff;
    var w := FirstTouch(rs, LoserRecords(rs), k, 0);
    ReachedIff(rs, w);
    ChainsAreLinks(rs);
    forall j: nat | j < w && j in Reached(rs)
      ensures !Touches(rs[j], k)
    {
      if Touches(rs[j], k) { ReachedIsOpen(rs, j); }
    }
    FirstTouchIs(rs, Reached(rs), k, w);
  }

  // ---- insert-only losers ---------------------------------------------------------------------------

  ghost predicate InsertOnly(rs: seq<LogRecord>, us: set<nat>) {
    forall i :: 0 <= i < |rs| && i in us ==> !rs[i].op.Delete?
  }

  ghost predicate Wrote(rs: seq<LogRecord>, us: set<nat>, k: Bytes) {
    exists i :: 0 <= i < |rs| && i in us && Touches(rs[i], k)
  }

  /** When the walk reaches no delete, the recovered store is the redone one without the keys that it reaches. */
  lemma InsertOnlyRecovery(rs: seq<LogRecord>, k: Bytes)
    requires InsertOnly(rs, Reached(rs))
    ensures At(Recovered(rs), k) == if Wrote(rs, Reached(rs), k) then None else At(Replay(rs), k)
  {
    hide Replay, Undone, Reached;
    RecoveredAt(rs, k);
  }

  lemma Snoc(rs: seq<LogRecord>, r: LogRecord)
    ensures Replay(rs + [r]) == Redone(Replay(rs), r.op)
    ensures Active(rs + [r]) == if r.op.Commit? || r.op.Abort? then Active(rs) - {r.txn} else Active(rs)[r.txn := r.lsn]
    ensures var q := AsRead(r);
            Tracked(rs + [r]) == if q.op.Commit? || q.op.Abort? then Tracked(rs) - {q.txn} else Tracked(rs)[q.txn := q.lsn]
    ensures Links(rs + [r]) == Links(rs) + [Link(r.txn, r.prev)]
    ensures forall ts :: Without(rs + [r], ts) == Without(rs, ts) + if r.txn in ts then [] else [r]
  {
    assert (rs + [r])[..|rs|] == rs;
  }

  lemma EmptyLog()
    ensures Replay([]) == map[] && Active([]) == map[] && Tracked([]) == map[]
  {
  }

  /** A committed value, and an open transaction that writes its key. */
  function ThreeRecords(k: Bytes, v: Bytes, op: Op): seq<LogRecord> {
    [LogRecord(0, 1, -1, Insert(k, v)), LogRecord(1, 1, 0, Commit), LogRecord(2, 2, -1, op)]
  }

  lemma OneIsOpen(k: Bytes, v: Bytes, op: Op)
    requires op.Insert? || op.Delete?
    ensures var rs := ThreeRecords(k, v, op);
            && Active(rs) == map[2 := 2] && Tracked(rs) == map[2 := 2]
            && Without(rs, {2}) == Without(rs[..2], {2}) && At(Replay(rs[..2]), k) == Some(v)
  {
    hide Replay, Active, Tracked, Without;
    var (x, y, z) := (LogRecord(0, 1, -1, Insert(k, v)), LogRecord(1, 1, 0, Commit), LogRecord(2, 2, -1, op));
    assert [] + [x] == [x] && [x] + [y] == [x, y] && [x, y] + [z] == [x, y, z] && ThreeRecords(k, v, op)[..2] == [x, y];
    EmptyLog();
    Snoc([], x);
    Snoc([x], y);
    Snoc([x, y], z);
    assert Without([x, y], {2}) + [] == Without([x, y], {2});
  }

  lemma OneIsReached(k: Bytes, v: Bytes, op: Op)
    requires op.Insert? || op.Delete?
    ensures var rs := ThreeRecords(k, v, op); Reached(rs) == {2} && WellLinked(rs)
  {
    hide Replay, Active, Tracked, Without;
    OneIsOpen(k, v, op);
    var rs := ThreeRecords(k, v, op);
    assert Reaches(rs, Tracked(rs)[2], 2);
  }

  /** A committed value that a loser overwrites or deletes is lost: undoing the insert takes the key away,
      undoing the delete puts the key itself in place of the value. */
  lemma LostValueExample(k: Bytes, v: Bytes, op: Op)
    requires (op.Insert? || op.Delete?) && op.key == k
    ensures var rs := ThreeRecords(k, v, op);
            && At(Recovered(rs), k) == UndoneValue(op)
            && At(Replay(Without(rs, Losers(rs))), k) == Some(v)
  {
    hide Replay, Tracked, Active, Without, Undone, FirstTouch, Reached;
    var rs := ThreeRecords(k, v, op);
    OneIsOpen(k, v, op);
    OneIsReached(k, v, op);
    RecoveredAt(rs, k);
    FirstTouchIs(rs, Reached(rs), k, 2);
    WithoutOthers(rs[..2], {2}, k);
    assert Losers(rs) == {2};
  }

  // ---- the log that recovery extends ----------------------------------------------------------------

  function Compensation(op: Op): Op
    requires op.Insert? || op.Delete?
  {
    if op.Insert? then Delete(op.key, op.value) else Insert(op.key, op.value)
  }

  /** The number that undo gives as the previous one of the next record of `t`. */
  function LastTracked(rs: seq<LogRecord>, t: nat): int {
    if t in Tracked(rs) then Tracked(rs)[t] else 0
  }

  /** The log once the records `us` down to position `lo` have been undone: one compensation each, chained to
      what redo and undo know as the last record of its transaction. */
  function Extended(rs: seq<LogRecord>, us: set<nat>, lo: nat): seq<LogRecord>
    requires lo <= |rs|
    decreases |rs| - lo
  {
    if lo == |rs| then rs else
      var (e, r) := (Extended(rs, us, lo + 1), rs[lo]);
      if lo in us && (r.op.Insert? || r.op.Delete?) then
        e + [LogRecord(|e|, r.txn, LastTracked(e, r.txn), Compensation(r.op))]
      else e
  }

  /** The log once each tracked transaction has its abort record. */
  function Closed(e: seq<LogRecord>, order: seq<nat>): seq<LogRecord> {
    if |order| == 0 then e else
      var (before, t) := (Closed(e, order[..|order| - 1]), order[|order| - 1]);
      before + [LogRecord(|before|, t, LastTracked(e, t), Abort)]
  }

  ghost predicate IsOrderOf(order: seq<nat>, ts: set<nat>) {
    && (forall t :: t in ts <==> t in order)
    && (forall i, j :: 0 <= i < j < |order| ==> order[i] != order[j])
  }

  lemma WellFormedSnoc(rs: seq<LogRecord>, r: LogRecord)
    requires WellFormed(rs) && r.lsn == |rs| && r.prev == LastOf(Links(rs), r.txn)
    ensures WellFormed(rs + [r])
    ensures forall t :: LastOf(Links(rs + [r]), t) == if t == r.txn then |rs| else LastOf(Links(rs), t)
  {
    Snoc(rs, r);
    AppendKeepsChain(Links(rs), Link(r.txn, r.prev));
  }

  /** A record that points at what is tracked of its transaction keeps the log linked. */
  lemma LinkedSnoc(rs: seq<LogRecord>, r: LogRecord)
    requires WellLinked(rs) && r.lsn == |rs|
    requires r.txn in Tracked(rs) && r.prev == Tracked(rs)[r.txn]
    ensures WellLinked(rs + [r])
  {
    hide Tracked;
    TrackedIs(rs, r.txn);
    assert forall i :: 0 <= i < |rs| ==> (rs + [r])[i] == rs[i];
  }

  /** Compensations keep the log linked, and close nobody. */
  lemma {:induction false} ExtendedIsLinked(rs: seq<LogRecord>, lo: nat)
    requires WellLinked(rs) && lo <= |rs|
    ensures var e := Extended(rs, Reached(rs), lo);
            WellLinked(e) && Tracked(e).Keys == Tracked(rs).Keys && rs <= e
    decreases |rs| - lo
  {
    hide WellLinked, Tracked, Reached;
    if lo < |rs| {
      ExtendedIsLinked(rs, lo + 1);
      var (e, r) := (Extended(rs, Reached(rs), lo + 1), rs[lo]);
      if lo in Reached(rs) && (r.op.Insert? || r.op.Delete?) {
        ReachedIsTracked(rs, lo);
        var c := LogRecord(|e|, r.txn, LastTracked(e, r.txn), Compensation(r.op));
        LinkedSnoc(e, c);
        Snoc(e, c);
      }
    }
  }

  /** Abort records keep it linked, and close everybody. */
  lemma {:induction false} ClosedIsLinked(e: seq<LogRecord>, order: seq<nat>)
    requires WellLinked(e) && forall i, j :: 0 <= i < j < |order| ==> order[i] != order[j]
    requires forall t :: t in order ==> t in Tracked(e)
    ensures WellLinked(Closed(e, order)) && Tracked(Closed(e, order)) == Tracked(e) - (set t | t in order)
    ensures Replay(Closed(e, order)) == Replay(e) && e <= Closed(e, order)
  {
    hide WellLinked, Tracked, Replay;
    if |order| > 0 {
      var (init, t) := (order[..|order| - 1], order[|order| - 1]);
      ClosedIsLinked(e, init);
      var before := Closed(e, init);
      var a := LogRecord(|before|, t, LastTracked(e, t), Abort);
      assert order == init + [t];
      assert t !in init;
      LinkedSnoc(before, a);
      Snoc(before, a);
    }
  }

  /** Where every record is known, redo and undo know the last record of each open transaction. */
  lemma {:induction false} TrackedIsLast(rs: seq<LogRecord>)
    requires Numbered(rs) && AllKnown(rs)
    ensures forall t :: t in Tracked(rs) ==> Tracked(rs)[t] == LastOf(Links(rs), t)
  {
    if |rs| > 0 {
      var (init, r) := (rs[..|rs| - 1], rs[|rs| - 1]);
      TrackedIsLast(init);
      assert rs == init + [r];
      LinksSnoc(init, r);
    }
  }

  lemma LastTrackedIsLast(e: seq<LogRecord>, t: nat)
    requires WellFormed(e) && AllKnown(e) && t in Tracked(e)
    ensures LastTracked(e, t) == LastOf(Links(e), t)
  {
    hide Tracked;
    TrackedIsLast(e);
  }

  /** There, compensations keep every chain whole. */
  lemma {:induction false} ExtendedIsWellFormed(rs: seq<LogRecord>, lo: nat)
    requires WellFormed(rs) && AllKnown(rs) && lo <= |rs|
    ensures var e := Extended(rs, Reached(rs), lo); WellFormed(e) && AllKnown(e)
    decreases |rs| - lo
  {
    hide WellFormed, Tracked, Reached;
    if lo < |rs| {
      ExtendedIsWellFormed(rs, lo + 1);
      var (e, r) := (Extended(rs, Reached(rs), lo + 1), rs[lo]);
      if lo in Reached(rs) && (r.op.Insert? || r.op.Delete?) {
        ChainsAreLinks(rs);
        ReachedIsTracked(rs, lo);
        ExtendedIsLinked(rs, lo + 1);
        LastTrackedIsLast(e, r.txn);
        WellFormedSnoc(e, LogRecord(|e|, r.txn, LastTracked(e, r.txn), Compensation(r.op)));
      }
    }
  }

  /** And so do abort records. */
  lemma {:induction false} ClosedIsWellFormed(e: seq<LogRecord>, order: seq<nat>)
    requires WellFormed(e) && AllKnown(e) && forall i, j :: 0 <= i < j < |order| ==> order[i] != order[j]
    requires forall t :: t in order ==> t in Tracked(e)
    ensures WellFormed(Closed(e, order)) && AllKnown(Closed(e, order))
    ensures forall t :: t !in order ==> LastOf(Links(Closed(e, order)), t) == LastOf(Links(e), t)
  {
    hide WellFormed, Tracked;
    if |order| > 0 {
      var (init, t) := (order[..|order| - 1], order[|order| - 1]);
      ClosedIsWellFormed(e, init);
      var before := Closed(e, init);
      assert order == init + [t] && t !in init;
      LastTrackedIsLast(e, t);
      WellFormedSnoc(before, LogRecord(|before|, t, LastTracked(e, t), Abort));
    }
  }

  function CompensatedValue(op: Op): Option<Bytes> {
    if op.Delete? then Some(op.value) else None
  }

  lemma {:induction false} ExtendedAt(rs: seq<LogRecord>, us: set<nat>, lo: nat, k: Bytes)
    requires lo <= |rs|
    ensures At(Replay(Extended(rs, us, lo)), k) ==
            var i := FirstTouch(rs, us, k, lo); if i < |rs| then CompensatedValue(rs[i].op) else At(Replay(rs), k)
    decreases |rs| - lo
  {
    hide Replay, Active, Tracked;
    if lo < |rs| {
      ExtendedAt(rs, us, lo + 1, k);
      var (e, r) := (Extended(rs, us, lo + 1), rs[lo]);
      if lo in us && (r.op.Insert? || r.op.Delete?) {
        Snoc(e, LogRecord(|e|, r.txn, LastTracked(e, r.txn), Compensation(r.op)));
      }
    }
  }

  lemma {:induction false} NothingUndone(rs: seq<LogRecord>, lo: nat, s: Store)
    requires lo <= |rs|
    ensures Undone(rs, {}, lo, s) == s
    decreases |rs| - lo
  {
    if lo < |rs| { NothingUndone(rs, lo + 1, s); }
  }

  lemma NothingReached(rs: seq<LogRecord>)
    requires Tracked(rs) == map[]
    ensures Reached(rs) == {}
  {
  }

  /** If the first record on the key that undo reaches is a delete, was the value the key itself? */
  ghost predicate DeleteRestores(rs: seq<LogRecord>, k: Bytes) {
    var i := FirstTouch(rs, Reached(rs), k, 0);
    i < |rs| && rs[i].op.Delete? ==> rs[i].op.value == k
  }

  ghost predicate DeletesRestore(rs: seq<LogRecord>) {
    forall k :: DeleteRestores(rs, k)
  }

  /** Recovering again from the log that a recovery has left finds nothing to undo, and the same store if and only
      if every key whose first undone record is a delete has itself as deleted value. */
  lemma RecoveryIsStableIff(rs: seq<LogRecord>, order: seq<nat>)
    requires WellLinked(rs) && IsOrderOf(order, Tracked(rs).Keys)
    ensures var again := Closed(Extended(rs, Reached(rs), 0), order);
            && WellLinked(again) && Tracked(again) == map[] && Reached(again) == {}
            && (Recovered(again) == Recovered(rs) <==> DeletesRestore(rs))
  {
    hide WellLinked, Tracked, Replay, Undone, Extended, Closed, Reached;
    var us := Reached(rs);
    var e := Extended(rs, us, 0);
    var again := Closed(e, order);
    ExtendedIsLinked(rs, 0);
    ClosedIsLinked(e, order);
    assert Tracked(again) == map[];
    NothingReached(again);
    NothingUndone(again, 0, Replay(again));
    forall k
      ensures At(Recovered(again), k) == At(Recovered(rs), k) <==> DeleteRestores(rs, k)
    {
      ExtendedAt(rs, us, 0, k);
      UndoneAt(rs, us, 0, Replay(rs), k);
    }
    if DeletesRestore(rs) {
      SameStore(Recovered(again), Recovered(rs));
    }
  }

  /** A second recovery that differs: an open transaction has deleted a committed value that is not the key. The
      first recovery puts the key in its place, the second one the value. */
  lemma SecondRecoveryExample(k: Bytes, v: Bytes)
    requires v != k
    ensures var rs := ThreeRecords(k, v, Delete(k, v));
            var again := Closed(Extended(rs, Reached(rs), 0), [2]);
            At(Recovered(rs), k) == Some(k) && At(Recovered(again), k) == Some(v)
  {
    hide Replay, Active, Tracked, Without, Undone, FirstTouch, Extended, Closed, Recovered;
    var rs := ThreeRecords(k, v, Delete(k, v));
    OneIsOpen(k, v, Delete(k, v));
    OneIsReached(k, v, Delete(k, v));
    LostValueExample(k, v, Delete(k, v));
    var e := Extended(rs, Reached(rs), 0);
    ExtendedIsLinked(rs, 0);
    ClosedIsLinked(e, [2]);
    assert Tracked(Closed(e, [2])) == map[];
    NothingReached(Closed(e, [2]));
    RecoveredAt(Closed(e, [2]), k);
    ExtendedAt(rs, Reached(rs), 0, k);
    FirstTouchIs(rs, Reached(rs), k, 2);
    FirstTouchIs(Closed(e, [2]), {}, k, |Closed(e, [2])|);
  }

  /** When the walk reaches no delete, recovering again changes nothing. */
  lemma InsertOnlyRecoveryIsStable(rs: seq<LogRecord>, order: seq<nat>)
    requires WellLinked(rs) && IsOrderOf(order, Tracked(rs).Keys) && InsertOnly(rs, Reached(rs))
    ensures Recovered(Closed(Extended(rs, Reached(rs), 0), order)) == Recovered(rs)
  {
    hide WellLinked, Tracked, Replay, Undone, Extended, Closed, Recovered, Reached;
    RecoveryIsStableIff(rs, order);
  }

  // ---- a crash in the middle of the undo --------------------------------------------------------------

  lemma {:induction false} ReachesPrefix(e: seq<LogRecord>, c: LogRecord, j: int, i: nat)
    requires j < |e|
    ensures Reaches(e + [c], j, i) == Reaches(e, j, i)
    decreases j
  {
    if 0 <= j && 0 <= e[j].prev < j { ReachesPrefix(e, c, e[j].prev, i); }
  }

  /** The walk from a compensation comes to everything that the walk came to before. */
  lemma ReachedSnoc(e: seq<LogRecord>, c: LogRecord, i: nat)
    requires WellLinked(e) && i < |e| && c.lsn == |e| && (c.op.Insert? || c.op.Delete?)
    requires c.txn in Tracked(e) && c.prev == Tracked(e)[c.txn]
    ensures i in Reached(e + [c]) <==> i in Reached(e)
  {
    hide Tracked;
    Snoc(e, c);
    var t := c.txn;
    forall u | u in Tracked(e)
      ensures Reaches(e + [c], Tracked(e + [c])[u], i) == Reaches(e, Tracked(e)[u], i)
    {
      TrackedIs(e, u);
      ReachesPrefix(e, c, Tracked(e)[u], i);
    }
    assert Tracked(e + [c]).Keys == Tracked(e).Keys;
  }

  lemma {:induction false} ReachedStays(rs: seq<LogRecord>, lo: nat, i: nat)
    requires WellLinked(rs) && lo <= |rs| && i < |rs|
    ensures i in Reached(Extended(rs, Reached(rs), lo)) <==> i in Reached(rs)
    decreases |rs| - lo
  {
    hide WellLinked, Tracked, Reached;
    if lo < |rs| {
      ReachedStays(rs, lo + 1, i);
      ExtendedIsLinked(rs, lo + 1);
      var (e, r) := (Extended(rs, Reached(rs), lo + 1), rs[lo]);
      if lo in Reached(rs) && (r.op.Insert? || r.op.Delete?) {
        ReachedIsTracked(rs, lo);
        ReachedSnoc(e, LogRecord(|e|, r.txn, LastTracked(e, r.txn), Compensation(r.op)), i);
      }
    }
  }

  /** Compensations are of keys that the walk has reached. */
  lemma {:induction false} CompensationsTouch(rs: seq<LogRecord>, us: set<nat>, lo: nat, k: Bytes, j: nat)
    requires lo <= |rs| && |rs| <= j < |Extended(rs, us, lo)| && Touches(Extended(rs, us, lo)[j], k)
    ensures FirstTouch(rs, us, k, 0) < |rs|
    decreases |rs| - lo
  {
    hide Tracked, FirstTouch;
    if lo < |rs| && j < |Extended(rs, us, lo + 1)| {
      CompensationsTouch(rs, us, lo + 1, k, j);
    }
  }

  lemma LeftInUndo(rs: seq<LogRecord>, lo: nat, k: Bytes)
    requires WellLinked(rs) && lo <= |rs|
    ensures Left(Extended(rs, Reached(rs), lo), k) == Left(rs, k)
  {
    hide WellLinked, Tracked, Reached, Replay, Extended, FirstTouch;
    var us := Reached(rs);
    var e := Extended(rs, us, lo);
    ExtendedIsLinked(rs, lo);
    assert forall i :: 0 <= i < |rs| ==> e[i] == rs[i];
    forall i: nat | i < |rs|
      ensures i in Reached(e) <==> i in us
    {
      ReachedStays(rs, lo, i);
    }
    var (f, g) := (FirstTouch(rs, us, k, 0), FirstTouch(e, Reached(e), k, 0));
    if f < |rs| {
      FirstTouchIs(e, Reached(e), k, f);
    } else {
      if |rs| <= g < |e| { CompensationsTouch(rs, us, lo, k, g); }
      ExtendedAt(rs, us, lo, k);
      assert FirstTouch(rs, us, k, lo) == |rs|;
    }
  }

  /** A crash in the middle of the undo, after any number of compensations, does no harm: recovery starts over
      and leaves the same store. */
  lemma CrashInUndo(rs: seq<LogRecord>, lo: nat)
    requires WellLinked(rs) && lo <= |rs|
    ensures WellLinked(Extended(rs, Reached(rs), lo))
    ensures Recovered(Extended(rs, Reached(rs), lo)) == Recovered(rs)
  {
    hide WellLinked, Tracked, Reached, Replay, Recovered, Extended, FirstTouch;
    var e := Extended(rs, Reached(rs), lo);
    ExtendedIsLinked(rs, lo);
    forall k
      ensures At(Recovered(e), k) == At(Recovered(rs), k)
    {
      RecoveredAt(rs, k);
      RecoveredAt(e, k);
      LeftInUndo(rs, lo, k);
    }
    SameStore(Recovered(e), Recovered(rs));
  }
}
