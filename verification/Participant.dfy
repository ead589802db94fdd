/** One node's store and transaction manager
    (include/Inmemory/KVStore.h, src/transaction/transaction_manager.cpp). */
module Participant {
  import opened Common
  import opened LockQueue
  import opened Txn
  import opened LockManager
  import opened LogChain
  import opened NodeLogs
  import L = LogRecords
  import opened Cluster
  import opened Histories
  import opened Serializability

  lemma AppendKeepsLinks(records: seq<L.LogRecord>, r: L.LogRecord)
    requires WellChained(L.Links(records)) && r.prev == LastOf(L.Links(records), r.txn)
    ensures WellChained(L.Links(records + [r])) && LastOf(L.Links(records + [r]), r.txn) == |records|
  {
    L.LinksSnoc(records, r);
    AppendKeepsChain(L.Links(records), Link(r.txn, r.prev));
  }

  /** The log as its writers see it: records in LSN order. */
  class Wal {
    var records: seq<L.LogRecord>

    constructor ()
      ensures records == []
    {
      records := [];
    }

    /** The log is well chained and the transaction knows its last record. */
    ghost predicate Chained(txn: Transaction)
      reads this, txn`prevLsn
    {
      WellChained(L.Links(records)) && txn.prevLsn == LastOf(L.Links(records), txn.txnId)
    }

    method Append(txn: Transaction, op: L.Op)
      modifies this, txn`prevLsn
      ensures records == Logged(old(records), txn.txnId, old(txn.prevLsn), op)
      ensures txn.prevLsn == |old(records)|
      ensures old(Chained(txn)) ==> Chained(txn)
    {
      if Chained(txn) { AppendKeepsLinks(records, L.LogRecord(|records|, txn.txnId, txn.prevLsn, op)); }
      records := Logged(records, txn.txnId, txn.prevLsn, op);
      txn.prevLsn := |records| - 1;
    }
  }

  class KvStore {
    var memtable: map<Key, Value>
    const wal: Wal

    constructor (wal: Wal)
      ensures this.wal == wal && memtable == map[]
    {
      this.wal := wal;
      memtable := map[];
    }

    method Get(key: Key) returns (value: Option<Value>)
      ensures value == Look(memtable, key)
    {
      if key in memtable { value := Some(memtable[key]); } else { value := None; }
    }

    method Put(key: Key, value: Value, txn: Transaction, addWriteset: bool)
      modifies this`memtable, wal, txn`writes, txn`prevLsn
      ensures addWriteset ==> txn.writes == AccessEffect(old(memtable), old(txn.writes), key, DoPut(value)).0
      ensures memtable == AccessEffect(old(memtable), old(txn.writes), key, DoPut(value)).1
      ensures !addWriteset ==> txn.writes == old(txn.writes)
      ensures wal.records == Logged(old(wal.records), txn.txnId, old(txn.prevLsn), L.Insert(key.text, value))
      ensures txn.prevLsn == |old(wal.records)|
      ensures old(wal.Chained(txn)) ==> wal.Chained(txn)
    {
      wal.Append(txn, L.Insert(key.text, value));
      if addWriteset {
        txn.writes := txn.writes + [InsertTuple(key)];
      }
      memtable := memtable[key := value];
    }

    /** Deleting an absent key does nothing at all: no log record, no write record. */
    method Del(key: Key, txn: Transaction, addWriteset: bool) returns (found: bool)
      modifies this`memtable, wal, txn`writes, txn`prevLsn
      ensures found <==> key in old(memtable)
      ensures addWriteset ==> txn.writes == AccessEffect(old(memtable), old(txn.writes), key, DoDel).0
      ensures memtable == AccessEffect(old(memtable), old(txn.writes), key, DoDel).1
      ensures !addWriteset ==> txn.writes == old(txn.writes)
      ensures wal.records == if !found then old(wal.records)
                             else Logged(old(wal.records), txn.txnId, old(txn.prevLsn), L.Delete(key.text, old(memtable)[key]))
      ensures txn.prevLsn == if found then |old(wal.records)| else old(txn.prevLsn)
      ensures old(wal.Chained(txn)) ==> wal.Chained(txn)
    {
      if key !in memtable {
        assert memtable - {key} == memtable;
        return false;
      }
      wal.Append(txn, L.Delete(key.text, memtable[key]));
      if addWriteset {
        txn.writes := txn.writes + [DeleteTuple(key, memtable[key])];
      }
      memtable := memtable - {key};
      return true;
    }
  }

  /** The transaction holds nothing any more, and the others hold what they held. */
  ghost predicate Released(table: LockTable, table': LockTable, t: TxnId) {
    && (forall id :: Held(table', id, t).None?)
    && (forall id, u :: u != t ==> Held(table', id, u) == Held(table, id, u))
  }

  /** What a commit does to the log and the locks of its node. */
  ghost predicate Commits(t: TxnId, prev: int, rs: seq<L.LogRecord>, table: LockTable, rs': seq<L.LogRecord>, table': LockTable) {
    rs' == Logged(rs, t, prev, L.Commit) && Released(table, table', t)
  }

  /** What an abort does to the store, the log and the locks of its node. */
  ghost predicate Aborts(t: TxnId, prev: int, ws: seq<WriteRecord>, db: map<Key, Value>, rs: seq<L.LogRecord>, table: LockTable,
                         db': map<Key, Value>, rs': seq<L.LogRecord>, table': LockTable) {
    && (forall k :: Look(db', k) == RolledBack(ws, k, Look(db, k)))
    && (var (logged, last) := RollbackLog(db, ws, rs, t, prev); rs' == Logged(logged, t, last, L.Abort))
    && Released(table, table', t)
  }

  class TransactionManager {
    const locks: Manager
    const kv: KvStore
    var txnMap: map<TxnId, Transaction>

    constructor (locks: Manager, kv: KvStore)
      ensures this.locks == locks && this.kv == kv && txnMap == map[]
    {
      this.locks := locks;
      this.kv := kv;
      txnMap := map[];
    }

    /** What the callers of the lock manager keep about a transaction. */
    ghost predicate LocksInStep(txn: Transaction)
      reads locks, txn`state, txn`sets
    {
      InStep(locks.lockMap, txn.sets, txn.txnId)
    }

    method Begin(id: TxnId) returns (txn: Transaction)
      modifies this, kv.wal
      ensures fresh(txn) && txn.txnId == id && txn.View() == TxnView(Default, map[]) && txn.writes == []
      ensures txnMap == old(txnMap)[id := txn]
      ensures kv.wal.records == Logged(old(kv.wal.records), id, INVALID_LSN, L.Begin)
      ensures txn.prevLsn == |old(kv.wal.records)|
      ensures old(WellChained(L.Links(kv.wal.records)) && LastOf(L.Links(kv.wal.records), id) == INVALID_LSN) ==> kv.wal.Chained(txn)
    {
      txn := new Transaction(id);
      kv.wal.Append(txn, L.Begin);
      txnMap := txnMap[id := txn];
    }

    method PrepareCommit(txn: Transaction) returns (ok: bool)
      modifies kv.wal, txn`state, txn`prevLsn
      ensures ok <==> old(txn.state) != Aborted
      ensures txn.state == if ok then Prepared else Aborted
      ensures !ok ==> unchanged(kv.wal) && unchanged(txn)
      ensures kv.wal.records == if old(txn.state) in {Aborted, Prepared} then old(kv.wal.records)
                                else Logged(old(kv.wal.records), txn.txnId, old(txn.prevLsn), L.Prepared)
      ensures old(kv.wal.Chained(txn)) ==> kv.wal.Chained(txn)
    {
      if txn.state == Aborted {
        return false;
      }
      if txn.state == Prepared {
        return true;
      }
      kv.wal.Append(txn, L.Prepared);
      txn.state := Prepared;
      return true;
    }

    method CommitSingle(txn: Transaction) returns (ok: bool)
      requires LocksInStep(txn)
      modifies this, locks, kv.wal, txn
      ensures ok <==> old(txn.state) != Aborted
      ensures !ok ==> unchanged(this) && unchanged(locks) && unchanged(kv.wal) && unchanged(txn)
      ensures ok ==>
                && txn.state == Committed && txnMap == old(txnMap) - {txn.txnId}
                && Commits(txn.txnId, old(txn.prevLsn), old(kv.wal.records), old(locks.lockMap), kv.wal.records, locks.lockMap)
      ensures kv.memtable == old(kv.memtable)
      ensures old(kv.wal.Chained(txn)) ==> kv.wal.Chained(txn)
    {
      if txn.state == Aborted {
        return false;
      }
      kv.wal.Append(txn, L.Commit);
      locks.ReleaseLocks(txn);
      txn.state := Committed;
      txnMap := txnMap - {txn.txnId};
      return true;
    }

    /** One turn of the rollback: the last write is taken back, and logged if it changes the store. */
    method UndoLastWrite(txn: Transaction)
      requires txn.writes != []
      modifies kv, kv.wal, txn`writes, txn`prevLsn
      ensures txn.writes == old(txn.writes)[..|old(txn.writes)| - 1]
      ensures kv.memtable == UndoEffect(old(kv.memtable), old(txn.writes)[|old(txn.writes)| - 1])
      ensures match UndoOp(old(kv.memtable), old(txn.writes)[|old(txn.writes)| - 1])
              case Some(op) =>
                && kv.wal.records == Logged(old(kv.wal.records), txn.txnId, old(txn.prevLsn), op)
                && txn.prevLsn == |old(kv.wal.records)|
              case None => kv.wal.records == old(kv.wal.records) && txn.prevLsn == old(txn.prevLsn)
      ensures old(kv.wal.Chained(txn)) ==> kv.wal.Chained(txn)
    {
      var last := |txn.writes| - 1;
      match txn.writes[last] {
        case DeleteTuple(key, value) =>
          kv.Put(key, value, txn, false);
        case InsertTuple(key) =>
          var _ := kv.Del(key, txn, false);
      }
      txn.writes := txn.writes[..last];
    }

    /** The loop of the rollback, the last write first. */
    method RollBack(txn: Transaction)
      modifies kv, kv.wal, txn`writes, txn`prevLsn
      ensures txn.writes == []
      ensures forall k :: Look(kv.memtable, k) == RolledBack(old(txn.writes), k, Look(old(kv.memtable), k))
      ensures (kv.wal.records, txn.prevLsn) ==
              RollbackLog(old(kv.memtable), old(txn.writes), old(kv.wal.records), txn.txnId, old(txn.prevLsn))
      ensures old(kv.wal.Chained(txn)) ==> kv.wal.Chained(txn)
    {
      while txn.writes != []
        invariant forall k :: RolledBack(txn.writes, k, Look(kv.memtable, k)) == RolledBack(old(txn.writes), k, Look(old(kv.memtable), k))
        invariant RollbackLog(kv.memtable, txn.writes, kv.wal.records, txn.txnId, txn.prevLsn) ==
                  RollbackLog(old(kv.memtable), old(txn.writes), old(kv.wal.records), txn.txnId, old(txn.prevLsn))
        invariant old(kv.wal.Chained(txn)) ==> kv.wal.Chained(txn)
        decreases |txn.writes|
      {
        ghost var before, ws := kv.memtable, txn.writes;
        UndoLastWrite(txn);
        forall k
          ensures RolledBack(txn.writes, k, Look(kv.memtable, k)) == RolledBack(ws, k, Look(before, k))
        {
          RolledBackLast(ws, k, Look(before, k));
        }
      }
    }

    /** Rolls the store back, logs ABORT, releases everything and forgets the transaction. */
    method AbortSingle(txn: Transaction)
      requires LocksInStep(txn)
      modifies this, locks, kv, kv.wal, txn
      ensures txn.writes == [] && txnMap == old(txnMap) - {txn.txnId} && txn.prevLsn == |kv.wal.records| - 1
      ensures Aborts(txn.txnId, old(txn.prevLsn), old(txn.writes), old(kv.memtable), old(kv.wal.records), old(locks.lockMap),
                     kv.memtable, kv.wal.records, locks.lockMap)
      ensures old(kv.wal.Chained(txn)) ==> kv.wal.Chained(txn)
    {
      RollBack(txn);
      kv.wal.Append(txn, L.Abort);
      locks.ReleaseLocks(txn);
      txnMap := txnMap - {txn.txnId};
    }

    // The handlers of the three requests; a transaction that the node does not know, or no longer
    // knows, is refused.

    ghost function Known(id: TxnId): set<object>
      reads this`txnMap
    {
      if id in txnMap then {txnMap[id]} else {}
    }

    ghost predicate Ready(id: TxnId)
      reads this`txnMap, locks, Known(id)
    {
      id in txnMap ==> txnMap[id].txnId == id && LocksInStep(txnMap[id])
    }

    method HandlePrepare(id: TxnId) returns (ok: bool)
      modifies kv.wal, Known(id)
      ensures ok <==> old(id in txnMap && txnMap[id].state != Aborted)
      ensures ok ==>
                && txnMap[id].state == Prepared
                && kv.wal.records == if old(txnMap[id].state) == Prepared then old(kv.wal.records)
                                     else Logged(old(kv.wal.records), old(txnMap[id].txnId), old(txnMap[id].prevLsn), L.Prepared)
      ensures !ok ==> unchanged(kv.wal) && (id in txnMap ==> unchanged(txnMap[id]))
      ensures txnMap == old(txnMap) && kv.memtable == old(kv.memtable) && locks.lockMap == old(locks.lockMap)
    {
      if id !in txnMap {
        return false;
      }
      ok := PrepareCommit(txnMap[id]);
    }

    method HandleCommit(id: TxnId) returns (ok: bool)
      requires Ready(id)
      modifies this, locks, kv.wal, Known(id)
      ensures ok <==> old(id in txnMap && txnMap[id].state != Aborted)
      ensures ok ==>
                && txnMap == old(txnMap) - {id}
                && Commits(id, old(txnMap[id].prevLsn), old(kv.wal.records), old(locks.lockMap), kv.wal.records, locks.lockMap)
      ensures !ok ==> unchanged(this) && unchanged(locks) && unchanged(kv.wal) && (id in txnMap ==> unchanged(txnMap[id]))
      ensures kv.memtable == old(kv.memtable)
    {
      if id !in txnMap {
        return false;
      }
      ok := CommitSingle(txnMap[id]);
    }

    method HandleAbort(id: TxnId) returns (ok: bool)
      requires Ready(id)
      modifies this, locks, kv, kv.wal, Known(id)
      ensures ok <==> old(id in txnMap)
      ensures ok ==>
                && txnMap == old(txnMap) - {id}
                && Aborts(id, old(txnMap[id].prevLsn), old(txnMap[id].writes), old(kv.memtable), old(kv.wal.records), old(locks.lockMap),
                          kv.memtable, kv.wal.records, locks.lockMap)
      ensures !ok ==> unchanged(this) && unchanged(kv) && unchanged(kv.wal) && unchanged(locks)
    {
      if id !in txnMap {
        return false;
      }
      AbortSingle(txnMap[id]);
      return true;
    }
  }

  // ---------------------------------------------------------------------------
  // When rolling back is exact
  // ---------------------------------------------------------------------------

  datatype StoreOp = StoreOp(key: Key, request: Request)

  /** The store and write set after a transaction has performed `ops` on the store `db`. */
  function RunOps(db: map<Key, Value>, ops: seq<StoreOp>): (map<Key, Value>, seq<WriteRecord>) {
    if |ops| == 0 then (db, []) else
      var (db1, ws1) := RunOps(db, ops[..|ops| - 1]);
      var (ws2, db2, _) := AccessEffect(db1, ws1, ops[|ops| - 1].key, ops[|ops| - 1].request);
      (db2, ws2)
  }

  /** The branch of `put` that cannot be undone: overwriting a key the transaction has not written yet. */
  ghost predicate Overwrites(db: map<Key, Value>, ops: seq<StoreOp>, i: nat)
    requires i < |ops|
  {
    var (db1, ws1) := RunOps(db, ops[..i]);
    ops[i].request.DoPut? && ops[i].key in db1 && !Recorded(ws1, ops[i].key)
  }

  ghost predicate RollsBackTo(db: map<Key, Value>, ops: seq<StoreOp>, k: Key) {
    var (db1, ws1) := RunOps(db, ops);
    RolledBack(ws1, k, Look(db1, k)) == Look(db, k)
  }

  /** A key without a record has not been changed. */
  lemma {:induction false} UnrecordedIsUnchanged(db: map<Key, Value>, ops: seq<StoreOp>, k: Key)
    requires !Recorded(RunOps(db, ops).1, k)
    ensures Look(RunOps(db, ops).0, k) == Look(db, k)
  {
    if |ops| > 0 {
      var front := ops[..|ops| - 1];
      var ws1 := RunOps(db, front).1;
      var ws2 := RunOps(db, ops).1;
      assert ws1 <= ws2;
      assert forall i :: 0 <= i < |ws1| ==> ws2[i] == ws1[i];
      UnrecordedIsUnchanged(db, front, k);
      assert |ws2| > |ws1| ==> ws2[|ws1|].key == ops[|ops| - 1].key;
    }
  }

  /** The first record of a key decides what rolling back leaves there. */
  lemma {:induction false} FirstRecordDecides(db: map<Key, Value>, ops: seq<StoreOp>, n: nat, k: Key, now: Option<Value>)
    requires n <= |ops| && Recorded(RunOps(db, ops[..n]).1, k)
    ensures RolledBack(RunOps(db, ops).1, k, now) == RolledBack(RunOps(db, ops[..n]).1, k, None)
    ensures Recorded(RunOps(db, ops).1, k)
    decreases |ops|
  {
    if n == |ops| {
      assert ops[..n] == ops;
      RolledBackRecorded(RunOps(db, ops).1, k, now, None);
    } else {
      var front := ops[..|ops| - 1];
      assert front[..n] == ops[..n];
      var (ws1, ws2) := (RunOps(db, front).1, RunOps(db, ops).1);
      if ws2 == ws1 {
        FirstRecordDecides(db, front, n, k, now);
      } else {
        var r := ws2[|ws1|];
        assert ws2 == ws1 + [r];
        RolledBackAppend(ws1, r, k, now);
        FirstRecordDecides(db, front, n, k, if r.key != k then now else if r.DeleteTuple? then Some(r.value) else None);
        var i :| 0 <= i < |ws1| && ws1[i].key == k;
        assert ws2[i].key == k;
      }
    }
  }

  lemma {:induction false} UndoableRollsBack(db: map<Key, Value>, ops: seq<StoreOp>, k: Key)
    requires forall i :: 0 <= i < |ops| ==> !Overwrites(db, ops, i)
    ensures RollsBackTo(db, ops, k)
  {
    if |ops| > 0 {
      var last := |ops| - 1;
      var front := ops[..last];
      forall i | 0 <= i < last
        ensures !Overwrites(db, front, i)
      {
        assert !Overwrites(db, ops, i);
        assert front[..i] == ops[..i];
      }
      UndoableRollsBack(db, front, k);
      assert !Overwrites(db, ops, last);
      var (db1, ws1) := RunOps(db, front);
      AccessRollsBack(db1, ws1, ops[last].key, ops[last].request, k);
    }
  }

  lemma OverwriteIsLost(db: map<Key, Value>, ops: seq<StoreOp>, i: nat)
    requires i < |ops| && Overwrites(db, ops, i)
    ensures !RollsBackTo(db, ops, ops[i].key)
  {
    var k := ops[i].key;
    var ws1 := RunOps(db, ops[..i]).1;
    UnrecordedIsUnchanged(db, ops[..i], k);
    assert ops[..i + 1][..i] == ops[..i];
    var ws2 := RunOps(db, ops[..i + 1]).1;
    assert ws2 == ws1 + [InsertTuple(k)];
    assert ws2[|ws1|].key == k;
    RolledBackAppend(ws1, InsertTuple(k), k, None);
    RolledBackUnrecorded(ws1, k, None);
    FirstRecordDecides(db, ops, i + 1, k, Look(RunOps(db, ops).0, k));
  }

  /** AbortSingle takes every key back to its value before the transaction exactly when the transaction
      never overwrote a key that it had not written before. */
  lemma RollbackIsExact(db: map<Key, Value>, ops: seq<StoreOp>)
    ensures (forall k :: RollsBackTo(db, ops, k)) <==> (forall i :: 0 <= i < |ops| ==> !Overwrites(db, ops, i))
  {
    if i :| 0 <= i < |ops| && Overwrites(db, ops, i) {
      OverwriteIsLost(db, ops, i);
    } else {
      forall k
        ensures RollsBackTo(db, ops, k)
      {
        UndoableRollsBack(db, ops, k);
      }
    }
  }

  /** The smallest such loss: one put over an existing key, rolled back, deletes the key. */
  lemma OverwriteExample(k: Key, v: Value, w: Value)
    ensures !RollsBackTo(map[k := v], [StoreOp(k, DoPut(w))], k)
  {
    var ops := [StoreOp(k, DoPut(w))];
    assert ops[..0] == [];
    OverwriteIsLost(map[k := v], ops, 0);
  }
}
