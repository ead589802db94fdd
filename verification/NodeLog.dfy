/** What one node logs: the record of each operation on its store, and of each step of a rollback
    (include/Inmemory/KVStore.h, src/transaction/transaction_manager.cpp). */
module NodeLogs {
  import opened Common
  import opened Txn
  import opened LogRecords
  import C = Cluster

  /** The log with one more record. */
  function Logged(rs: seq<LogRecord>, txn: nat, prev: int, op: Op): seq<LogRecord> {
    rs + [LogRecord(|rs|, txn, prev, op)]
  }

  /** What an access logs, if anything. */
  function AccessOp(db: map<Key, Value>, key: Key, request: C.Request): Option<Op> {
    match request
    case DoGet => None
    case DoPut(v) => Some(Insert(key.text, v))
    case DoDel => if key in db then Some(Delete(key.text, db[key])) else None
  }

  /** What rolling back one write logs, if anything. */
  function UndoOp(db: map<Key, Value>, r: WriteRecord): Option<Op> {
    match r
    case InsertTuple(key) => if key in db then Some(Delete(key.text, db[key])) else None
    case DeleteTuple(key, value) => Some(Insert(key.text, value))
  }

  /** The log, and the last LSN of the transaction, once its writes have been rolled back, the last first. */
  function RollbackLog(db: map<Key, Value>, ws: seq<WriteRecord>, rs: seq<LogRecord>, txn: nat, prev: int): (seq<LogRecord>, int)
    decreases |ws|
  {
    if |ws| == 0 then (rs, prev) else
      var (rest, r) := (ws[..|ws| - 1], ws[|ws| - 1]);
      match UndoOp(db, r)
      case Some(op) => RollbackLog(C.UndoEffect(db, r), rest, Logged(rs, txn, prev, op), txn, |rs|)
      case None => RollbackLog(C.UndoEffect(db, r), rest, rs, txn, prev)
  }
}
