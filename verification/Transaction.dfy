/** Transactions and their lock sets and write records
    (include/transaction/Transaction.h, include/transaction/txn.h). */
module Txn {
  import opened Common
  import opened LockQueue

  type NodeId = int
  type Value = Bytes

  /** A key of the store of a node. */
  datatype Key = Key(node: NodeId, text: Bytes)

  /** What a transaction did to a key, for rolling back. */
  datatype WriteRecord = InsertTuple(key: Key) | DeleteTuple(key: Key, value: Value)

  datatype TxnState = Default | Growing | Shrinking | Committed | Aborted | Prepared

  datatype LockDataId =
    | Table(oid: int)
    | Partition(oid: int, pid: int)
    | Row(oid: int, pid: int, rowId: int)

  datatype LockKind = TableKind | PartitionKind | RowKind

  function Kind(id: LockDataId): LockKind {
    match id
    case Table(_) => TableKind
    case Partition(_, _) => PartitionKind
    case Row(_, _, _) => RowKind
  }

  /** The twelve lock sets of a transaction, by kind of item and lock mode; a missing set is empty. */
  type LockSets = map<(LockKind, LockMode), set<LockDataId>>

  datatype TxnView = TxnView(state: TxnState, sets: LockSets)

  class Transaction {
    const txnId: TxnId
    var state: TxnState
    var sets: LockSets
    var writes: seq<WriteRecord>
    var prevLsn: int

    function View(): TxnView
      reads this`state, this`sets
    {
      TxnView(state, sets)
    }

    constructor (txnId: TxnId)
      ensures this.txnId == txnId && View() == TxnView(Default, map[]) && writes == [] && prevLsn == -1
    {
      this.txnId := txnId;
      state := Default;
      sets := map[];
      writes := [];
      prevLsn := -1;
    }
  }
}
