/** The lock table of one node and the lock bookkeeping of its transactions
    (src/transaction/Lock_manager.cpp, include/transaction/Transaction.h), in no-wait mode. */
module LockManager {
  import opened Common
  import opened LockQueue
  import opened Txn

  type LockTable = map<LockDataId, LockRequestQueue>

  function QueueOf(table: LockTable, id: LockDataId): LockRequestQueue {
    if id in table then table[id] else EMPTY_QUEUE
  }

  function SetOf(sets: LockSets, k: (LockKind, LockMode)): set<LockDataId> {
    if k in sets then sets[k] else {}
  }

  function AddLock(sets: LockSets, mode: LockMode, id: LockDataId): LockSets {
    var k := (Kind(id), mode);
    sets[k := SetOf(sets, k) + {id}]
  }

  /** Because of upgrades an item can be in several sets; unlocking erases it from all of them. */
  function EraseLock(sets: LockSets, id: LockDataId): LockSets {
    map k | k in sets :: if k.0 == Kind(id) then sets[k] - {id} else sets[k]
  }

  function Held(table: LockTable, id: LockDataId, t: TxnId): Option<LockMode> {
    GrantedMode(QueueOf(table, id), t)
  }

  /** LockTable, LockPartition and LockRow: new lock table, new transaction state and the answer. */
  function LockOn(table: LockTable, v: TxnView, t: TxnId, id: LockDataId, mode: LockMode): (r: (LockTable, TxnView, bool))
    ensures r.1.state == if r.2 then Growing else Aborted
  {
    var started := if v.state == Default then v.(state := Growing) else v;
    if started.state != Growing || (id.Row? && mode != Shared && mode != Exclusive) then
      (table, started.(state := Aborted), false)
    else
      var (q, ok) := LockCall(QueueOf(table, id), t, mode);
      (table[id := q], if ok then started.(sets := AddLock(started.sets, mode, id)) else started.(state := Aborted), ok)
  }

  /** UnLockTable, UnLockPartition and UnLockRow. */
  function UnlockOn(table: LockTable, v: TxnView, t: TxnId, id: LockDataId): (r: (LockTable, TxnView))
    ensures r.1.state in {v.state, Shrinking, Aborted}
  {
    var (q, found) := UnlockCall(QueueOf(table, id), t);
    var state := if !found then Aborted else if v.state == Growing then Shrinking else v.state;
    (table[id := q], TxnView(state, EraseLock(v.sets, id)))
  }

  // ---------------------------------------------------------------------------
  // What lock and unlock calls keep
  // ---------------------------------------------------------------------------

  ghost predicate TableInv(table: LockTable) {
    forall id :: id in table ==> QueueInv(table[id])
  }

  /** Every granted request of `t` is in the lock set of its mode. */
  ghost predicate Covered(table: LockTable, sets: LockSets, t: TxnId) {
    forall id :: Held(table, id, t).Some? ==> id in SetOf(sets, (Kind(id), Held(table, id, t).value))
  }

  /** Every lock-set entry of a transaction that has not aborted is backed by a granted request
      at least as strong. */
  ghost predicate Backed(table: LockTable, v: TxnView, t: TxnId) {
    v.state != Aborted ==>
      forall k, id :: id in SetOf(v.sets, k) ==>
        && k.0 == Kind(id)
        && Held(table, id, t).Some?
        && (Held(table, id, t).value == k.1 || Upgradable(k.1, Held(table, id, t).value))
  }

  lemma UpgradeIsTransitive(a: LockMode, b: LockMode, c: LockMode)
    requires Upgradable(a, b) && Upgradable(b, c)
    ensures Upgradable(a, c)
  {
  }

  lemma LockOnEffect(table: LockTable, v: TxnView, t: TxnId, id: LockDataId, mode: LockMode)
    requires TableInv(table)
    ensures var (table', v', ok) := LockOn(table, v, t, id, mode);
            var (before, after) := (Held(table, id, t), Held(table', id, t));
            && TableInv(table')
            && (ok ==> after == Some(mode) && (before.None? || before.value == mode || Upgradable(before.value, mode)))
            && (ok ==> v.state in {Default, Growing} && v'.state == Growing && (id.Row? ==> mode in {Shared, Exclusive}))
            && (!ok ==> v'.state == Aborted && (after == before || (after.None? && before != Some(Exclusive))))
    ensures forall other, u :: other != id || u != t ==>
              Held(LockOn(table, v, t, id, mode).0, other, u) == Held(table, other, u)
  {
    LockCallGrants(QueueOf(table, id), t, mode);
    LockCallKeepsQueueInv(QueueOf(table, id), t, mode);
  }

  lemma UnlockOnEffect(table: LockTable, v: TxnView, t: TxnId, id: LockDataId)
    requires TableInv(table)
    ensures var (table', v') := UnlockOn(table, v, t, id);
            && TableInv(table')
            && Held(table', id, t).None?
            && (v'.state == Aborted <==> v.state == Aborted || Held(table, id, t).None?)
    ensures forall other, u :: other != id || u != t ==>
              Held(UnlockOn(table, v, t, id).0, other, u) == Held(table, other, u)
  {
    UnlockCallGrants(QueueOf(table, id), t);
    UnlockCallKeepsQueueInv(QueueOf(table, id), t);
  }

  /** Whatever other transactions hold on the item leaves room for `mode`. */
  ghost predicate OthersAllowOn(table: LockTable, id: LockDataId, t: TxnId, mode: LockMode) {
    forall u :: u != t && Held(table, id, u).Some? ==> Compatible(Held(table, id, u).value, mode)
  }

  lemma SameHolders(table: LockTable, id: LockDataId, t: TxnId, mode: LockMode)
    ensures OthersAllowOn(table, id, t, mode) <==> OthersAllow(QueueOf(table, id), t, mode)
  {
    hide GrantedMode, Compatible;
    assert forall u :: Held(table, id, u) == GrantedMode(QueueOf(table, id), u);
  }

  /** A lock call succeeds if and only if the transaction may still grow, the mode is one for the item, the other
      holders of the item leave room, and the caller has no request on it, one in this mode, or one that may be
      upgraded now. */
  lemma LockOnSucceedsIff(table: LockTable, v: TxnView, t: TxnId, id: LockDataId, mode: LockMode)
    requires TableInv(table)
    ensures var own := OwnRequest(QueueOf(table, id), t);
            LockOn(table, v, t, id, mode).2 <==>
              && v.state in {Default, Growing} && (id.Row? ==> mode in {Shared, Exclusive})
              && OthersAllowOn(table, id, t, mode)
              && (own.None? || own.value.mode == mode || BeginsUpgrade(QueueOf(table, id), own, mode))
    ensures var (_, v', ok) := LockOn(table, v, t, id, mode); v'.sets == if ok then AddLock(v.sets, mode, id) else v.sets
  {
    LockCallSucceedsIff(QueueOf(table, id), t, mode);
    SameHolders(table, id, t, mode);
    hide LockCall, OthersAllow, OthersAllowOn, GrantedMode, OwnRequest, BeginsUpgrade;
  }

  /** In particular, of a transaction that may still grow: a newcomer to an item succeeds if and only if every
      holder leaves room, and a holder, unless an upgrade is pending there, if and only if it has the mode already,
      or may upgrade and every other holder leaves room. */
  lemma GrowingSucceedsIff(table: LockTable, v: TxnView, t: TxnId, id: LockDataId, mode: LockMode)
    requires TableInv(table) && v.state in {Default, Growing} && (id.Row? ==> mode in {Shared, Exclusive})
    ensures OwnRequest(QueueOf(table, id), t).None? ==>
              (LockOn(table, v, t, id, mode).2 <==> OthersAllowOn(table, id, t, mode))
    ensures Held(table, id, t).Some? && !QueueOf(table, id).upgrading ==>
              (LockOn(table, v, t, id, mode).2 <==>
               var held := Held(table, id, t).value;
               held == mode || (Upgradable(held, mode) && OthersAllowOn(table, id, t, mode)))
  {
    LockOnSucceedsIff(table, v, t, id, mode);
    var q := QueueOf(table, id);
    OwnGrant(q, t, Find(q.requests, t));
    hide LockOn, Find, GrantedMode;
    if Held(table, id, t) == Some(mode) {
      HoldersLeaveRoom(q, t);
      assert OthersAllowOn(table, id, t, mode);
    }
  }

  // ---- two phases --------------------------------------------------------------------------------------

  /** A call of one transaction, and the lock table that it meets; in between, others may have changed that. */
  datatype OwnCall = LockOf(table: LockTable, id: LockDataId, mode: LockMode) | UnlockOf(table: LockTable, id: LockDataId)

  /** The view of the transaction after its calls. */
  function ViewAfter(v: TxnView, t: TxnId, calls: seq<OwnCall>): TxnView {
    if |calls| == 0 then v else
      var before := ViewAfter(v, t, calls[..|calls| - 1]);
      match calls[|calls| - 1]
      case LockOf(table, id, mode) => LockOn(table, before, t, id, mode).1
      case UnlockOf(table, id) => UnlockOn(table, before, t, id).1
  }

  predicate MayGrow(v: TxnView) {
    v.state in {Default, Growing}
  }

  /** An unlock call ends the growing phase, unless the transaction has locked nothing yet and still finds a lock of
      its own. */
  lemma UnlockEndsGrowth(table: LockTable, v: TxnView, t: TxnId, id: LockDataId)
    requires TableInv(table)
    ensures MayGrow(UnlockOn(table, v, t, id).1) <==> v.state == Default && Held(table, id, t).Some?
  {
    UnlockCallGrants(QueueOf(table, id), t);
    hide GrantedMode, UnlockCall;
  }

  lemma {:induction false} GrowthIsOver(v: TxnView, t: TxnId, calls: seq<OwnCall>, i: nat)
    requires i <= |calls| && !MayGrow(ViewAfter(v, t, calls[..i]))
    ensures !MayGrow(ViewAfter(v, t, calls))
  {
    if i == |calls| {
      assert calls[..i] == calls;
    } else {
      assert calls[..|calls| - 1][..i] == calls[..i];
      GrowthIsOver(v, t, calls[..|calls| - 1], i);
    }
  }

  /** The two-phase rule: whatever others do with the lock table in between, once a transaction that holds nothing
      before it locks has unlocked an item, every later lock call of it refuses. */
  lemma NoLockAfterUnlock(v: TxnView, t: TxnId, calls: seq<OwnCall>, i: nat, j: nat)
    requires i < j < |calls| && calls[i].UnlockOf? && calls[j].LockOf? && TableInv(calls[i].table)
    requires ViewAfter(v, t, calls[..i]).state == Default ==> Held(calls[i].table, calls[i].id, t).None?
    ensures !LockOn(calls[j].table, ViewAfter(v, t, calls[..j]), t, calls[j].id, calls[j].mode).2
  {
    UnlockEndsGrowth(calls[i].table, ViewAfter(v, t, calls[..i]), t, calls[i].id);
    assert calls[..i + 1][..i] == calls[..i] && calls[..j][..i + 1] == calls[..i + 1];
    hide UnlockOn, Held;
    GrowthIsOver(v, t, calls[..j], i + 1);
    hide ViewAfter;
  }

  /** Recording the new mode of an item keeps cover, whatever the lock table does elsewhere. */
  lemma AddKeepsCover(before: LockTable, after: LockTable, v: TxnView, t: TxnId, id: LockDataId, mode: LockMode)
    requires Covered(before, v.sets, t) && Backed(before, v, t) && v.state != Aborted
    requires Held(after, id, t) == Some(mode)
    requires Held(before, id, t).Some? ==> Held(before, id, t).value == mode || Upgradable(Held(before, id, t).value, mode)
    requires forall other :: other != id ==> Held(after, other, t) == Held(before, other, t)
    ensures Covered(after, AddLock(v.sets, mode, id), t)
    ensures Backed(after, v.(sets := AddLock(v.sets, mode, id)), t)
  {
    var sets' := AddLock(v.sets, mode, id);
    forall k, other | other in SetOf(sets', k)
      ensures k.0 == Kind(other) && Held(after, other, t).Some?
      ensures Held(after, other, t).value == k.1 || Upgradable(k.1, Held(after, other, t).value)
    {
      if other in SetOf(v.sets, k) && other == id {
        var held := Held(before, id, t).value;
        if held != mode && k.1 != held { UpgradeIsTransitive(k.1, held, mode); }
      }
    }
  }

  /** A lock call keeps the transaction's lock sets and the lock table in step. */
  lemma LockOnKeepsCover(table: LockTable, v: TxnView, t: TxnId, id: LockDataId, mode: LockMode)
    requires TableInv(table) && Covered(table, v.sets, t) && Backed(table, v, t)
    ensures var (table', v', _) := LockOn(table, v, t, id, mode);
            Covered(table', v'.sets, t) && Backed(table', v', t)
  {
    var (table', v', ok) := LockOn(table, v, t, id, mode);
    LockOnEffect(table, v, t, id, mode);
    if ok {
      AddKeepsCover(table, table', v, t, id, mode);
      assert v' == TxnView(Growing, AddLock(v.sets, mode, id));
    }
  }

  lemma UnlockOnKeepsCover(table: LockTable, v: TxnView, t: TxnId, id: LockDataId)
    requires TableInv(table) && Covered(table, v.sets, t) && Backed(table, v, t)
    ensures var (table', v') := UnlockOn(table, v, t, id);
            Covered(table', v'.sets, t) && Backed(table', v', t)
  {
    UnlockOnEffect(table, v, t, id);
  }

  /** Every entry is in a set of its kind that a lock call can fill. */
  ghost predicate KindsMatch(sets: LockSets) {
    forall k, id :: id in SetOf(sets, k) ==> Kind(id) == k.0 && (id.Row? ==> k.1 in {Shared, Exclusive})
  }

  /** What commit and abort rely on. */
  ghost predicate InStep(table: LockTable, sets: LockSets, t: TxnId) {
    TableInv(table) && Covered(table, sets, t) && KindsMatch(sets)
  }

  lemma InStepFrame(table: LockTable, table': LockTable, sets: LockSets, u: TxnId)
    requires InStep(table, sets, u) && TableInv(table')
    requires forall id :: Held(table', id, u) == Held(table, id, u)
    ensures InStep(table', sets, u)
  {
    hide Held, TableInv;
  }

  lemma AddKeepsKinds(sets: LockSets, mode: LockMode, id: LockDataId)
    requires KindsMatch(sets) && (id.Row? ==> mode in {Shared, Exclusive})
    ensures KindsMatch(AddLock(sets, mode, id))
  {
  }

  /** A lock call of a transaction keeps it in step, aborted or not. */
  lemma LockOnKeepsInStep(table: LockTable, v: TxnView, t: TxnId, id: LockDataId, mode: LockMode)
    requires InStep(table, v.sets, t)
    ensures var (table', v', _) := LockOn(table, v, t, id, mode); InStep(table', v'.sets, t)
  {
    var (table', v', ok) := LockOn(table, v, t, id, mode);
    LockOnEffect(table, v, t, id, mode);
    assert v'.sets == if ok then AddLock(v.sets, mode, id) else v.sets;
    hide LockOn, Held, TableInv, KindsMatch;
    if ok { AddKeepsKinds(v.sets, mode, id); }
    forall other | Held(table', other, t).Some?
      ensures other in SetOf(v'.sets, (Kind(other), Held(table', other, t).value))
    {
      assert other != id ==> Held(table', other, t) == Held(table, other, t);
    }
  }

  /** An unlock call does, too. */
  lemma UnlockOnKeepsInStep(table: LockTable, v: TxnView, t: TxnId, id: LockDataId)
    requires InStep(table, v.sets, t)
    ensures var (table', v') := UnlockOn(table, v, t, id); InStep(table', v'.sets, t)
  {
    UnlockOnEffect(table, v, t, id);
    assert UnlockOn(table, v, t, id).1.sets == EraseLock(v.sets, id);
    hide UnlockOn, Held;
  }

  /** And neither call disturbs another transaction. */
  lemma OthersStayInStep(table: LockTable, v: TxnView, t: TxnId, id: LockDataId, mode: LockMode, sets: LockSets, u: TxnId)
    requires u != t && InStep(table, sets, u)
    ensures InStep(LockOn(table, v, t, id, mode).0, sets, u)
    ensures InStep(UnlockOn(table, v, t, id).0, sets, u)
  {
    LockOnEffect(table, v, t, id, mode);
    UnlockOnEffect(table, v, t, id);
    hide LockOn, UnlockOn, Held;
    InStepFrame(table, LockOn(table, v, t, id, mode).0, sets, u);
    InStepFrame(table, UnlockOn(table, v, t, id).0, sets, u);
  }

  /** One turn of a release loop: the item leaves every lock set, the rest keeps its cover. */
  lemma ReleaseStep(table: LockTable, v: TxnView, t: TxnId, id: LockDataId)
    requires TableInv(table) && Covered(table, v.sets, t)
    ensures var (table', v') := UnlockOn(table, v, t, id);
            && TableInv(table') && Covered(table', v'.sets, t)
            && (forall k :: SetOf(v'.sets, k) == if k.0 == Kind(id) then SetOf(v.sets, k) - {id} else SetOf(v.sets, k))
            && (forall other, u :: u != t ==> Held(table', other, u) == Held(table, other, u))
    ensures Backed(table, v, t) ==> Backed(UnlockOn(table, v, t, id).0, UnlockOn(table, v, t, id).1, t)
    ensures Backed(table, v, t) && v.state != Aborted && (exists k :: id in SetOf(v.sets, k)) ==>
              UnlockOn(table, v, t, id).1.state != Aborted
  {
    UnlockOnEffect(table, v, t, id);
    if Backed(table, v, t) {
      UnlockOnKeepsCover(table, v, t, id);
    }
  }

  // ---------------------------------------------------------------------------
  // The lock manager
  // ---------------------------------------------------------------------------

  /** The order of the twelve loops of ReleaseLocks. */
  const RELEASE_ORDER: seq<(LockKind, LockMode)> := [
    (RowKind, Shared), (RowKind, Exclusive),
    (PartitionKind, Shared), (PartitionKind, IntentionShared), (PartitionKind, IntentionExclusive),
    (PartitionKind, SharedIntentionExclusive), (PartitionKind, Exclusive),
    (TableKind, Shared), (TableKind, IntentionShared), (TableKind, IntentionExclusive),
    (TableKind, SharedIntentionExclusive), (TableKind, Exclusive)
  ]

  function ReleasePosition(k: (LockKind, LockMode)): (j: nat)
    requires k.0 == RowKind ==> k.1 in {Shared, Exclusive}
    ensures j < |RELEASE_ORDER| && RELEASE_ORDER[j] == k
  {
    match k
    case (RowKind, Shared) => 0
    case (RowKind, _) => 1
    case (PartitionKind, Shared) => 2
    case (PartitionKind, IntentionShared) => 3
    case (PartitionKind, IntentionExclusive) => 4
    case (PartitionKind, SharedIntentionExclusive) => 5
    case (PartitionKind, Exclusive) => 6
    case (TableKind, Shared) => 7
    case (TableKind, IntentionShared) => 8
    case (TableKind, IntentionExclusive) => 9
    case (TableKind, SharedIntentionExclusive) => 10
    case (TableKind, Exclusive) => 11
  }

  /** The twelve loops miss no lock set: rows are only ever locked in two modes. */
  lemma EveryLockSetIsReleased(sets: LockSets)
    requires forall j :: 0 <= j < |RELEASE_ORDER| ==> SetOf(sets, RELEASE_ORDER[j]) == {}
    requires forall k, id :: id in SetOf(sets, k) ==> Kind(id) == k.0 && (id.Row? ==> k.1 in {Shared, Exclusive})
    ensures forall k :: SetOf(sets, k) == {}
  {
    forall k
      ensures SetOf(sets, k) == {}
    {
      if k.0 == RowKind && k.1 !in {Shared, Exclusive} {
        forall id
          ensures id !in SetOf(sets, k)
        {
          assert Kind(id) == RowKind <==> id.Row?;
        }
      } else {
        assert RELEASE_ORDER[ReleasePosition(k)] == k;
      }
    }
  }

  /** Empty lock sets cover only what is not held. */
  lemma NothingHeld(table: LockTable, sets: LockSets, t: TxnId)
    requires Covered(table, sets, t) && forall k :: SetOf(sets, k) == {}
    ensures forall id :: Held(table, id, t).None?
  {
  }

  class Manager {
    var lockMap: LockTable

    constructor ()
      ensures lockMap == map[]
    {
      lockMap := map[];
    }

    method CheckQueueCompatible(rs: seq<LockRequest>, i: nat) returns (ok: bool)
      requires i < |rs|
      ensures ok <==> QueueCompatible(rs, i)
    {
      for j := 0 to |rs|
        invariant forall k :: 0 <= k < j && k != i && rs[k].granted ==> Compatible(rs[k].mode, rs[i].mode)
      {
        if j != i && rs[j].granted && !Compatible(rs[j].mode, rs[i].mode) {
          return false;
        }
      }
      return true;
    }

    /** Answers whether the transaction already had a request on the item; when it had, the request
        is granted, upgraded, or the transaction is aborted. */
    method CheckSameTxnLockRequest(txn: Transaction, id: LockDataId, mode: LockMode) returns (handled: bool)
      requires txn.state == Growing && id in lockMap
      modifies this, txn`state
      ensures handled <==> Find(old(lockMap)[id].requests, txn.txnId) < |old(lockMap)[id].requests|
      ensures !handled ==> lockMap == old(lockMap) && txn.state == Growing
      ensures handled ==>
                var (q, ok) := LockCall(old(lockMap)[id], txn.txnId, mode);
                lockMap == old(lockMap)[id := q] && txn.state == if ok then Growing else Aborted
    {
      var q := lockMap[id];
      for i := 0 to |q.requests|
        invariant forall j :: 0 <= j < i ==> q.requests[j].txnId != txn.txnId
        invariant lockMap == old(lockMap) && txn.state == Growing
      {
        var r := q.requests[i];
        if r.txnId == txn.txnId {
          assert i == Find(q.requests, txn.txnId);
          if r.mode == mode && r.granted {
          } else if r.mode == mode {
            var ok := CheckQueueCompatible(q.requests, i);
            if ok {
              lockMap := lockMap[id := q.(requests := q.requests[i := r.(granted := true)])];
            } else {
              txn.state := Aborted;
            }
          } else if q.upgrading || !Upgradable(r.mode, mode) {
            txn.state := Aborted;
          } else {
            var up := q.requests[i := LockRequest(r.txnId, mode, false)];
            lockMap := lockMap[id := LockRequestQueue(up, true)];
            var ok := CheckQueueCompatible(up, i);
            if ok {
              lockMap := lockMap[id := LockRequestQueue(up[i := LockRequest(r.txnId, mode, true)], false)];
            } else {
              txn.state := Aborted;
            }
          }
          return true;
        }
      }
      return false;
    }

    /** The common body of the three lock calls after the state checks. */
    method Acquire(txn: Transaction, id: LockDataId, mode: LockMode) returns (ok: bool)
      requires txn.state == Growing
      modifies this, txn`state, txn`sets
      ensures (lockMap, txn.View(), ok) ==
                var (q, granted) := LockCall(QueueOf(old(lockMap), id), txn.txnId, mode);
                (old(lockMap)[id := q],
                 if granted then TxnView(Growing, AddLock(old(txn.sets), mode, id)) else TxnView(Aborted, old(txn.sets)),
                 granted)
    {
      if id !in lockMap {
        lockMap := lockMap[id := EMPTY_QUEUE];
      }
      assert lockMap == old(lockMap)[id := QueueOf(old(lockMap), id)];
      var handled := CheckSameTxnLockRequest(txn, id, mode);
      if handled {
        assert lockMap == old(lockMap)[id := LockCall(QueueOf(old(lockMap), id), txn.txnId, mode).0];
        if txn.state == Aborted {
          return false;
        }
        if id !in SetOf(txn.sets, (Kind(id), mode)) {
          txn.sets := AddLock(txn.sets, mode, id);
        } else {
          assert SetOf(txn.sets, (Kind(id), mode)) + {id} == SetOf(txn.sets, (Kind(id), mode));
          assert AddLock(txn.sets, mode, id) == txn.sets;
        }
        return true;
      }
      var q := lockMap[id];
      var i := |q.requests|;
      var added := q.requests + [LockRequest(txn.txnId, mode, false)];
      lockMap := lockMap[id := q.(requests := added)];
      ok := CheckQueueCompatible(added, i);
      if ok {
        lockMap := lockMap[id := q.(requests := added[i := LockRequest(txn.txnId, mode, true)])];
        assert lockMap == old(lockMap)[id := LockCall(q, txn.txnId, mode).0];
        txn.sets := AddLock(txn.sets, mode, id);
      } else {
        assert lockMap == old(lockMap)[id := LockCall(q, txn.txnId, mode).0];
        txn.state := Aborted;
      }
    }

    method Lock(txn: Transaction, id: LockDataId, mode: LockMode) returns (ok: bool)
      modifies this, txn`state, txn`sets
      ensures (lockMap, txn.View(), ok) == LockOn(old(lockMap), old(txn.View()), txn.txnId, id, mode)
    {
      if txn.state == Default {
        txn.state := Growing;
      }
      if txn.state != Growing {
        txn.state := Aborted;
        return false;
      }
      if id.Row? && mode != Shared && mode != Exclusive {
        txn.state := Aborted;
        return false;
      }
      ok := Acquire(txn, id, mode);
    }

    method Unlock(txn: Transaction, id: LockDataId)
      modifies this, txn`state, txn`sets
      ensures (lockMap, txn.View()) == UnlockOn(old(lockMap), old(txn.View()), txn.txnId, id)
    {
      var q := QueueOf(lockMap, id);
      if txn.state == Growing {
        txn.state := Shrinking;
      }
      var i := 0;
      while i < |q.requests| && !(q.requests[i].txnId == txn.txnId && q.requests[i].granted)
        invariant i <= |q.requests|
        invariant forall j :: 0 <= j < i ==> !(q.requests[j].txnId == txn.txnId && q.requests[j].granted)
      {
        i := i + 1;
      }
      assert i == FindGranted(q.requests, txn.txnId);
      if i == |q.requests| {
        lockMap := lockMap[id := q];
        txn.state := Aborted;
      } else {
        lockMap := lockMap[id := q.(requests := q.requests[..i] + q.requests[i+1..])];
      }
      txn.sets := EraseLock(txn.sets, id);
    }

    /** One of the twelve loops of ReleaseLocks: unlock every item of one lock set. */
    method ReleaseSet(txn: Transaction, k: (LockKind, LockMode))
      requires TableInv(lockMap) && Covered(lockMap, txn.sets, txn.txnId)
      requires forall id :: id in SetOf(txn.sets, k) ==> Kind(id) == k.0
      modifies this, txn`state, txn`sets
      ensures TableInv(lockMap) && Covered(lockMap, txn.sets, txn.txnId)
      ensures SetOf(txn.sets, k) == {}
      ensures forall j :: SetOf(txn.sets, j) <= SetOf(old(txn.sets), j)
      ensures forall id, u :: u != txn.txnId ==> Held(lockMap, id, u) == old(Held(lockMap, id, u))
      ensures old(Backed(lockMap, txn.View(), txn.txnId)) ==>
                Backed(lockMap, txn.View(), txn.txnId) && (old(txn.state) != Aborted ==> txn.state != Aborted)
    {
      while SetOf(txn.sets, k) != {}
        invariant TableInv(lockMap) && Covered(lockMap, txn.sets, txn.txnId)
        invariant forall j :: SetOf(txn.sets, j) <= SetOf(old(txn.sets), j)
        invariant forall id, u :: u != txn.txnId ==> Held(lockMap, id, u) == old(Held(lockMap, id, u))
        invariant old(Backed(lockMap, txn.View(), txn.txnId)) ==>
                    Backed(lockMap, txn.View(), txn.txnId) && (old(txn.state) != Aborted ==> txn.state != Aborted)
        decreases SetOf(txn.sets, k)
      {
        var id :| id in SetOf(txn.sets, k);
        ReleaseStep(lockMap, txn.View(), txn.txnId, id);
        Unlock(txn, id);
      }
    }

    /** ReleaseLocks: rows, then partitions, then tables. Nothing of the transaction stays granted,
        nobody else's grant changes, and a transaction that had not aborted does not abort now. */
    method ReleaseLocks(txn: Transaction)
      requires TableInv(lockMap) && Covered(lockMap, txn.sets, txn.txnId)
      requires forall k, id :: id in SetOf(txn.sets, k) ==> Kind(id) == k.0 && (id.Row? ==> k.1 in {Shared, Exclusive})
      modifies this, txn`state, txn`sets
      ensures TableInv(lockMap)
      ensures forall k :: SetOf(txn.sets, k) == {}
      ensures forall id :: Held(lockMap, id, txn.txnId).None?
      ensures forall id, u :: u != txn.txnId ==> Held(lockMap, id, u) == old(Held(lockMap, id, u))
      ensures old(Backed(lockMap, txn.View(), txn.txnId)) && old(txn.state) != Aborted ==> txn.state != Aborted
    {
      hide TableInv, Covered, Backed, Held;
      for i := 0 to |RELEASE_ORDER|
        invariant TableInv(lockMap) && Covered(lockMap, txn.sets, txn.txnId)
        invariant forall j :: SetOf(txn.sets, j) <= SetOf(old(txn.sets), j)
        invariant forall j :: 0 <= j < i ==> SetOf(txn.sets, RELEASE_ORDER[j]) == {}
        invariant forall id, u :: u != txn.txnId ==> Held(lockMap, id, u) == old(Held(lockMap, id, u))
        invariant old(Backed(lockMap, txn.View(), txn.txnId)) && old(txn.state) != Aborted ==>
                    Backed(lockMap, txn.View(), txn.txnId) && txn.state != Aborted
      {
        ReleaseSet(txn, RELEASE_ORDER[i]);
      }
      EveryLockSetIsReleased(txn.sets);
      NothingHeld(lockMap, txn.sets, txn.txnId);
    }
  }
}
