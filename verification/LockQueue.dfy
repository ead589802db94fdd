/** Lock modes, lock requests and the request queue of one lockable item
    (src/transaction/Lock_manager.cpp, include/transaction/Lock_manager.h). */
module LockQueue {
  import opened Common

  /** Identifiers are only ever compared. */
  type TxnId = nat

  datatype LockMode = Shared | Exclusive | IntentionShared | IntentionExclusive | SharedIntentionExclusive

  /** May a request for `target` be granted beside a granted request in mode `held`? */
  predicate Compatible(held: LockMode, target: LockMode) {
    match target
    case IntentionShared => held != Exclusive
    case IntentionExclusive => held == IntentionShared || held == IntentionExclusive
    case Shared => held == IntentionShared || held == Shared
    case SharedIntentionExclusive => held == IntentionShared
    case Exclusive => false
  }

  /** May a request in mode `from` be rewritten to mode `to`? */
  predicate Upgradable(from: LockMode, to: LockMode) {
    match from
    case IntentionShared => to != IntentionShared
    case Shared => to == Exclusive || to == SharedIntentionExclusive
    case IntentionExclusive => to == Exclusive || to == SharedIntentionExclusive
    case SharedIntentionExclusive => to == Exclusive
    case Exclusive => false
  }

  /** The modes another transaction cannot be granted while `mode` is held. */
  function Conflicts(mode: LockMode): set<LockMode> {
    set m: LockMode | !Compatible(mode, m)
  }

  lemma ConflictsListed(mode: LockMode)
    ensures Shared in Conflicts(mode) <==> !Compatible(mode, Shared)
    ensures IntentionShared in Conflicts(mode) <==> !Compatible(mode, IntentionShared)
    ensures IntentionExclusive in Conflicts(mode) <==> !Compatible(mode, IntentionExclusive)
    ensures SharedIntentionExclusive in Conflicts(mode) <==> !Compatible(mode, SharedIntentionExclusive)
    ensures Exclusive in Conflicts(mode)
  {
  }

  /** The upgrade table is exactly "strictly more conflicts": a permitted upgrade never makes room
      for a request that the old mode kept out, and every such change of mode is permitted. */
  lemma UpgradeIffMoreConflicts(from: LockMode, to: LockMode)
    ensures Upgradable(from, to) <==> Conflicts(from) < Conflicts(to)
  {
    ConflictsListed(from);
    ConflictsListed(to);
  }

  // ---------------------------------------------------------------------------
  // The request queue
  // ---------------------------------------------------------------------------

  datatype LockRequest = LockRequest(txnId: TxnId, mode: LockMode, granted: bool)

  datatype LockRequestQueue = LockRequestQueue(requests: seq<LockRequest>, upgrading: bool)

  const EMPTY_QUEUE := LockRequestQueue([], false)

  /** Position of the first request of transaction `t`, or |rs|. */
  function Find(rs: seq<LockRequest>, t: TxnId): (i: nat)
    ensures i <= |rs|
    ensures i < |rs| ==> rs[i].txnId == t
    ensures forall j :: 0 <= j < i ==> rs[j].txnId != t
  {
    if |rs| == 0 then 0 else if rs[0].txnId == t then 0 else 1 + Find(rs[1..], t)
  }

  /** Position of the first granted request of transaction `t`, or |rs|. */
  function FindGranted(rs: seq<LockRequest>, t: TxnId): (i: nat)
    ensures i <= |rs|
    ensures i < |rs| ==> rs[i].txnId == t && rs[i].granted
    ensures forall j :: 0 <= j < i ==> !(rs[j].txnId == t && rs[j].granted)
  {
    if |rs| == 0 then 0 else if rs[0].txnId == t && rs[0].granted then 0 else 1 + FindGranted(rs[1..], t)
  }

  /** checkQueueCompatible: request `i` against every other granted request. */
  predicate QueueCompatible(rs: seq<LockRequest>, i: nat)
    requires i < |rs|
  {
    forall j :: 0 <= j < |rs| && j != i && rs[j].granted ==> Compatible(rs[j].mode, rs[i].mode)
  }

  /** What every queue keeps: one request per transaction, granted requests pairwise compatible. */
  ghost predicate QueueInv(q: LockRequestQueue) {
    && (forall i, j :: 0 <= i < j < |q.requests| ==> q.requests[i].txnId != q.requests[j].txnId)
    && (forall i, j :: 0 <= i < |q.requests| && 0 <= j < |q.requests| && i != j
                       && q.requests[i].granted && q.requests[j].granted
                       ==> Compatible(q.requests[i].mode, q.requests[j].mode))
  }

  /** The mode in which `t` holds a granted request, if any. */
  function GrantedMode(q: LockRequestQueue, t: TxnId): Option<LockMode> {
    var i := FindGranted(q.requests, t);
    if i < |q.requests| then Some(q.requests[i].mode) else None
  }

  /** Different transactions only ever hold compatible modes. */
  lemma HoldersAreCompatible(q: LockRequestQueue, t: TxnId, u: TxnId)
    requires QueueInv(q) && t != u
    requires GrantedMode(q, t).Some? && GrantedMode(q, u).Some?
    ensures Compatible(GrantedMode(q, t).value, GrantedMode(q, u).value)
  {
  }

  // ---------------------------------------------------------------------------
  // Atomic queue steps, as a waiting transaction takes them
  // ---------------------------------------------------------------------------

  datatype QueueStep =
    | Enqueue(t: TxnId, mode: LockMode)      // append an ungranted request
    | BeginUpgrade(t: TxnId, mode: LockMode) // rewrite the mode and give up the grant
    | Grant(t: TxnId)                        // the wait ends with a compatible queue
    | Remove(t: TxnId)                       // Unlock

  predicate StepEnabled(q: LockRequestQueue, s: QueueStep) {
    var rs := q.requests;
    var i := Find(rs, s.t);
    match s
    case Enqueue(t, mode) => i == |rs|
    case BeginUpgrade(t, mode) => i < |rs| && rs[i].mode != mode && !q.upgrading && Upgradable(rs[i].mode, mode)
    case Grant(t) => i < |rs| && !rs[i].granted && QueueCompatible(rs, i)
    case Remove(t) => i < |rs| && rs[i].granted
  }

  /** `ownUpgrade` says whether a grant ends an upgrade; only then is the flag cleared. */
  function StepQueue(q: LockRequestQueue, s: QueueStep, ownUpgrade: bool): LockRequestQueue
    requires StepEnabled(q, s)
  {
    var rs := q.requests;
    var i := Find(rs, s.t);
    match s
    case Enqueue(t, mode) => q.(requests := rs + [LockRequest(t, mode, false)])
    case BeginUpgrade(t, mode) => LockRequestQueue(rs[i := LockRequest(t, mode, false)], true)
    case Grant(t) => LockRequestQueue(rs[i := rs[i].(granted := true)], if ownUpgrade then false else q.upgrading)
    case Remove(t) => q.(requests := rs[..i] + rs[i+1..])
  }

  lemma StepKeepsQueueInv(q: LockRequestQueue, s: QueueStep, ownUpgrade: bool)
    requires QueueInv(q) && StepEnabled(q, s)
    ensures QueueInv(StepQueue(q, s, ownUpgrade))
  {
    if s.Grant? {
      var i := Find(q.requests, s.t);
      forall j | 0 <= j < |q.requests| && j != i && q.requests[j].granted
        ensures Compatible(q.requests[i].mode, q.requests[j].mode)
      {
        assert Compatible(q.requests[j].mode, q.requests[i].mode);
      }
    }
  }

  /** The queue that a sequence of steps builds from the empty queue; None once a step is not enabled. */
  function RunQueue(steps: seq<(QueueStep, bool)>): Option<LockRequestQueue> {
    if |steps| == 0 then Some(EMPTY_QUEUE) else
      var (s, ownUpgrade) := steps[|steps| - 1];
      match RunQueue(steps[..|steps| - 1])
      case Some(q) => if StepEnabled(q, s) then Some(StepQueue(q, s, ownUpgrade)) else None
      case None => None
  }

  /** Lock safety in both modes: every queue that any interleaving of waiting, upgrading and granted
      requests reaches has pairwise compatible holders and one request per transaction. */
  lemma {:induction false} EveryQueueRunIsSafe(steps: seq<(QueueStep, bool)>)
    requires RunQueue(steps).Some?
    ensures QueueInv(RunQueue(steps).value)
  {
    if |steps| > 0 {
      var (s, ownUpgrade) := steps[|steps| - 1];
      EveryQueueRunIsSafe(steps[..|steps| - 1]);
      StepKeepsQueueInv(RunQueue(steps[..|steps| - 1]).value, s, ownUpgrade);
    }
  }

  // ---------------------------------------------------------------------------
  // The no-wait lock call on one queue
  // ---------------------------------------------------------------------------

  /** One lock call in no-wait mode; the wait predicate is always true there, so the call is atomic.
      A refused request stays queued ungranted, and a refused upgrade leaves `upgrading` set. */
  function LockCall(q: LockRequestQueue, t: TxnId, mode: LockMode): (r: (LockRequestQueue, bool)) {
    var rs := q.requests;
    var i := Find(rs, t);
    if i < |rs| then
      if rs[i].mode == mode && rs[i].granted then (q, true)
      else if rs[i].mode == mode then
        if QueueCompatible(rs, i) then (q.(requests := rs[i := rs[i].(granted := true)]), true) else (q, false)
      else if q.upgrading || !Upgradable(rs[i].mode, mode) then (q, false)
      else
        var up := rs[i := LockRequest(t, mode, false)];
        if QueueCompatible(up, i) then (LockRequestQueue(up[i := LockRequest(t, mode, true)], false), true)
        else (LockRequestQueue(up, true), false)
    else
      var added := rs + [LockRequest(t, mode, false)];
      if QueueCompatible(added, i) then (q.(requests := added[i := LockRequest(t, mode, true)]), true)
      else (q.(requests := added), false)
  }

  /** Unlock: drop the granted request of `t`; the flag says whether there was one. */
  function UnlockCall(q: LockRequestQueue, t: TxnId): (r: (LockRequestQueue, bool)) {
    var i := FindGranted(q.requests, t);
    if i == |q.requests| then (q, false) else (q.(requests := q.requests[..i] + q.requests[i+1..]), true)
  }

  lemma FindAppended(rs: seq<LockRequest>, r: LockRequest)
    requires Find(rs, r.txnId) == |rs|
    ensures Find(rs + [r], r.txnId) == |rs|
  {
    forall j | 0 <= j < |rs|
      ensures (rs + [r])[j].txnId != r.txnId
    {
      assert (rs + [r])[j] == rs[j];
    }
    assert (rs + [r])[|rs|] == r;
  }

  lemma FindUpdated(rs: seq<LockRequest>, i: nat, r: LockRequest)
    requires i < |rs| && i == Find(rs, r.txnId)
    ensures Find(rs[i := r], r.txnId) == i
  {
    assert rs[i := r][i] == r;
  }

  /** The no-wait call is a run of the waiting-mode steps, so it keeps the same invariant. */
  lemma LockCallKeepsQueueInv(q: LockRequestQueue, t: TxnId, mode: LockMode)
    requires QueueInv(q)
    ensures QueueInv(LockCall(q, t, mode).0)
  {
    var i := Find(q.requests, t);
    if i == |q.requests| {
      var q1 := StepQueue(q, Enqueue(t, mode), false);
      StepKeepsQueueInv(q, Enqueue(t, mode), false);
      FindAppended(q.requests, LockRequest(t, mode, false));
      if QueueCompatible(q1.requests, i) { StepKeepsQueueInv(q1, Grant(t), false); }
    } else if q.requests[i].mode == mode {
      if !q.requests[i].granted && QueueCompatible(q.requests, i) { StepKeepsQueueInv(q, Grant(t), false); }
    } else if !q.upgrading && Upgradable(q.requests[i].mode, mode) {
      var q1 := StepQueue(q, BeginUpgrade(t, mode), false);
      StepKeepsQueueInv(q, BeginUpgrade(t, mode), false);
      FindUpdated(q.requests, i, LockRequest(t, mode, false));
      if QueueCompatible(q1.requests, i) { StepKeepsQueueInv(q1, Grant(t), true); }
    }
  }

  lemma UnlockCallKeepsQueueInv(q: LockRequestQueue, t: TxnId)
    requires QueueInv(q)
    ensures QueueInv(UnlockCall(q, t).0)
  {
  }

  /** With one request per transaction the granted request is the only request. */
  lemma OwnGrant(q: LockRequestQueue, t: TxnId, i: nat)
    requires QueueInv(q) && i == Find(q.requests, t)
    ensures GrantedMode(q, t) == if i < |q.requests| && q.requests[i].granted then Some(q.requests[i].mode) else None
  {
  }

  /** A request of somebody else at one place makes no difference to the grant of `u`. */
  lemma GrantElsewhere(rs: seq<LockRequest>, rs': seq<LockRequest>, i: nat, u: TxnId)
    requires |rs| <= |rs'| <= |rs| + 1 && i < |rs'| && (|rs'| > |rs| ==> i == |rs|)
    requires forall j :: 0 <= j < |rs| && j != i ==> rs'[j] == rs[j]
    requires rs'[i].txnId != u && (i < |rs| ==> rs[i].txnId != u)
    ensures GrantedMode(LockRequestQueue(rs', false), u) == GrantedMode(LockRequestQueue(rs, false), u)
  {
    var j, k := FindGranted(rs, u), FindGranted(rs', u);
    assert k < |rs'| ==> rs'[k] == rs[k];
    assert j < |rs| ==> rs'[j] == rs[j];
  }

  /** Writing the one request of a transaction changes that transaction's grant and no other. */
  lemma Rewritten(q: LockRequestQueue, q': LockRequestQueue, i: nat, r: LockRequest)
    requires QueueInv(q) && i == Find(q.requests, r.txnId)
    requires q'.requests == if i < |q.requests| then q.requests[i := r] else q.requests + [r]
    ensures GrantedMode(q', r.txnId) == if r.granted then Some(r.mode) else None
    ensures forall u :: u != r.txnId ==> GrantedMode(q', u) == GrantedMode(q, u)
  {
    var rs, rs' := q.requests, q'.requests;
    assert rs'[i] == r;
    assert forall j :: 0 <= j < |rs| && j != i ==> rs'[j] == rs[j] && rs[j].txnId != r.txnId;
    assert FindGranted(rs', r.txnId) == if r.granted then i else |rs'|;
    forall u | u != r.txnId
      ensures GrantedMode(q', u) == GrantedMode(q, u)
    {
      GrantElsewhere(rs, rs', i, u);
    }
  }

  /** Everything the callers of a lock call rely on: a success holds exactly the requested mode,
      which is never weaker than what was held; a refusal keeps the old grant or loses it; nobody
      else's grant changes. */
  lemma LockCallGrants(q: LockRequestQueue, t: TxnId, mode: LockMode)
    requires QueueInv(q)
    ensures var (q', ok) := LockCall(q, t, mode);
            var (before, after) := (GrantedMode(q, t), GrantedMode(q', t));
            && (ok ==> after == Some(mode) && (before.None? || before.value == mode || Upgradable(before.value, mode)))
            && (!ok ==> after == before || (after.None? && before != Some(Exclusive)))
    ensures forall u :: u != t ==> GrantedMode(LockCall(q, t, mode).0, u) == GrantedMode(q, u)
  {
    var rs := q.requests;
    var i := Find(rs, t);
    var q' := LockCall(q, t, mode).0;
    hide QueueInv, QueueCompatible, GrantedMode, Find;
    if i == |rs| {
      OwnGrant(q, t, i);
      var r := if LockCall(q, t, mode).1 then LockRequest(t, mode, true) else LockRequest(t, mode, false);
      assert q'.requests == rs + [r];
      Rewritten(q, q', i, r);
    } else {
      OwnGrant(q, t, i);
      if q' != q {
        assert q'.requests == rs[i := q'.requests[i]];
        Rewritten(q, q', i, q'.requests[i]);
      }
    }
  }

  /** Taking out the one request of a transaction leaves it no grant. */
  lemma NothingStaysGranted(rs: seq<LockRequest>, i: nat)
    requires i < |rs| && forall x, y :: 0 <= x < y < |rs| ==> rs[x].txnId != rs[y].txnId
    ensures GrantedMode(LockRequestQueue(rs[..i] + rs[i + 1..], false), rs[i].txnId).None?
  {
    var rs' := rs[..i] + rs[i + 1..];
    assert forall j :: 0 <= j < |rs'| ==> rs'[j] == rs[if j < i then j else j + 1];
  }

  /** Taking out a request of somebody else changes no grant of `u`. */
  lemma OthersStayGranted(rs: seq<LockRequest>, i: nat, u: TxnId)
    requires i < |rs| && rs[i].txnId != u
    requires forall x, y :: 0 <= x < y < |rs| ==> rs[x].txnId != rs[y].txnId
    ensures var rs' := rs[..i] + rs[i + 1..];
            GrantedMode(LockRequestQueue(rs', false), u) == GrantedMode(LockRequestQueue(rs, false), u)
  {
    var rs' := rs[..i] + rs[i + 1..];
    var j, k := FindGranted(rs, u), FindGranted(rs', u);
    assert j < |rs| ==> rs'[if j < i then j else j - 1] == rs[j];
    assert k < |rs'| ==> rs'[k] == rs[if k < i then k else k + 1];
  }

  lemma UnlockCallGrants(q: LockRequestQueue, t: TxnId)
    requires QueueInv(q)
    ensures GrantedMode(UnlockCall(q, t).0, t).None?
    ensures UnlockCall(q, t).1 == GrantedMode(q, t).Some?
    ensures forall u :: u != t ==> GrantedMode(UnlockCall(q, t).0, u) == GrantedMode(q, u)
  {
    var i := FindGranted(q.requests, t);
    hide FindGranted;
    if i < |q.requests| {
      NothingStaysGranted(q.requests, i);
      forall u | u != t
        ensures GrantedMode(UnlockCall(q, t).0, u) == GrantedMode(q, u)
      {
        OthersStayGranted(q.requests, i, u);
      }
    }
  }

  // ---------------------------------------------------------------------------
  // When a call succeeds, and what it leaves behind
  // ---------------------------------------------------------------------------

  /** The modes that read the whole item, that write all of it, and that write in it. */
  predicate ReadsAll(m: LockMode) {
    m in {Shared, SharedIntentionExclusive, Exclusive}
  }

  predicate WritesAll(m: LockMode) {
    m == Exclusive
  }

  predicate WritesInside(m: LockMode) {
    m in {IntentionExclusive, SharedIntentionExclusive, Exclusive}
  }

  /** The table of compatible modes, from what they are for: two requests go together unless one of them
      writes everything, or one reads everything and the other writes in it. */
  lemma CompatibleIff(a: LockMode, b: LockMode)
    ensures Compatible(a, b) <==>
            !WritesAll(a) && !WritesAll(b) && !(ReadsAll(a) && WritesInside(b)) && !(WritesInside(a) && ReadsAll(b))
  {
  }

  /** The request of `t`, granted or not. */
  function OwnRequest(q: LockRequestQueue, t: TxnId): Option<LockRequest> {
    var i := Find(q.requests, t);
    if i < |q.requests| then Some(q.requests[i]) else None
  }

  /** Whatever others hold leaves room for a request of `t` in `mode`. */
  ghost predicate OthersAllow(q: LockRequestQueue, t: TxnId, mode: LockMode) {
    forall u :: u != t && GrantedMode(q, u).Some? ==> Compatible(GrantedMode(q, u).value, mode)
  }

  /** The test of the code scans requests; it decides whether the other holders leave room. */
  lemma ScanIff(q: LockRequestQueue, i: nat, rs: seq<LockRequest>)
    requires QueueInv(q) && i < |rs| && i == Find(q.requests, rs[i].txnId)
    requires rs == if i < |q.requests| then q.requests[i := rs[i]] else q.requests + [rs[i]]
    ensures QueueCompatible(rs, i) <==> OthersAllow(q, rs[i].txnId, rs[i].mode)
  {
    var t := rs[i].txnId;
    assert forall j :: 0 <= j < |q.requests| && j != i ==> rs[j] == q.requests[j] && rs[j].txnId != t;
    if OthersAllow(q, t, rs[i].mode) {
      forall j | 0 <= j < |rs| && j != i && rs[j].granted
        ensures Compatible(rs[j].mode, rs[i].mode)
      {
        assert FindGranted(q.requests, rs[j].txnId) == j;
        assert GrantedMode(q, rs[j].txnId) == Some(rs[j].mode);
      }
    }
    if QueueCompatible(rs, i) {
      forall u | u != t && GrantedMode(q, u).Some?
        ensures Compatible(GrantedMode(q, u).value, rs[i].mode)
      {
        var j := FindGranted(q.requests, u);
        assert rs[j] == q.requests[j] && j != i;
      }
    }
  }

  /** The scan does not look at the grant of its own request; and a granted request has passed it. */
  lemma RunsAlike(rs: seq<LockRequest>, asked: seq<LockRequest>, i: nat)
    requires i < |rs| && asked == rs[i := rs[i].(granted := false)]
    ensures QueueCompatible(asked, i) <==> QueueCompatible(rs, i)
    ensures QueueInv(LockRequestQueue(rs, false)) && rs[i].granted ==> QueueCompatible(rs, i)
  {
    assert forall j :: 0 <= j < |rs| && j != i ==> asked[j] == rs[j];
  }

  /** Writing the one request of a transaction changes no other request. */
  lemma OwnRewritten(q: LockRequestQueue, q': LockRequestQueue, i: nat, r: LockRequest)
    requires i == Find(q.requests, r.txnId)
    requires q'.requests == if i < |q.requests| then q.requests[i := r] else q.requests + [r]
    ensures OwnRequest(q', r.txnId) == Some(r)
    ensures forall u :: u != r.txnId ==> OwnRequest(q', u) == OwnRequest(q, u)
  {
    var rs, rs' := q.requests, q'.requests;
    assert rs'[i] == r;
    assert forall j :: 0 <= j < |rs| && j != i ==> rs'[j] == rs[j];
    forall u | u != r.txnId
      ensures OwnRequest(q', u) == OwnRequest(q, u)
    {
      var j, k := Find(rs, u), Find(rs', u);
      assert k < |rs'| ==> rs'[k] == rs[k];
      assert j < |rs| ==> rs'[j] == rs[j];
    }
  }

  /** An upgrade begins where the queue has none pending and the new mode is a permitted one. */
  predicate BeginsUpgrade(q: LockRequestQueue, own: Option<LockRequest>, mode: LockMode) {
    own.Some? && own.value.mode != mode && !q.upgrading && Upgradable(own.value.mode, mode)
  }

  /** A lock call succeeds if and only if the other holders leave room and the caller has no request, one in
      this mode, or one that may be upgraded now. The request stays behind, granted or not, and the flag stays
      set after an upgrade that was begun and refused. */
  lemma LockCallSucceedsIff(q: LockRequestQueue, t: TxnId, mode: LockMode)
    requires QueueInv(q)
    ensures var ((q', ok), own) := (LockCall(q, t, mode), OwnRequest(q, t));
            var asks := own.None? || own.value.mode == mode || BeginsUpgrade(q, own, mode);
            && (ok <==> asks && OthersAllow(q, t, mode))
            && OwnRequest(q', t) == (if asks then Some(LockRequest(t, mode, ok)) else own)
            && (q'.upgrading <==> q.upgrading || (BeginsUpgrade(q, own, mode) && !ok))
    ensures forall u :: u != t ==> OwnRequest(LockCall(q, t, mode).0, u) == OwnRequest(q, u)
  {
    var (rs, q') := (q.requests, LockCall(q, t, mode).0);
    var i := Find(rs, t);
    var r := LockRequest(t, mode, false);
    var asked := if i < |rs| then rs[i := r] else rs + [r];
    ScanIff(q, i, asked);
    if i < |rs| && rs[i].mode == mode { RunsAlike(rs, asked, i); }
    hide QueueInv, QueueCompatible, OthersAllow, Find;
    if q' != q {
      OwnRewritten(q, q', i, q'.requests[i]);
    }
  }

  lemma HoldersLeaveRoom(q: LockRequestQueue, t: TxnId)
    requires QueueInv(q) && GrantedMode(q, t).Some?
    ensures OthersAllow(q, t, GrantedMode(q, t).value)
  {
    forall u | u != t && GrantedMode(q, u).Some?
      ensures Compatible(GrantedMode(q, u).value, GrantedMode(q, t).value)
    {
      HoldersAreCompatible(q, u, t);
    }
  }

  /** In particular: a newcomer succeeds if and only if every holder leaves room, and a holder, unless an upgrade
      is pending, if and only if it has the mode already, or may upgrade and every other holder leaves room. */
  lemma NewcomerAndHolder(q: LockRequestQueue, t: TxnId, mode: LockMode)
    requires QueueInv(q)
    ensures OwnRequest(q, t).None? ==> (LockCall(q, t, mode).1 <==> OthersAllow(q, t, mode))
    ensures GrantedMode(q, t).Some? && !q.upgrading ==>
              (LockCall(q, t, mode).1 <==>
               GrantedMode(q, t).value == mode || (Upgradable(GrantedMode(q, t).value, mode) && OthersAllow(q, t, mode)))
  {
    LockCallSucceedsIff(q, t, mode);
    OwnGrant(q, t, Find(q.requests, t));
    hide LockCall, OthersAllow, Find;
    if GrantedMode(q, t) == Some(mode) {
      HoldersLeaveRoom(q, t);
    }
  }

  /** In the waiting form, a wait ends exactly where the other holders leave room. */
  lemma GrantIff(q: LockRequestQueue, t: TxnId)
    requires QueueInv(q)
    ensures StepEnabled(q, Grant(t)) <==>
            match OwnRequest(q, t)
            case Some(own) => !own.granted && OthersAllow(q, t, own.mode)
            case None => false
  {
    var i := Find(q.requests, t);
    if i < |q.requests| {
      assert q.requests[i := q.requests[i]] == q.requests;
      ScanIff(q, i, q.requests);
    }
  }

  /** The no-wait call is the waiting form with one look at the queue in place of the wait. */
  lemma LockCallIsSteps(q: LockRequestQueue, t: TxnId, mode: LockMode)
    ensures var own := OwnRequest(q, t);
            var upgrade := BeginsUpgrade(q, own, mode);
            var asked := if own.None? then StepQueue(q, Enqueue(t, mode), false)
                         else if upgrade then StepQueue(q, BeginUpgrade(t, mode), false) else q;
            LockCall(q, t, mode) ==
            if OwnRequest(asked, t) == Some(LockRequest(t, mode, false)) && StepEnabled(asked, Grant(t))
            then (StepQueue(asked, Grant(t), upgrade), true)
            else (asked, own == Some(LockRequest(t, mode, true)))
  {
    var i := Find(q.requests, t);
    if i == |q.requests| {
      FindAppended(q.requests, LockRequest(t, mode, false));
    } else if BeginsUpgrade(q, OwnRequest(q, t), mode) {
      FindUpdated(q.requests, i, LockRequest(t, mode, false));
    }
  }

  /** Taking out a request of somebody else changes no request of `u`. */
  lemma OthersStayAsked(rs: seq<LockRequest>, i: nat, u: TxnId)
    requires i < |rs| && rs[i].txnId != u
    requires forall x, y :: 0 <= x < y < |rs| ==> rs[x].txnId != rs[y].txnId
    ensures OwnRequest(LockRequestQueue(rs[..i] + rs[i + 1..], false), u) == OwnRequest(LockRequestQueue(rs, false), u)
  {
    var rs' := rs[..i] + rs[i + 1..];
    var j, k := Find(rs, u), Find(rs', u);
    assert j < |rs| ==> rs'[if j < i then j else j - 1] == rs[j];
    assert k < |rs'| ==> rs'[k] == rs[if k < i then k else k + 1];
  }

  /** Taking out the one request of a transaction leaves it none. */
  lemma NothingStaysAsked(rs: seq<LockRequest>, i: nat)
    requires i < |rs| && forall x, y :: 0 <= x < y < |rs| ==> rs[x].txnId != rs[y].txnId
    ensures OwnRequest(LockRequestQueue(rs[..i] + rs[i + 1..], false), rs[i].txnId).None?
  {
    var rs' := rs[..i] + rs[i + 1..];
    assert forall j :: 0 <= j < |rs'| ==> rs'[j] == rs[if j < i then j else j + 1];
  }

  /** An unlock call takes a granted request out and leaves every other request and the flag as they are. */
  lemma UnlockCallLeaves(q: LockRequestQueue, t: TxnId)
    requires QueueInv(q)
    ensures var q' := UnlockCall(q, t).0;
            && OwnRequest(q', t) == (if GrantedMode(q, t).Some? then None else OwnRequest(q, t))
            && q'.upgrading == q.upgrading
    ensures forall u :: u != t ==> OwnRequest(UnlockCall(q, t).0, u) == OwnRequest(q, u)
  {
    var i := FindGranted(q.requests, t);
    hide FindGranted, Find;
    if i < |q.requests| {
      NothingStaysAsked(q.requests, i);
      forall u | u != t
        ensures OwnRequest(UnlockCall(q, t).0, u) == OwnRequest(q, u)
      {
        OthersStayAsked(q.requests, i, u);
      }
    }
  }
}
