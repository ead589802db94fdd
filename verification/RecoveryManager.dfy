/** Recovery in place: the chunked scan of redo and the backward walk of undo, proved against the
    functions of the log. */
module RecoveryManagers {
  import opened Common
  import opened SortedEntries
  import opened Encoding
  import opened LogChain
  import opened LogRecords
  import opened LogManagers
  import opened Recoveries

  function Zeros(n: nat): (b: Bytes)
    ensures |b| == n
  {
    seq(n, _ => 0)
  }

  /** What reading `size` bytes from `offset` puts in the buffer: a short read is padded with zeros. */
  function Chunk(file: Bytes, offset: nat, size: nat): (b: Bytes)
    requires offset <= |file|
    ensures |b| == size
  {
    if offset + size <= |file| then file[offset..offset + size]
    else file[offset..] + Zeros(size - (|file| - offset))
  }

  lemma ChunkPiece(file: Bytes, offset: nat, size: nat, x: nat, y: nat)
    requires offset <= |file| && x <= y <= size && offset + y <= |file|
    ensures Chunk(file, offset, size)[x..y] == file[offset + x..offset + y]
  {
  }

  lemma ZerosRead(file: Bytes, offset: nat, inner: nat)
    requires offset <= |file| == offset + inner && inner + 4 <= LOG_BUFFER_SIZE
    ensures U32At(Chunk(file, offset, LOG_BUFFER_SIZE), inner) == 0
  {
    DecodeZeros(Chunk(file, offset, LOG_BUFFER_SIZE)[inner..inner + 4]);
  }

  /** What the scan finds at the place of record `i`, when the record is wholly in the buffer, when only its
      size is, and when the log ends there. */
  lemma ScanAt(rs: seq<LogRecord>, i: nat, offset: nat, inner: nat)
    requires AllLoggable(rs) && i <= |rs|
    requires offset + inner == Offset(rs, i) && inner + 4 <= LOG_BUFFER_SIZE && offset <= |LogBytes(rs)|
    ensures var b := Chunk(LogBytes(rs), offset, LOG_BUFFER_SIZE);
            && U32At(b, inner) == (if i < |rs| then SizeOf(rs[i].op) else 0)
            && (i < |rs| && inner + SizeOf(rs[i].op) <= LOG_BUFFER_SIZE ==> inner + HEADER_SIZE <= LOG_BUFFER_SIZE)
            && (i < |rs| && inner + SizeOf(rs[i].op) <= LOG_BUFFER_SIZE ==> Deserialize(b, inner) == Some(AsRead(rs[i])))
  {
    hide LogBytes, Deserialize, Chunk, Loggable, Encode, RecordBytes;
    var (file, b) := (LogBytes(rs), Chunk(LogBytes(rs), offset, LOG_BUFFER_SIZE));
    if i < |rs| {
      RecordPlace(rs, i);
      var (r, size, at) := (rs[i], SizeOf(rs[i].op), Offset(rs, i));
      assert Loggable(r);
      DeserializeRecord(file, at, r);
      ChunkPiece(file, offset, LOG_BUFFER_SIZE, inner, inner + 4);
      if inner + size <= LOG_BUFFER_SIZE {
        ChunkPiece(file, offset, LOG_BUFFER_SIZE, inner, inner + size);
        DeserializeRecord(b, inner, r);
      }
    } else {
      OffsetEnds(rs);
      ZerosRead(file, offset, inner);
    }
  }

  ghost predicate Maps(mapping: map<int, (nat, nat)>, rs: seq<LogRecord>, n: nat)
    requires AllLoggable(rs) && n <= |rs|
  {
    forall i :: 0 <= i < n ==> i in mapping && mapping[i] == (Offset(rs, i), SizeOf(rs[i].op))
  }

  lemma OneUndone(rs: seq<LogRecord>, us: set<nat>, lo: nat, s: Store)
    requires lo < |rs| && lo in us
    ensures Undone(rs, us, lo, s) == UndoOne(Undone(rs, us, lo + 1, s), rs[lo].op)
    ensures var (e, r) := (Extended(rs, us, lo + 1), rs[lo]);
            Extended(rs, us, lo) ==
              if r.op.Insert? || r.op.Delete? then e + [LogRecord(|e|, r.txn, LastTracked(e, r.txn), Compensation(r.op))] else e
  {
  }

  ghost predicate Ahead(rs: seq<LogRecord>, next: set<int>, i: nat) {
    exists m :: m in next && Reaches(rs, m, i)
  }

  /** The pending set of the walk: everything that is still to be reached lies on the chain of a member. */
  ghost predicate Pending(rs: seq<LogRecord>, lo: nat, next: set<int>)
    requires lo <= |rs|
  {
    && (forall m :: m in next ==> 0 <= m < lo && m in Reached(rs))
    && (forall i: nat :: i < lo && i in Reached(rs) ==> Ahead(rs, next, i))
  }

  lemma ReachesItself(rs: seq<LogRecord>, m: nat)
    requires m < |rs|
    ensures Reaches(rs, m, m)
  {
  }

  lemma StartOfUndo(rs: seq<LogRecord>, next: set<int>)
    requires WellLinked(rs) && next == set t | t in Tracked(rs) :: Tracked(rs)[t]
    ensures Pending(rs, |rs|, next)
    ensures Extended(rs, Reached(rs), |rs|) == rs && Undone(rs, Reached(rs), |rs|, Replay(rs)) == Replay(rs)
  {
    hide Tracked, Replay, Reaches;
    forall m | m in next
      ensures 0 <= m < |rs| && m in Reached(rs)
    {
      var t :| t in Tracked(rs) && m == Tracked(rs)[t];
      TrackedIs(rs, t);
      ReachesItself(rs, m);
    }
    forall i: nat | i < |rs| && i in Reached(rs)
      ensures Ahead(rs, next, i)
    {
      var t :| t in Tracked(rs) && Reaches(rs, Tracked(rs)[t], i);
      assert Tracked(rs)[t] in next;
    }
  }

  lemma PendingBelow(rs: seq<LogRecord>, lo: nat, next: set<int>, m: int)
    requires lo <= |rs| && Pending(rs, lo, next) && m in next
    ensures 0 <= m < lo && m in Reached(rs)
  {
  }

  /** Between the largest pending record and the walk's position nothing is to be reached. */
  lemma Quiet(rs: seq<LogRecord>, lo: nat, next: set<int>, m: int)
    requires lo <= |rs| && Pending(rs, lo, next) && m >= -1 && forall x :: x in next ==> x <= m
    ensures forall j: nat :: m < j < lo ==> j !in Reached(rs)
  {
    hide Reached;
  }

  lemma {:induction false} Skip(rs: seq<LogRecord>, us: set<nat>, a: nat, b: nat, s: Store)
    requires a <= b <= |rs| && forall j: nat :: a <= j < b ==> j !in us
    ensures Extended(rs, us, a) == Extended(rs, us, b) && Undone(rs, us, a, s) == Undone(rs, us, b, s)
    decreases b - a
  {
    if a < b { Skip(rs, us, a + 1, b, s); }
  }

  lemma MappedAt(mapping: map<int, (nat, nat)>, rs: seq<LogRecord>, i: nat)
    requires AllLoggable(rs) && i < |rs| && Maps(mapping, rs, |rs|)
    ensures i in mapping && mapping[i] == (Offset(rs, i), SizeOf(rs[i].op))
    ensures SizeOf(rs[i].op) <= LOG_BUFFER_SIZE && Loggable(rs[i])
  {
    hide LogBytes;
  }

  lemma ReadBack(rs: seq<LogRecord>, i: nat, file: Bytes)
    requires AllLoggable(rs) && i < |rs| && LogBytes(rs) <= file
    ensures var (at, size) := (Offset(rs, i), SizeOf(rs[i].op));
            && HEADER_SIZE <= size && at + size <= |file|
            && Deserialize(Chunk(file, at, size), 0) == Some(AsRead(rs[i]))
  {
    hide LogBytes, Deserialize, Chunk, RecordBytes;
    RecordPlace(rs, i);
    var (at, size) := (Offset(rs, i), SizeOf(rs[i].op));
    assert file[at..at + size] == LogBytes(rs)[at..at + size];
    ChunkPiece(file, at, size, 0, size);
    DeserializeRecord(Chunk(file, at, size), 0, rs[i]);
  }

  /** What comes before a reached record in its chain is reached. */
  lemma PrevIsReached(rs: seq<LogRecord>, m: nat)
    requires WellLinked(rs) && m < |rs| && m in Reached(rs)
    ensures var prev := AsRead(rs[m]).prev; prev < m && (prev != INVALID_LSN ==> prev >= 0 && prev in Reached(rs))
  {
    hide Tracked;
    var prev := AsRead(rs[m]).prev;
    if prev != INVALID_LSN {
      var t :| t in Tracked(rs) && Reaches(rs, Tracked(rs)[t], m);
      ReachesOn(rs, Tracked(rs)[t], m);
      assert IsReached(rs, prev);
    }
  }

  lemma ReachesByPrev(rs: seq<LogRecord>, m: nat, i: nat)
    requires Reaches(rs, m, i) && i < m
    ensures var prev := AsRead(rs[m]).prev; prev != INVALID_LSN && Reaches(rs, prev, i)
  {
  }

  lemma StillAhead(rs: seq<LogRecord>, next: set<int>, m: nat, i: nat)
    requires Ahead(rs, next, i) && i < m < |rs|
    ensures Ahead(rs, next - {m} + if AsRead(rs[m]).prev != INVALID_LSN then {AsRead(rs[m]).prev} else {}, i)
  {
    hide Reaches;
    var x :| x in next && Reaches(rs, x, i);
    if x == m { ReachesByPrev(rs, m, i); }
  }

  /** Undoing the largest pending record makes the one before it in its chain pending, unless the reader does not
      know the record. The walk ends because that one is smaller. */
  lemma PendingNext(rs: seq<LogRecord>, lo: nat, next: set<int>, m: nat)
    requires WellLinked(rs) && lo <= |rs| && Pending(rs, lo, next) && m in next && forall x :: x in next ==> x <= m
    ensures m < lo && AsRead(rs[m]).prev < m
    ensures Pending(rs, m, next - {m} + if AsRead(rs[m]).prev != INVALID_LSN then {AsRead(rs[m]).prev} else {})
  {
    hide Reached, WellLinked, Ahead;
    PrevIsReached(rs, m);
    forall i: nat | i < m && i in Reached(rs)
      ensures Ahead(rs, next - {m} + if AsRead(rs[m]).prev != INVALID_LSN then {AsRead(rs[m]).prev} else {}, i)
    {
      StillAhead(rs, next, m, i);
    }
  }

  lemma {:induction false} ExtendedLength(rs: seq<LogRecord>, us: set<nat>, lo: nat)
    requires lo <= |rs|
    ensures |rs| <= |Extended(rs, us, lo)| <= 2 * |rs| - lo
    decreases |rs| - lo
  {
    if lo < |rs| { ExtendedLength(rs, us, lo + 1); }
  }

  lemma FewRecords(rs: seq<LogRecord>, us: set<nat>, lo: nat)
    requires AllLoggable(rs) && |LogBytes(rs)| <= MAX_LSN && lo <= |rs|
    ensures 24 * |rs| <= MAX_LSN && |Extended(rs, us, lo)| <= 2 * |rs|
  {
    hide LogBytes, Loggable;
    OffsetsGrow(rs, 0, |rs|);
    OffsetEnds(rs);
    ExtendedLength(rs, us, lo);
  }

  lemma {:induction false} Smaller(a: set<nat>, b: set<nat>)
    requires a <= b
    ensures |a| <= |b|
  {
    if a != {} {
      var x :| x in a;
      Smaller(a - {x}, b - {x});
    }
  }

  lemma {:induction false} FewTracked(rs: seq<LogRecord>)
    ensures |Tracked(rs).Keys| <= |rs|
  {
    if |rs| > 0 {
      var (init, r) := (rs[..|rs| - 1], AsRead(rs[|rs| - 1]));
      FewTracked(init);
      if Tracked(rs).Keys <= Tracked(init).Keys {
        Smaller(Tracked(rs).Keys, Tracked(init).Keys);
      } else {
        Smaller(Tracked(rs).Keys, Tracked(init).Keys + {r.txn});
      }
    }
  }

  lemma {:induction false} TxnFits(rs: seq<LogRecord>, t: nat)
    requires AllLoggable(rs) && t in Tracked(rs)
    ensures t < MAX_U64
  {
    var (init, r) := (rs[..|rs| - 1], rs[|rs| - 1]);
    assert Loggable(r);
    if t in Tracked(init) { TxnFits(init, t); }
  }

  lemma {:induction false} HasMax(s: set<int>, x: int, hi: int)
    requires x in s && forall m :: m in s ==> m <= hi
    ensures exists y :: y in s && forall m :: m in s ==> m <= y
    decreases hi - x
  {
    if y :| y in s && y > x {
      HasMax(s, y, hi);
    } else {
      assert forall m :: m in s ==> m <= x;
    }
  }

  lemma Counted(log: LogManager)
    requires log.Resumed(|log.records|)
    ensures AllLoggable(log.records) && Numbered(log.records)
  {
  }

  lemma FitsBuffer(r: LogRecord)
    requires Loggable(r)
    ensures HEADER_SIZE <= SizeOf(r.op) <= LOG_BUFFER_SIZE
  {
  }

  lemma StartOfLog(rs: seq<LogRecord>, mapping: map<int, (nat, nat)>)
    requires AllLoggable(rs)
    ensures Offset(rs, 0) == 0 && Replay(rs[..0]) == map[] && Tracked(rs[..0]) == map[] && Maps(mapping, rs, 0)
  {
  }

  lemma MapsNext(mapping: map<int, (nat, nat)>, rs: seq<LogRecord>, i: nat)
    requires AllLoggable(rs) && i < |rs| && Maps(mapping, rs, i)
    ensures Maps(mapping[i := (Offset(rs, i), SizeOf(rs[i].op))], rs, i + 1)
  {
    hide LogBytes, Loggable;
  }

  /** The transaction of a record that undo takes back is tracked all along. */
  lemma TracksIt(rs: seq<LogRecord>, lo: nat)
    requires WellLinked(rs) && lo < |rs| && lo in Reached(rs) && IsKnown(rs[lo].op)
    ensures var e := Extended(rs, Reached(rs), lo + 1);
            rs[lo].txn in Tracked(e) && 0 <= Tracked(e)[rs[lo].txn] < |e|
  {
    hide Tracked, Reached, Extended;
    ExtendedIsLinked(rs, lo + 1);
    ReachedIsTracked(rs, lo);
    TrackedIs(Extended(rs, Reached(rs), lo + 1), rs[lo].txn);
  }

  lemma LinkedIsTracked(rs: seq<LogRecord>, t: nat)
    requires WellLinked(rs) && t in Tracked(rs)
    ensures 0 <= Tracked(rs)[t] < |rs|
  {
    hide Tracked;
    TrackedIs(rs, t);
  }

  class RecoveryManager {
    const log: LogManager
    const buffer: array<Byte>
    var kv: Store
    var activeTxn: map<nat, int>
    var lsnMapping: map<int, (nat, nat)>

    constructor (log: LogManager)
      ensures this.log == log && fresh(buffer) && buffer.Length == LOG_BUFFER_SIZE
      ensures kv == map[] && activeTxn == map[] && lsnMapping == map[]
    {
      this.log := log;
      buffer := new Byte[LOG_BUFFER_SIZE];
      kv, activeTxn, lsnMapping := map[], map[], map[];
    }

    /** Reads a part of the log file; false past its end. */
    method ReadLog(size: nat, offset: nat) returns (ok: bool)
      requires size <= buffer.Length
      modifies buffer
      ensures ok <==> offset < |log.file|
      ensures ok ==> buffer[..size] == Chunk(log.file, offset, size)
    {
      if offset >= |log.file| {
        return false;
      }
      for i := 0 to size
        invariant forall j :: 0 <= j < i ==> buffer[j] == if offset + j < |log.file| then log.file[offset + j] else 0
      {
        buffer[i] := if offset + i < |log.file| then log.file[offset + i] else 0;
      }
      return true;
    }

    /** Redo, for one record as it was read. */
    method RedoLog(r: LogRecord, ghost before: seq<LogRecord>, ghost written: LogRecord)
      requires kv == Replay(before) && activeTxn == Tracked(before) && r == AsRead(written)
      modifies this`kv, this`activeTxn
      ensures kv == Replay(before + [written]) && activeTxn == Tracked(before + [written])
    {
      Snoc(before, written);
      activeTxn := activeTxn[r.txn := r.lsn];
      match r.op
      case Commit => activeTxn := activeTxn - {r.txn};
      case Abort => activeTxn := activeTxn - {r.txn};
      case Begin => activeTxn := activeTxn[r.txn := r.lsn];
      case Insert(k, v) => kv := kv[k := v];
      case Delete(k, _) => kv := kv - {k};
      case Prepared =>
      case Invalid =>
    }

    /** Scans one buffer full: redoes each record that lies wholly in it, and tells where the next one is. */
    method ScanChunk(ghost rs: seq<LogRecord>, ghost first: nat, offset: nat, last: int)
      returns (inner: nat, maxLsn: int, ghost next: nat)
      requires buffer.Length == LOG_BUFFER_SIZE && AllLoggable(rs) && Numbered(rs)
      requires first < |rs| && offset == Offset(rs, first) <= |LogBytes(rs)| && last == first - 1
      requires buffer[..] == Chunk(LogBytes(rs), offset, LOG_BUFFER_SIZE)
      requires kv == Replay(rs[..first]) && activeTxn == Tracked(rs[..first]) && Maps(lsnMapping, rs, first)
      modifies this`kv, this`activeTxn, this`lsnMapping
      ensures first < next <= |rs| && offset + inner == Offset(rs, next) && maxLsn == next - 1
      ensures kv == Replay(rs[..next]) && activeTxn == Tracked(rs[..next]) && Maps(lsnMapping, rs, next)
    {
      hide LogBytes, Chunk, Deserialize, Loggable, Replay, Tracked, Maps, U32At, SizeOf;
      inner, maxLsn, next := 0, last, first;
      assert Loggable(rs[first]);
      FitsBuffer(rs[first]);
      while true
        invariant first <= next <= |rs| && offset + inner == Offset(rs, next) && inner <= LOG_BUFFER_SIZE
        invariant maxLsn == next - 1 && (next == first ==> inner == 0)
        invariant kv == Replay(rs[..next]) && activeTxn == Tracked(rs[..next]) && Maps(lsnMapping, rs, next)
        decreases |rs| - next
      {
        if inner + 4 > LOG_BUFFER_SIZE {
          break;
        }
        ScanAt(rs, next, offset, inner);
        var size := U32At(buffer[..], inner);
        if size == 0 || size + inner > LOG_BUFFER_SIZE {
          break;
        }
        var r := Deserialize(buffer[..], inner).value;
        assert r == AsRead(rs[next]);
        maxLsn := if r.lsn > maxLsn then r.lsn else maxLsn;
        MapsNext(lsnMapping, rs, next);
        lsnMapping := lsnMapping[r.lsn := (offset + inner, size)];
        RedoLog(r, rs[..next], rs[next]);
        assert rs[..next] + [rs[next]] == rs[..next + 1];
        RecordPlace(rs, next);
        inner := inner + size;
        next := next + 1;
      }
    }

    /** The scan of redo, one buffer after the other. */
    method ScanLog(ghost rs: seq<LogRecord>) returns (maxLsn: int)
      requires buffer.Length == LOG_BUFFER_SIZE && buffer !in log.Repr()
      requires kv == map[] && activeTxn == map[] && lsnMapping == map[]
      requires AllLoggable(rs) && Numbered(rs) && log.file == LogBytes(rs)
      modifies this, buffer
      ensures kv == Replay(rs) && activeTxn == Tracked(rs) && Maps(lsnMapping, rs, |rs|)
      ensures maxLsn == |rs| - 1
    {
      hide LogBytes, Chunk, Loggable, Replay, Tracked, Maps;
      var offset: nat := 0;
      maxLsn := -1;
      ghost var i: nat := 0;
      StartOfLog(rs, lsnMapping);
      while true
        invariant i <= |rs| && offset == Offset(rs, i) && maxLsn == i - 1
        invariant kv == Replay(rs[..i]) && activeTxn == Tracked(rs[..i]) && Maps(lsnMapping, rs, i)
        decreases |rs| - i
      {
        OffsetsGrow(rs, i, |rs|);
        OffsetEnds(rs);
        var ok := ReadLog(LOG_BUFFER_SIZE, offset);
        if !ok {
          break;
        }
        assert i < |rs|;
        var inner, last, next := ScanChunk(rs, i, offset, maxLsn);
        offset, maxLsn, i := offset + inner, last, next;
      }
      assert i == |rs| && rs[..i] == rs;
    }

    method Redo(ghost rs: seq<LogRecord>)
      requires buffer.Length == LOG_BUFFER_SIZE && buffer !in log.Repr()
      requires kv == map[] && activeTxn == map[] && lsnMapping == map[]
      requires rs == log.records && log.Resumed(|rs|) && log.file == LogBytes(rs)
      modifies this, buffer, log`nextLsn
      ensures kv == Replay(rs) && activeTxn == Tracked(rs) && Maps(lsnMapping, rs, |rs|)
      ensures log.Valid() && log.nextLsn == |rs|
    {
      hide LogBytes, Replay, Tracked, LogManager.Resumed, LogManager.Valid, Maps;
      Counted(log);
      var maxLsn := ScanLog(rs);
      log.SetNextLsn(maxLsn + 1);
    }

    /** Has every record that the walk reaches from position `lo` on been undone, and nothing else? */
    ghost predicate UndoneTo(rs: seq<LogRecord>, lo: nat)
      requires lo <= |rs|
      reads this, log, log.logBuffer, log.flushBuffer
    {
      && log.Valid() && log.records == Extended(rs, Reached(rs), lo) && log.nextLsn == |log.records|
      && kv == Undone(rs, Reached(rs), lo, Replay(rs))
      && activeTxn == Tracked(log.records)
    }

    /** Undo, for one record as it was read: its effect is taken back and a compensation is logged. */
    method UndoLog(r: LogRecord, ghost rs: seq<LogRecord>, ghost lo: nat)
      requires WellLinked(rs) && lo < |rs| && UndoneTo(rs, lo + 1) && r == AsRead(rs[lo]) && lo in Reached(rs) && Loggable(rs[lo])
      requires log.nextLsn <= MAX_LSN && buffer !in log.Repr()
      modifies this`kv, this`activeTxn, log.Repr()
      ensures UndoneTo(rs, lo) && log.Repr() == old(log.Repr()) && old(log.file) <= log.file
    {
      hide Replay, Tracked, Reached, LogManager.Valid, Undone, Extended, WellLinked;
      OneUndone(rs, Reached(rs), lo, Replay(rs));
      ExtendedIsLinked(rs, lo + 1);
      if IsKnown(rs[lo].op) { TracksIt(rs, lo); }
      ghost var e := log.records;
      match r.op
      case Insert(k, v) =>
        kv := kv - {k};
        var lsn := log.AppendLogRecord(r.txn, activeTxn[r.txn], Delete(k, v));
        Snoc(e, log.records[|e|]);
        activeTxn := activeTxn[r.txn := lsn];
      case Delete(k, v) =>
        kv := kv[k := k];
        var lsn := log.AppendLogRecord(r.txn, activeTxn[r.txn], Insert(k, v));
        Snoc(e, log.records[|e|]);
        activeTxn := activeTxn[r.txn := lsn];
      case _ =>
    }

    /** One turn of the walk: the largest pending record is read back and undone, and the one before it in
        its chain becomes pending. */
    method UndoLast(ghost rs: seq<LogRecord>, ghost lo: nat, pending: set<int>) returns (next: set<int>, ghost lo': nat)
      requires buffer.Length == LOG_BUFFER_SIZE && buffer !in log.Repr()
      requires WellLinked(rs) && AllLoggable(rs) && |LogBytes(rs)| <= MAX_LSN
      requires lo <= |rs| && UndoneTo(rs, lo) && Pending(rs, lo, pending) && pending != {}
      requires LogBytes(rs) <= log.file && Maps(lsnMapping, rs, |rs|)
      modifies this`kv, this`activeTxn, buffer, log.Repr()
      ensures lo' < lo && UndoneTo(rs, lo') && Pending(rs, lo', next)
      ensures LogBytes(rs) <= log.file && log.Repr() == old(log.Repr())
    {
      hide LogBytes, Replay, Tracked, LogManager.Valid, Maps, Pending, Reached, Extended, Undone, WellLinked;
      hide Deserialize, Chunk, Loggable;
      forall m | m in pending
        ensures m <= lo
      {
        PendingBelow(rs, lo, pending, m);
      }
      ghost var some :| some in pending;
      HasMax(pending, some, lo);
      var lsn :| lsn in pending && forall m :: m in pending ==> m <= lsn;
      PendingBelow(rs, lo, pending, lsn);
      Quiet(rs, lo, pending, lsn);
      Skip(rs, Reached(rs), lsn + 1, lo, Replay(rs));
      MappedAt(lsnMapping, rs, lsn);
      var (offset, size) := lsnMapping[lsn];
      var _ := ReadLog(size, offset);
      ReadBack(rs, lsn, log.file);
      var r := Deserialize(buffer[..size], 0).value;
      FewRecords(rs, Reached(rs), lo);
      UndoLog(r, rs, lsn);
      PendingNext(rs, lo, pending, lsn);
      lo' := lsn;
      next := pending - {lsn};
      if r.prev != INVALID_LSN {
        next := next + {r.prev};
      }
      assert next == pending - {lsn} + if r.prev != INVALID_LSN then {r.prev} else {};
    }

    /** Undoes every record that the walk reaches, the last first. */
    method UndoRecords(ghost rs: seq<LogRecord>)
      requires buffer.Length == LOG_BUFFER_SIZE && buffer !in log.Repr()
      requires log.Valid() && rs == log.records && WellLinked(rs) && AllLoggable(rs)
      requires log.nextLsn == |rs| && log.file == LogBytes(rs) && |log.file| <= MAX_LSN
      requires kv == Replay(rs) && activeTxn == Tracked(rs) && Maps(lsnMapping, rs, |rs|)
      modifies this, buffer, log.Repr()
      ensures UndoneTo(rs, 0) && log.Repr() == old(log.Repr())
    {
      hide LogBytes, Replay, Tracked, LogManager.Valid, Maps, Pending, Reached, Extended, Undone, WellLinked;
      hide Deserialize, Chunk, Loggable;
      var next: set<int> := set t | t in activeTxn :: activeTxn[t];
      ghost var lo: nat := |rs|;
      StartOfUndo(rs, next);
      while next != {}
        invariant lo <= |rs| && UndoneTo(rs, lo) && Pending(rs, lo, next)
        invariant LogBytes(rs) <= log.file && log.Repr() == old(log.Repr()) && Maps(lsnMapping, rs, |rs|)
        decreases lo
      {
        next, lo := UndoLast(rs, lo, next);
      }
      Quiet(rs, lo, next, -1);
      Skip(rs, Reached(rs), 0, lo, Replay(rs));
    }

    /** Closes every tracked transaction with an abort record, in some order. */
    method AbortTracked() returns (ghost order: seq<nat>)
      requires log.Valid() && log.nextLsn == |log.records| && log.nextLsn + |activeTxn.Keys| <= MAX_LSN
      requires activeTxn == Tracked(log.records)
      requires forall t :: t in activeTxn ==> t < MAX_U64 && 0 <= activeTxn[t] <= MAX_LSN
      modifies log.Repr()
      ensures log.Valid() && log.nextLsn == |log.records| && log.Repr() == old(log.Repr())
      ensures IsOrderOf(order, activeTxn.Keys) && log.records == Closed(old(log.records), order)
    {
      hide LogManager.Valid, Loggable, Tracked;
      ghost var e := log.records;
      var remaining := activeTxn.Keys;
      order := [];
      while remaining != {}
        invariant log.Valid() && log.Repr() == old(log.Repr()) && log.records == Closed(e, order) && log.nextLsn == |log.records|
        invariant remaining <= activeTxn.Keys && |log.records| == |e| + |order| && |order| + |remaining| == |activeTxn.Keys|
        invariant forall t :: t in activeTxn <==> t in remaining || t in order
        invariant forall t :: t in order ==> t !in remaining
        invariant forall i, j :: 0 <= i < j < |order| ==> order[i] != order[j]
        decreases |remaining|
      {
        var t :| t in remaining;
        var _ := log.AppendLogRecord(t, activeTxn[t], Op.Abort);
        assert (order + [t])[..|order|] == order;
        order := order + [t];
        remaining := remaining - {t};
      }
    }

    /** Undoes what the walk reaches and closes every tracked transaction, in some order. */
    method Undo(ghost rs: seq<LogRecord>) returns (ghost order: seq<nat>)
      requires buffer.Length == LOG_BUFFER_SIZE && buffer !in log.Repr()
      requires log.Valid() && rs == log.records && WellLinked(rs) && AllLoggable(rs)
      requires log.nextLsn == |rs| && log.file == LogBytes(rs) && |log.file| <= MAX_LSN
      requires kv == Replay(rs) && activeTxn == Tracked(rs) && Maps(lsnMapping, rs, |rs|)
      modifies this, buffer, log.Repr()
      ensures kv == Recovered(rs) && log.Valid() && log.nextLsn == |log.records|
      ensures IsOrderOf(order, Tracked(rs).Keys) && log.records == Closed(Extended(rs, Reached(rs), 0), order)
    {
      hide LogBytes, Replay, Tracked, Reached, LogManager.Valid, Maps, Extended, Undone, WellLinked, Loggable, Closed;
      hide IsOrderOf;
      UndoRecords(rs);
      FewRecords(rs, Reached(rs), 0);
      FewTracked(rs);
      ExtendedIsLinked(rs, 0);
      forall t | t in activeTxn
        ensures t < MAX_U64 && 0 <= activeTxn[t] < |log.records|
      {
        TxnFits(rs, t);
        LinkedIsTracked(log.records, t);
      }
      order := AbortTracked();
    }

    /** Recovery: redo everything, then undo what was left open. */
    method Aries(ghost rs: seq<LogRecord>) returns (ghost order: seq<nat>)
      requires buffer.Length == LOG_BUFFER_SIZE && buffer !in log.Repr()
      requires kv == map[] && activeTxn == map[] && lsnMapping == map[]
      requires rs == log.records && log.Resumed(|rs|) && log.file == LogBytes(rs) && |log.file| <= MAX_LSN
      requires WellLinked(rs)
      modifies this, buffer, log.Repr()
      ensures kv == Recovered(rs) && log.Valid()
      ensures IsOrderOf(order, Tracked(rs).Keys) && log.records == Closed(Extended(rs, Reached(rs), 0), order)
    {
      hide LogBytes, Replay, Tracked, Reached, LogManager.Valid, LogManager.Resumed, Maps, Extended, Undone;
      hide WellLinked, Closed;
      Counted(log);
      Redo(rs);
      order := Undo(rs);
    }
  }
}
