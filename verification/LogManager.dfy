/** The double-buffered log: appenders fill one buffer while the flush thread writes out the other. Each
    method below is one atomic step, so every interleaving is a sequence of calls. */
module LogManagers {
  import opened Common
  import opened SortedEntries
  import opened Encoding
  import opened LogRecords

  /** Where the flush thread stands: waiting, about to write the buffer it swapped out, or about to
      publish that it is on disk. */
  datatype Phase = Waiting | Swapped | Written

  ghost predicate Numbered(rs: seq<LogRecord>) {
    forall i :: 0 <= i < |rs| ==> rs[i].lsn == i
  }

  method MemCpy(to: array<Byte>, at: nat, from: Bytes) returns (end: nat)
    requires at + |from| <= to.Length
    modifies to
    ensures end == at + |from| && to[..end] == old(to[..at]) + from
  {
    for i := 0 to |from|
      invariant to[..at + i] == old(to[..at]) + from[..i]
    {
      to[at + i] := from[i];
    }
    end := at + |from|;
  }

  lemma CutLog(rs: seq<LogRecord>, lo: nat, mid: nat, hi: nat)
    requires AllLoggable(rs) && lo <= mid <= hi <= |rs|
    ensures AllLoggable(rs[lo..mid]) && AllLoggable(rs[mid..hi]) && AllLoggable(rs[lo..hi])
    ensures LogBytes(rs[lo..hi]) == LogBytes(rs[lo..mid]) + LogBytes(rs[mid..hi])
  {
    hide Loggable;
    assert rs[lo..hi] == rs[lo..mid] + rs[mid..hi];
    LogConcat(rs[lo..mid], rs[mid..hi]);
  }

  // ---- the pipeline, without its bytes ----------------------------------------------------------------

  datatype Step = AppendTry(txn: nat, prev: int, op: Op) | FlushThread

  /** The records appended, how many of them are in the file, the first one in the live buffer, where the
      flush thread stands, and the last LSN it has reported. */
  datatype Pipe = Pipe(records: seq<LogRecord>, stored: nat, live: nat, phase: Phase, persistentLsn: int)

  function Size(rs: seq<LogRecord>): nat {
    if |rs| == 0 then 0 else Size(rs[..|rs| - 1]) + SizeOf(rs[|rs| - 1].op)
  }

  /** Is there room in the live buffer, and can the record be made at all? */
  predicate Accepts(p: Pipe, txn: nat, prev: int, op: Op) {
    && p.live <= |p.records| && Size(p.records[p.live..]) + SizeOf(op) < 45_056
    && |p.records| <= MAX_LSN && txn < MAX_U64 && -1 <= prev <= MAX_LSN
  }

  /** One turn of the flush thread. */
  function Turn(p: Pipe): Pipe {
    match p.phase
    case Waiting => if p.live < |p.records| then p.(phase := Swapped, live := |p.records|) else p
    case Swapped => p.(phase := Written, stored := p.live)
    case Written => p.(phase := Waiting, persistentLsn := p.stored - 1)
  }

  /** An appender whose record does not fit goes on waiting. */
  function PipeStep(p: Pipe, step: Step): Pipe {
    match step
    case AppendTry(txn, prev, op) =>
      if Accepts(p, txn, prev, op) then p.(records := p.records + [LogRecord(|p.records|, txn, prev, op)]) else p
    case FlushThread => Turn(p)
  }

  function PipeAfter(steps: seq<Step>): Pipe {
    if |steps| == 0 then Pipe([], 0, 0, Waiting, -1) else PipeStep(PipeAfter(steps[..|steps| - 1]), steps[|steps| - 1])
  }

  lemma {:induction false} SizeIsLength(rs: seq<LogRecord>)
    requires AllLoggable(rs)
    ensures |LogBytes(rs)| == Size(rs)
  {
    if |rs| > 0 { SizeIsLength(rs[..|rs| - 1]); }
  }

  ghost predicate InOrder(p: Pipe) {
    && p.stored <= p.live <= |p.records| && p.persistentLsn < p.stored
    && (p.phase != Swapped ==> p.live == p.stored)
  }

  /** How many turns the flush thread still needs until everything appended is on disk. */
  function Due(p: Pipe): nat {
    (if p.live < |p.records| then 3 else 0) + match p.phase case Waiting => 0 case Swapped => 2 case Written => 1
  }

  function Turns(p: Pipe, n: nat): Pipe
    decreases n
  {
    if n == 0 then p else Turns(Turn(p), n - 1)
  }

  lemma {:induction false} AllTurns(p: Pipe)
    requires InOrder(p) && Due(p) > 0
    ensures Turns(p, Due(p)).persistentLsn == |p.records| - 1
    decreases Due(p)
  {
    var q := Turn(p);
    assert Due(q) == Due(p) - 1 && q.records == p.records && InOrder(q);
    if Due(q) > 0 { AllTurns(q); }
  }

  lemma {:induction false} IdleTurns(p: Pipe, n: nat)
    requires InOrder(p) && Due(p) == 0
    ensures Turns(p, n) == p
  {
    if n > 0 { IdleTurns(p, n - 1); }
  }

  /** Waiting for an appended record to be reported ends, when nothing more is appended, if and only if it
      is reported already or the flush thread has something left to do. A record that was in the file
      when it was opened is otherwise waited for in vain. */
  lemma FlushEndsIff(p: Pipe, lsn: nat)
    requires InOrder(p) && lsn < |p.records|
    ensures (exists n :: lsn <= Turns(p, n).persistentLsn) <==> lsn <= p.persistentLsn || Due(p) > 0
  {
    if Due(p) > 0 {
      AllTurns(p);
    } else {
      forall n { IdleTurns(p, n); }
      assert Turns(p, 0) == p;
    }
  }

  /** So it is for every record of a log file that has just been opened. */
  lemma FlushInVain(rs: seq<LogRecord>, lsn: nat, n: nat)
    requires lsn < |rs|
    ensures Turns(Pipe(rs, |rs|, |rs|, Waiting, -1), n).persistentLsn < lsn
  {
    IdleTurns(Pipe(rs, |rs|, |rs|, Waiting, -1), n);
  }

  class LogManager {
    var logBuffer: array<Byte>
    var flushBuffer: array<Byte>
    var logOffset: nat
    var flushOffset: nat
    var needFlush: bool
    var nextLsn: int
    var persistentLsn: int
    var flushLsn: int
    var phase: Phase
    var file: Bytes
    /** Every record ever appended, and how many of them the file holds. */
    ghost var records: seq<LogRecord>
    ghost var stored: nat

    /** The first record that is in the live buffer. */
    ghost function LiveFrom(): int
      reads this
    {
      if phase == Swapped then flushLsn + 1 else stored
    }

    ghost predicate Shaped()
      reads this
    {
      && logBuffer.Length == LOG_BUFFER_SIZE == flushBuffer.Length && logBuffer != flushBuffer
      && logOffset < LOG_BUFFER_SIZE && flushOffset < LOG_BUFFER_SIZE
      && AllLoggable(records) && Numbered(records)
      && stored <= LiveFrom() <= |records| && persistentLsn < stored
      && (phase == Written ==> flushLsn + 1 == stored)
    }

    /** The file, the swapped-out buffer and the live buffer hold the records in order. */
    ghost predicate Valid()
      reads this, logBuffer, flushBuffer
    {
      && Shaped() && nextLsn == |records|
      && file == LogBytes(records[..stored])
      && (phase == Swapped ==> flushBuffer[..flushOffset] == LogBytes(records[stored..LiveFrom()]))
      && logBuffer[..logOffset] == LogBytes(records[LiveFrom()..])
    }

    ghost function Repr(): set<object>
      reads this
    {
      {this, logBuffer, flushBuffer}
    }

    /** The pipeline that the object stands for. */
    ghost function View(): (p: Pipe)
      requires Shaped()
      reads this
      ensures InOrder(p)
    {
      Pipe(records, stored, LiveFrom(), phase, persistentLsn)
    }

    /** Would the log be valid if the next number were `n`? */
    ghost predicate Resumed(n: int)
      reads this, logBuffer, flushBuffer
    {
      && Shaped() && n == |records| && phase == Waiting
      && file == LogBytes(records[..stored]) && logBuffer[..logOffset] == LogBytes(records[stored..])
    }

    /** Opens a log file; the numbering starts anew until recovery sets it. */
    constructor (file: Bytes, ghost records: seq<LogRecord>)
      requires AllLoggable(records) && Numbered(records) && file == LogBytes(records)
      ensures this.file == file && this.records == records && fresh(Repr())
      ensures stored == |records| && nextLsn == 0
      ensures Resumed(|records|) && View() == Pipe(records, |records|, |records|, Waiting, -1)
    {
      logBuffer := new Byte[LOG_BUFFER_SIZE];
      flushBuffer := new Byte[LOG_BUFFER_SIZE];
      logOffset, flushOffset, needFlush := 0, 0, false;
      nextLsn, persistentLsn, flushLsn, phase := 0, -1, -1, Waiting;
      this.file, this.records, stored := file, records, |records|;
      new;
      assert records[..|records|] == records && records[|records|..] == [];
    }

    method SetNextLsn(n: int)
      requires Resumed(n)
      modifies this`nextLsn
      ensures Valid() && nextLsn == n
    {
      nextLsn := n;
    }

    /** Nothing is lost, doubled or reordered on the way to the file. */
    lemma BytesInOrder()
      requires Valid()
      ensures LogBytes(records) ==
              file + (if phase == Swapped then flushBuffer[..flushOffset] else []) + logBuffer[..logOffset]
    {
      var (n, m) := (|records|, LiveFrom());
      assert records[0..n] == records && records[0..stored] == records[..stored] && records[m..n] == records[m..];
      CutLog(records, 0, stored, n);
      CutLog(records, stored, m, n);
      if phase != Swapped { assert records[stored..m] == []; }
    }

    /** Whatever is reported persistent is wholly in the file, at its place. */
    lemma PersistentIsInFile(lsn: nat)
      requires Valid() && lsn <= persistentLsn
      ensures lsn < |records| && LiesAt(file, Offset(records, lsn), records[lsn])
    {
      hide LogBytes;
      assert records[..stored][..lsn] == records[..lsn] && records[..stored][lsn] == records[lsn];
      RecordPlace(records[..stored], lsn);
    }

    method CopyHeader(lsn: int, txn: nat, prev: int, op: Op) returns (pos: nat)
      requires Loggable(LogRecord(lsn, txn, prev, op)) && logOffset + HEADER_SIZE <= logBuffer.Length
      modifies logBuffer
      ensures pos == logOffset + HEADER_SIZE
      ensures logBuffer[..pos] == old(logBuffer[..logOffset]) + Header(LogRecord(lsn, txn, prev, op))
    {
      hide Encode, I32, U64;
      pos := MemCpy(logBuffer, logOffset, Encode(SizeOf(op), 4) + I32(lsn) + U64(txn) + I32(prev) + Encode(TypeCode(op), 4));
    }

    static lemma FourParts(b: Bytes, w: Bytes, x: Bytes, y: Bytes, z: Bytes)
      ensures b + w + x + y + z == b + (w + x + y + z)
    {
    }

    method CopyPayload(at: nat, op: Op) returns (pos: nat)
      requires (op.Insert? || op.Delete?) && at + |Payload(op)| <= logBuffer.Length
      modifies logBuffer
      ensures pos == at + |Payload(op)|
      ensures logBuffer[..pos] == old(logBuffer[..at]) + Payload(op)
    {
      hide Encode;
      ghost var b := logBuffer[..at];
      var (key, value) := (op.key, op.value);
      pos := MemCpy(logBuffer, at, Encode(|key|, 4));
      pos := MemCpy(logBuffer, pos, key);
      pos := MemCpy(logBuffer, pos, Encode(|value|, 4));
      pos := MemCpy(logBuffer, pos, value);
      FourParts(b, Encode(|key|, 4), key, Encode(|value|, 4), value);
    }

    static lemma Parts(r: LogRecord)
      requires Loggable(r)
      ensures RecordBytes(r) == Header(r) + Payload(r.op)
      ensures !r.op.Insert? && !r.op.Delete? ==> Payload(r.op) == []
    {
    }

    lemma LiveSnoc(r: LogRecord)
      requires Shaped() && Loggable(r)
      ensures var rs' := records + [r];
              && AllLoggable(rs')
              && rs'[..stored] == records[..stored] && rs'[stored..LiveFrom()] == records[stored..LiveFrom()]
              && LogBytes(rs'[LiveFrom()..]) == LogBytes(records[LiveFrom()..]) + RecordBytes(r)
    {
      var (rs', n) := (records + [r], LiveFrom());
      assert rs'[n..] == records[n..] + [r] && rs'[n..][..|records| - n] == records[n..];
    }

    /** Copies one record behind the others. */
    method CopyRecord(ghost r: LogRecord, lsn: int, txn: nat, prev: int, op: Op) returns (pos: nat)
      requires r == LogRecord(lsn, txn, prev, op) && Loggable(r) && logOffset + SizeOf(op) <= logBuffer.Length
      modifies logBuffer
      ensures pos == logOffset + SizeOf(op) && logBuffer[..pos] == old(logBuffer[..logOffset]) + RecordBytes(r)
    {
      hide LogBytes, Header, Payload, LogRecords.RecordBytes;
      pos := CopyHeader(lsn, txn, prev, op);
      Parts(r);
      if op.Insert? || op.Delete? {
        pos := CopyPayload(pos, op);
      }
    }

    /** Appends one record, when there is room for it. */
    method AppendStep(txn: nat, prev: int, op: Op) returns (lsn: int)
      requires Valid() && logOffset + SizeOf(op) < LOG_BUFFER_SIZE
      requires nextLsn <= MAX_LSN && txn < MAX_U64 && -1 <= prev <= MAX_LSN
      modifies this`logOffset, this`nextLsn, this`records, logBuffer
      ensures Valid() && lsn == old(nextLsn) && records == old(records) + [LogRecord(lsn, txn, prev, op)]
      ensures nextLsn == lsn + 1 && View() == old(View()).(records := records)
    {
      hide LogBytes, Header, Payload, LogRecords.RecordBytes;
      lsn := nextLsn;
      ghost var r := LogRecord(lsn, txn, prev, op);
      var pos := CopyRecord(r, lsn, txn, prev, op);
      nextLsn := nextLsn + 1;
      LiveSnoc(r);
      logOffset := pos;
      records := records + [r];
    }

    static lemma NoRecords(rs: seq<LogRecord>)
      requires rs == []
      ensures LogBytes(rs) == []
    {
    }

    /** The flush thread swaps the buffers. */
    method SwapStep()
      requires Valid() && phase == Waiting && logOffset > 0
      modifies this
      ensures Valid() && phase == Swapped && logOffset == 0 && LiveFrom() == |records|
      ensures records == old(records) && nextLsn == old(nextLsn) && file == old(file) && stored == old(stored)
      ensures flushLsn == nextLsn - 1 && persistentLsn == old(persistentLsn) && Repr() == old(Repr())
    {
      hide Loggable, LogBytes;
      logBuffer, flushBuffer := flushBuffer, logBuffer;
      flushOffset := logOffset;
      logOffset := 0;
      flushLsn := nextLsn - 1;
      phase := Swapped;
      assert records[stored..] == records[stored..LiveFrom()] && records[LiveFrom()..] == [];
      NoRecords(records[LiveFrom()..]);
    }

    /** The flush thread writes the swapped-out buffer. */
    method WriteStep()
      requires Valid() && phase == Swapped
      modifies this`file, this`phase, this`stored
      ensures Valid() && phase == Written && stored == flushLsn + 1 && old(file) <= file
    {
      hide LogBytes, Loggable;
      CutLog(records, 0, stored, LiveFrom());
      assert records[0..stored] == records[..stored] && records[0..LiveFrom()] == records[..LiveFrom()];
      file := file + flushBuffer[..flushOffset];
      stored := flushLsn + 1;
      phase := Written;
    }

    /** The flush thread reports what it wrote. */
    method PersistStep()
      requires Valid() && phase == Written
      modifies this`persistentLsn, this`needFlush, this`phase
      ensures Valid() && phase == Waiting && persistentLsn == flushLsn && persistentLsn + 1 == stored
    {
      persistentLsn := flushLsn;
      needFlush := false;
      phase := Waiting;
    }

    lemma SomethingIsLive()
      requires Valid() && phase == Waiting && logOffset == 0
      ensures stored == |records|
    {
      hide LogBytes;
      var live := records[stored..];
      OffsetsGrow(live, 0, |live|);
      OffsetEnds(live);
    }

    lemma NothingIsLive()
      requires Valid() && LiveFrom() == |records|
      ensures logOffset == 0
    {
      hide LogBytes;
      assert records[LiveFrom()..] == [];
      NoRecords(records[LiveFrom()..]);
    }

    /** One turn of the flush thread. */
    method FlushThreadStep()
      requires Valid()
      modifies this
      ensures Valid() && Repr() == old(Repr()) && records == old(records) && nextLsn == old(nextLsn)
      ensures View() == Turn(old(View())) && old(file) <= file
    {
      hide LogBytes;
      match phase
      case Waiting =>
        if logOffset > 0 {
          if LiveFrom() == |records| { NothingIsLive(); }
          SwapStep();
        } else {
          SomethingIsLive();
        }
      case Swapped => WriteStep();
      case Written => PersistStep();
    }

    /** Appends a record; a full buffer makes the appender wait for the flush thread. */
    method AppendLogRecord(txn: nat, prev: int, op: Op) returns (lsn: int)
      requires Valid() && SizeOf(op) < LOG_BUFFER_SIZE
      requires nextLsn <= MAX_LSN && txn < MAX_U64 && -1 <= prev <= MAX_LSN
      modifies Repr()
      ensures Valid() && Repr() == old(Repr()) && old(file) <= file
      ensures lsn == old(nextLsn) && records == old(records) + [LogRecord(lsn, txn, prev, op)] && nextLsn == lsn + 1
    {
      hide LogBytes, Loggable;
      if logOffset + SizeOf(op) >= LOG_BUFFER_SIZE {
        needFlush := true;
        while logOffset + SizeOf(op) >= LOG_BUFFER_SIZE
          invariant Valid() && Repr() == old(Repr()) && records == old(records) && nextLsn == old(nextLsn)
          invariant old(file) <= file
          decreases Due(View())
        {
          if Due(View()) == 0 { NothingIsLive(); }
          FlushThreadStep();
        }
      }
      lsn := AppendStep(txn, prev, op);
    }

    lemma RoomIsSize()
      requires Valid()
      ensures logOffset == Size(records[LiveFrom()..])
    {
      hide LogBytes;
      SizeIsLength(records[LiveFrom()..]);
    }

    /** Waits until the record is on disk; see FlushEndsIff for what it asks for. */
    method Flush(lsn: int, force: bool)
      requires Valid() && lsn < nextLsn && (lsn <= persistentLsn || Due(View()) > 0)
      modifies this
      ensures Valid() && Repr() == old(Repr()) && records == old(records)
      ensures lsn <= persistentLsn
    {
      hide LogBytes, Loggable;
      if force {
        needFlush := true;
      }
      while persistentLsn < lsn
        invariant Valid() && Repr() == old(Repr()) && records == old(records) && nextLsn == old(nextLsn)
        invariant lsn <= persistentLsn || Due(View()) > 0
        decreases Due(View())
      {
        FlushThreadStep();
      }
    }
  }

  /** Any interleaving of appenders and the flush thread: the object follows the pipeline step by step, the
      file and the two buffers hold the encodings of exactly the records it has accepted, in order, and
      whatever is reported is wholly in the file. */
  method RunPipeline(steps: seq<Step>) returns (log: LogManager)
    ensures log.Valid() && log.View() == PipeAfter(steps)
    ensures LogBytes(PipeAfter(steps).records) ==
            log.file + (if log.phase == Swapped then log.flushBuffer[..log.flushOffset] else []) + log.logBuffer[..log.logOffset]
    ensures forall lsn :: 0 <= lsn <= log.persistentLsn ==>
              lsn < |log.records| && LiesAt(log.file, Offset(log.records, lsn), log.records[lsn])
  {
    hide LogBytes, Loggable, LiesAt;
    LogManager.NoRecords([]);
    log := new LogManager([], []);
    log.SetNextLsn(0);
    for i := 0 to |steps|
      invariant fresh(log.Repr()) && log.Valid() && log.View() == PipeAfter(steps[..i])
    {
      assert steps[..i + 1][..i] == steps[..i];
      match steps[i]
      case AppendTry(txn, prev, op) =>
        log.RoomIsSize();
        if log.logOffset + SizeOf(op) < LOG_BUFFER_SIZE && log.nextLsn <= MAX_LSN && txn < MAX_U64 && -1 <= prev <= MAX_LSN {
          var _ := log.AppendStep(txn, prev, op);
        }
      case FlushThread => log.FlushThreadStep();
    }
    assert steps[..|steps|] == steps;
    log.BytesInOrder();
    forall lsn | 0 <= lsn <= log.persistentLsn
      ensures lsn < |log.records| && LiesAt(log.file, Offset(log.records, lsn), log.records[lsn])
    {
      log.PersistentIsInFile(lsn);
    }
  }
}
