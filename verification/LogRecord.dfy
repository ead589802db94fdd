/** The binary form of log records. */
module LogRecords {
  import opened Common
  import opened SortedEntries
  import opened Encoding
  import opened LogChain

  const LOG_BUFFER_SIZE: nat := 11 * 4096
  const HEADER_SIZE: nat := 24
  const MAX_LSN: nat := 0x7FFF_FFFF
  const INVALID_TXN: nat := 0

  datatype Op =
    | Insert(key: Bytes, value: Bytes)
    | Delete(key: Bytes, value: Bytes)
    | Begin
    | Commit
    | Abort
    | Prepared
    | Invalid

  datatype LogRecord = LogRecord(lsn: int, txn: nat, prev: int, op: Op)

  function TypeCode(op: Op): (code: nat)
    ensures code <= 8
  {
    match op
    case Invalid => 0
    case Insert(_, _) => 3
    case Delete(_, _) => 4
    case Begin => 5
    case Commit => 6
    case Abort => 7
    case Prepared => 8
  }

  function SizeOf(op: Op): nat {
    match op
    case Insert(k, v) => HEADER_SIZE + 4 + |k| + 4 + |v|
    case Delete(k, v) => HEADER_SIZE + 4 + |k| + 4 + |v|
    case _ => HEADER_SIZE
  }

  /** A 32-bit number in two's complement. */
  function I32(n: int): (b: Bytes)
    requires -1 <= n <= MAX_LSN
    ensures |b| == 4
  {
    Encode(if n < 0 then n + Capacity(4) else n, 4)
  }

  function I32At(b: Bytes, at: nat): int
    requires at + 4 <= |b|
  {
    var n := Decode(b[at..at + 4]);
    if n > MAX_LSN then n - Capacity(4) else n
  }

  function U32At(b: Bytes, at: nat): (n: nat)
    requires at + 4 <= |b|
  {
    Decode(b[at..at + 4])
  }

  lemma CapacityOfFour()
    ensures Capacity(4) == 0x1_0000_0000
  {
  }

  lemma I32RoundTrip(b: Bytes, at: nat, n: int)
    requires at + 4 <= |b| && -1 <= n <= MAX_LSN && b[at..at + 4] == I32(n)
    ensures I32At(b, at) == n
  {
    hide Encode, Decode;
    CapacityOfFour();
    DecodeEncode(if n < 0 then n + Capacity(4) else n, 4);
  }

  lemma U32RoundTrip(b: Bytes, at: nat, n: nat)
    requires at + 4 <= |b| && n < 0x1_0000_0000 && b[at..at + 4] == Encode(n, 4)
    ensures U32At(b, at) == n
  {
    hide Encode, Decode;
    CapacityOfFour();
    DecodeEncode(n, 4);
  }

  /** Can the record be appended at all, and are its numbers within their types? */
  predicate Loggable(r: LogRecord) {
    && 0 <= r.lsn <= MAX_LSN && -1 <= r.prev <= MAX_LSN && r.txn < MAX_U64
    && SizeOf(r.op) < LOG_BUFFER_SIZE
  }

  function Header(r: LogRecord): (b: Bytes)
    requires Loggable(r)
    ensures |b| == HEADER_SIZE
  {
    Encode(SizeOf(r.op), 4) + I32(r.lsn) + U64(r.txn) + I32(r.prev) + Encode(TypeCode(r.op), 4)
  }

  function Payload(op: Op): (b: Bytes)
    ensures HEADER_SIZE + |b| == SizeOf(op)
  {
    match op
    case Insert(k, v) => Encode(|k|, 4) + k + Encode(|v|, 4) + v
    case Delete(k, v) => Encode(|k|, 4) + k + Encode(|v|, 4) + v
    case _ => []
  }

  function RecordBytes(r: LogRecord): (b: Bytes)
    requires Loggable(r)
    ensures |b| == SizeOf(r.op) >= HEADER_SIZE
  {
    Header(r) + Payload(r.op)
  }

  /** The types that the reader decodes. */
  predicate IsKnown(op: Op) {
    !op.Prepared? && !op.Invalid?
  }

  /** What the reader makes of a record: of a type that it does not know only the LSN is left, in a record of no
      transaction and without a predecessor. */
  function AsRead(r: LogRecord): LogRecord {
    if IsKnown(r.op) then r else LogRecord(r.lsn, INVALID_TXN, INVALID_LSN, Invalid)
  }

  /** The record that the reader makes of the bytes at a place; None where it would read past the buffer. */
  function Deserialize(b: Bytes, at: nat): (r: Option<LogRecord>)
    requires at + HEADER_SIZE <= |b|
  {
    var (lsn, txn, prev, code) := (I32At(b, at + 4), U64At(b, at + 8), I32At(b, at + 16), U32At(b, at + 20));
    if code == 5 then Some(LogRecord(lsn, txn, prev, Begin))
    else if code == 6 then Some(LogRecord(lsn, txn, prev, Commit))
    else if code == 7 then Some(LogRecord(lsn, txn, prev, Abort))
    else if code == 3 || code == 4 then
      if at + 28 > |b| then None else
      var keySize := U32At(b, at + 24);
      if at + 32 + keySize > |b| then None else
      var key := b[at + 28..at + 28 + keySize];
      var valueSize := U32At(b, at + 28 + keySize);
      if at + 32 + keySize + valueSize > |b| then None else
      var value := b[at + 32 + keySize..at + 32 + keySize + valueSize];
      Some(LogRecord(lsn, txn, prev, if code == 3 then Insert(key, value) else Delete(key, value)))
    else Some(LogRecord(lsn, INVALID_TXN, INVALID_LSN, Invalid))
  }

  /** The bytes of the record lie at the place. */
  ghost predicate LiesAt(b: Bytes, at: nat, r: LogRecord)
    requires Loggable(r)
  {
    at + SizeOf(r.op) <= |b| && b[at..at + SizeOf(r.op)] == RecordBytes(r)
  }

  lemma Piece(b: Bytes, at: nat, s: Bytes, x: nat, y: nat)
    requires at + |s| <= |b| && b[at..at + |s|] == s && x <= y <= |s|
    ensures b[at + x..at + y] == s[x..y]
  {
    assert |b[at + x..at + y]| == y - x;
    forall i | 0 <= i < y - x
      ensures b[at + x..at + y][i] == s[x..y][i]
    {
      assert b[at..at + |s|][x + i] == b[at + x + i];
    }
  }

  lemma HeaderPieces(r: LogRecord)
    requires Loggable(r)
    ensures var h := Header(r);
            && h[0..4] == Encode(SizeOf(r.op), 4) && h[4..8] == I32(r.lsn) && h[8..16] == U64(r.txn)
            && h[16..20] == I32(r.prev) && h[20..24] == Encode(TypeCode(r.op), 4)
  {
    hide Encode, I32, U64;
    var h := Header(r);
    assert h[16..20] == I32(r.prev);
    assert h[20..24] == Encode(TypeCode(r.op), 4);
  }

  lemma HeaderRead(b: Bytes, at: nat, r: LogRecord)
    requires Loggable(r) && LiesAt(b, at, r)
    ensures at + HEADER_SIZE <= |b|
    ensures U32At(b, at) == SizeOf(r.op) && I32At(b, at + 4) == r.lsn && U64At(b, at + 8) == r.txn
    ensures I32At(b, at + 16) == r.prev && U32At(b, at + 20) == TypeCode(r.op)
  {
    hide Encode, I32, U64, U32At, I32At, U64At, Header, Payload;
    HeaderPieces(r);
    var (s, h) := (RecordBytes(r), Header(r));
    assert h == s[..24];
    Piece(b, at, s, 0, 24);
    Piece(b, at, h, 0, 4);
    Piece(b, at, h, 4, 8);
    Piece(b, at, h, 8, 16);
    Piece(b, at, h, 16, 20);
    Piece(b, at, h, 20, 24);
    U32RoundTrip(b, at, SizeOf(r.op));
    I32RoundTrip(b, at + 4, r.lsn);
    U64RoundTrip(b, at + 8, r.txn);
    I32RoundTrip(b, at + 16, r.prev);
    U32RoundTrip(b, at + 20, TypeCode(r.op));
  }

  lemma PayloadPieces(op: Op)
    requires op.Insert? || op.Delete?
    ensures var (p, k, v) := (Payload(op), op.key, op.value);
            && p[0..4] == Encode(|k|, 4) && p[4..4 + |k|] == k
            && p[4 + |k|..8 + |k|] == Encode(|v|, 4) && p[8 + |k|..8 + |k| + |v|] == v
  {
    hide Encode;
    var (p, k, v) := (Payload(op), op.key, op.value);
    assert p[4 + |k|..8 + |k|] == Encode(|v|, 4);
    assert p[8 + |k|..8 + |k| + |v|] == v;
  }

  lemma PayloadLies(b: Bytes, at: nat, r: LogRecord)
    requires Loggable(r) && LiesAt(b, at, r)
    ensures var p := Payload(r.op); at + 24 + |p| <= |b| && b[at + 24..at + 24 + |p|] == p
  {
    hide Header, Payload;
    var s := RecordBytes(r);
    assert Payload(r.op) == s[24..];
    Piece(b, at, s, 24, |s|);
  }

  lemma PayloadRead(b: Bytes, at: nat, r: LogRecord)
    requires Loggable(r) && LiesAt(b, at, r) && (r.op.Insert? || r.op.Delete?)
    ensures var (k, v) := (r.op.key, r.op.value);
            && at + 32 + |k| + |v| <= |b|
            && U32At(b, at + 24) == |k| && b[at + 28..at + 28 + |k|] == k
            && U32At(b, at + 28 + |k|) == |v| && b[at + 32 + |k|..at + 32 + |k| + |v|] == v
  {
    hide Encode, U32At, Header, Payload, RecordBytes, LiesAt;
    PayloadLies(b, at, r);
    PayloadPieces(r.op);
    var (p, k, v) := (Payload(r.op), r.op.key, r.op.value);
    Piece(b, at + 24, p, 0, 4);
    U32RoundTrip(b, at + 24, |k|);
    Piece(b, at + 24, p, 4, 4 + |k|);
    Piece(b, at + 24, p, 4 + |k|, 8 + |k|);
    U32RoundTrip(b, at + 28 + |k|, |v|);
    Piece(b, at + 24, p, 8 + |k|, 8 + |k| + |v|);
  }

  /** The format, number by number: the size, the LSN, the transaction, the previous LSN and the code of the type,
      then the lengths and the bytes of the key and the value. */
  lemma RecordLayout(b: Bytes, at: nat, r: LogRecord)
    requires Loggable(r) && LiesAt(b, at, r)
    ensures at + 24 <= |b| && I32At(b, at + 4) == r.lsn && U64At(b, at + 8) == r.txn && I32At(b, at + 16) == r.prev
    ensures U32At(b, at + 20) == match r.op
                                 case Invalid => 0
                                 case Insert(_, _) => 3
                                 case Delete(_, _) => 4
                                 case Begin => 5
                                 case Commit => 6
                                 case Abort => 7
                                 case Prepared => 8
    ensures if r.op.Insert? || r.op.Delete? then
              var (k, v) := (r.op.key, r.op.value);
              && U32At(b, at) == 32 + |k| + |v| <= |b| - at
              && U32At(b, at + 24) == |k| && b[at + 28..at + 28 + |k|] == k
              && U32At(b, at + 28 + |k|) == |v| && b[at + 32 + |k|..at + 32 + |k| + |v|] == v
            else U32At(b, at) == 24
  {
    hide U32At, I32At, U64At, RecordBytes;
    HeaderRead(b, at, r);
    if r.op.Insert? || r.op.Delete? { PayloadRead(b, at, r); }
  }

  /** A record is read back as it was written, wherever it lies, and the size in its header leads to its end;
      but of a PREPARED record only the LSN is. */
  lemma DeserializeRecord(b: Bytes, at: nat, r: LogRecord)
    requires Loggable(r) && LiesAt(b, at, r)
    ensures at + HEADER_SIZE <= |b| && U32At(b, at) == SizeOf(r.op)
    ensures Deserialize(b, at) == Some(AsRead(r))
  {
    hide U32At, I32At, U64At, RecordBytes;
    HeaderRead(b, at, r);
    if r.op.Insert? || r.op.Delete? { PayloadRead(b, at, r); }
  }

  lemma Join(b: Bytes, x: nat, y: nat, z: nat)
    requires x <= y <= z <= |b|
    ensures b[x..z] == b[x..y] + b[y..z]
  {
  }

  lemma U32Bytes(b: Bytes, at: nat)
    requires at + 4 <= |b|
    ensures b[at..at + 4] == Encode(U32At(b, at), 4)
  {
    hide Encode, Decode;
    EncodeDecode(b[at..at + 4]);
  }

  lemma I32Bytes(b: Bytes, at: nat)
    requires at + 4 <= |b| && -1 <= I32At(b, at) <= MAX_LSN
    ensures b[at..at + 4] == I32(I32At(b, at))
  {
    hide Encode, Decode;
    CapacityOfFour();
    EncodeDecode(b[at..at + 4]);
  }

  lemma HeaderBytes(b: Bytes, at: nat, r: LogRecord)
    requires Loggable(r) && at + HEADER_SIZE <= |b|
    requires U32At(b, at) == SizeOf(r.op) && I32At(b, at + 4) == r.lsn && U64At(b, at + 8) == r.txn
    requires I32At(b, at + 16) == r.prev && U32At(b, at + 20) == TypeCode(r.op)
    ensures b[at..at + HEADER_SIZE] == Header(r)
  {
    hide Encode, Decode, I32, I32At, U32At;
    U32Bytes(b, at);
    I32Bytes(b, at + 4);
    EncodeDecode(b[at + 8..at + 16]);
    I32Bytes(b, at + 16);
    U32Bytes(b, at + 20);
    Join(b, at, at + 4, at + 8);
    Join(b, at, at + 8, at + 16);
    Join(b, at, at + 16, at + 20);
    Join(b, at, at + 20, at + 24);
  }

  lemma PayloadIs(op: Op)
    requires op.Insert? || op.Delete?
    ensures Payload(op) == Encode(|op.key|, 4) + op.key + Encode(|op.value|, 4) + op.value
  {
    hide Encode;
  }

  lemma FourPieces(b: Bytes, at: nat, x: nat, y: nat, z: nat, end: nat)
    requires at <= x <= y <= z <= end <= |b|
    ensures b[at..end] == b[at..x] + b[x..y] + b[y..z] + b[z..end]
  {
    Join(b, at, x, y);
    Join(b, at, y, z);
    Join(b, at, z, end);
  }

  lemma PayloadBytes(b: Bytes, at: nat, op: Op)
    requires (op.Insert? || op.Delete?) && at + 8 + |op.key| + |op.value| <= |b|
    requires U32At(b, at) == |op.key| && b[at + 4..at + 4 + |op.key|] == op.key
    requires U32At(b, at + 4 + |op.key|) == |op.value|
    requires b[at + 8 + |op.key|..at + 8 + |op.key| + |op.value|] == op.value
    ensures b[at..at + |Payload(op)|] == Payload(op)
  {
    hide Encode, Decode, U32At, Payload, SizeOf;
    var (key, value) := (at + 4, at + 8 + |op.key|);
    FourPieces(b, at, key, value - 4, value, value + |op.value|);
    U32Bytes(b, at);
    U32Bytes(b, value - 4);
    PayloadIs(op);
  }

  /** The reader takes nothing else for a record: where it reads one of a type that it knows, and whose size the
      header tells, the bytes of that record lie. With DeserializeRecord, it reads such a record exactly where
      one lies. */
  lemma ReadMeansLies(b: Bytes, at: nat, r: LogRecord)
    requires at + HEADER_SIZE <= |b| && Deserialize(b, at) == Some(r)
    requires Loggable(r) && IsKnown(r.op) && U32At(b, at) == SizeOf(r.op)
    ensures LiesAt(b, at, r)
  {
    hide U32At, I32At, U64At, Header, Payload;
    HeaderBytes(b, at, r);
    if r.op.Insert? || r.op.Delete? {
      PayloadBytes(b, at + 24, r.op);
      Join(b, at, at + 24, at + SizeOf(r.op));
    } else {
      assert Payload(r.op) == [] && Header(r) + [] == Header(r);
    }
  }

  // ---- whole logs -----------------------------------------------------------------------------------

  function Links(rs: seq<LogRecord>): (links: seq<Link>)
    ensures |links| == |rs|
  {
    seq(|rs|, i requires 0 <= i < |rs| => Link(rs[i].txn, rs[i].prev))
  }

  lemma LinksSnoc(e: seq<LogRecord>, r: LogRecord)
    ensures Links(e + [r]) == Links(e) + [Link(r.txn, r.prev)]
    ensures forall t :: LastOf(Links(e + [r]), t) == if t == r.txn then |e| else LastOf(Links(e), t)
  {
    assert Links(e + [r]) == Links(e) + [Link(r.txn, r.prev)];
    assert (Links(e) + [Link(r.txn, r.prev)])[..|e|] == Links(e);
  }

  ghost predicate AllLoggable(rs: seq<LogRecord>) {
    forall i :: 0 <= i < |rs| ==> Loggable(rs[i])
  }

  function LogBytes(rs: seq<LogRecord>): Bytes
    requires AllLoggable(rs)
  {
    if |rs| == 0 then [] else LogBytes(rs[..|rs| - 1]) + RecordBytes(rs[|rs| - 1])
  }

  /** Where record `i` starts. */
  function Offset(rs: seq<LogRecord>, i: nat): nat
    requires AllLoggable(rs) && i <= |rs|
  {
    |LogBytes(rs[..i])|
  }

  lemma {:induction false} LogConcat(a: seq<LogRecord>, b: seq<LogRecord>)
    requires AllLoggable(a) && AllLoggable(b)
    ensures AllLoggable(a + b) && LogBytes(a + b) == LogBytes(a) + LogBytes(b)
  {
    hide Loggable, RecordBytes;
    if |b| == 0 {
      assert a + b == a;
    } else {
      assert (a + b)[..|a + b| - 1] == a + b[..|b| - 1];
      LogConcat(a, b[..|b| - 1]);
    }
  }

  lemma OffsetEnds(rs: seq<LogRecord>)
    requires AllLoggable(rs)
    ensures Offset(rs, 0) == 0 && Offset(rs, |rs|) == |LogBytes(rs)|
  {
    assert rs[..|rs|] == rs;
  }

  /** Record `i` lies at its offset. */
  lemma RecordPlace(rs: seq<LogRecord>, i: nat)
    requires AllLoggable(rs) && i < |rs|
    ensures Offset(rs, i + 1) == Offset(rs, i) + SizeOf(rs[i].op) <= |LogBytes(rs)|
    ensures LiesAt(LogBytes(rs), Offset(rs, i), rs[i])
  {
    hide Loggable, RecordBytes;
    assert rs[..i + 1][..i] == rs[..i];
    LogConcat(rs[..i + 1], rs[i + 1..]);
    assert rs[..i + 1] + rs[i + 1..] == rs;
  }

  lemma {:induction false} OffsetsGrow(rs: seq<LogRecord>, i: nat, j: nat)
    requires AllLoggable(rs) && i <= j <= |rs|
    ensures Offset(rs, i) + HEADER_SIZE * (j - i) <= Offset(rs, j) <= |LogBytes(rs)|
  {
    hide LogBytes, Loggable;
    if i < j {
      OffsetsGrow(rs, i, j - 1);
      RecordPlace(rs, j - 1);
    } else {
      LogConcat(rs[..i], rs[i..]);
      assert rs[..i] + rs[i..] == rs;
    }
  }
}
