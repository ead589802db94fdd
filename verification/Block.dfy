/** The block format: what the builder writes and what the reader and its iterator make of it. */
module Blocks {
  import opened Common
  import opened SortedEntries
  import opened Encoding

  const RESTART_INTERVAL: nat := 20

  function EntryBytes(e: Entry): (b: Bytes)
    ensures |b| == 16 + |e.key| + |e.value|
  {
    U64(|e.key|) + e.key + U64(|e.value|) + e.value
  }

  function EntriesBytes(es: seq<Entry>): Bytes {
    if |es| == 0 then [] else EntriesBytes(es[..|es| - 1]) + EntryBytes(es[|es| - 1])
  }

  /** Where entry `i` starts. */
  function Offset(es: seq<Entry>, i: nat): nat
    requires i <= |es|
  {
    |EntriesBytes(es[..i])|
  }

  /** How many restart points a block of `n` entries has: one at the start, one more for every twenty
      entries that another entry follows. */
  function RestartCount(n: nat): nat {
    if n == 0 then 1 else (n - 1) / RESTART_INTERVAL + 1
  }

  function Restarts(es: seq<Entry>): (rs: seq<nat>)
    ensures |rs| == RestartCount(|es|)
  {
    seq(RestartCount(|es|), j requires 0 <= j < RestartCount(|es|) => Offset(es, RESTART_INTERVAL * j))
  }

  function NumbersBytes(ns: seq<nat>): (b: Bytes)
    ensures |b| == 8 * |ns|
  {
    if |ns| == 0 then [] else NumbersBytes(ns[..|ns| - 1]) + U64(ns[|ns| - 1])
  }

  /** The finished block. */
  function BlockBytes(es: seq<Entry>): (b: Bytes)
    ensures |b| == |EntriesBytes(es)| + 8 * RestartCount(|es|) + 16
  {
    EntriesBytes(es) + U64(RestartCount(|es|)) + NumbersBytes(Restarts(es)) + U64(|EntriesBytes(es)|)
  }

  /** Every length and offset of the block fits in its eight bytes. */
  ghost predicate Fits(es: seq<Entry>) {
    |BlockBytes(es)| < MAX_U64
  }

  lemma {:induction false} EntriesConcat(a: seq<Entry>, b: seq<Entry>)
    ensures EntriesBytes(a + b) == EntriesBytes(a) + EntriesBytes(b)
  {
    hide EntryBytes;
    if |b| == 0 {
      assert a + b == a && EntriesBytes(a) + [] == EntriesBytes(a);
    } else {
      var (init, e) := (b[..|b| - 1], b[|b| - 1]);
      assert (a + b)[..|a + b| - 1] == a + init && (a + b)[|a + b| - 1] == e;
      EntriesConcat(a, init);
      assert EntriesBytes(a + b) == EntriesBytes(a) + EntriesBytes(init) + EntryBytes(e);
    }
  }

  lemma EntriesUpTo(es: seq<Entry>, i: nat)
    requires i < |es|
    ensures EntriesBytes(es[..i + 1]) == EntriesBytes(es[..i]) + EntryBytes(es[i])
  {
    hide EntryBytes;
    assert es[..i + 1][..i] == es[..i];
  }

  /** The bytes around entry `i`. */
  lemma EntryPlace(es: seq<Entry>, i: nat)
    requires i < |es|
    ensures Offset(es, i + 1) == Offset(es, i) + 16 + |es[i].key| + |es[i].value|
    ensures Offset(es, i + 1) <= |EntriesBytes(es)|
    ensures EntriesBytes(es)[Offset(es, i)..Offset(es, i + 1)] == EntryBytes(es[i])
  {
    hide EntryBytes, EntriesBytes;
    EntriesUpTo(es, i);
    EntriesConcat(es[..i + 1], es[i + 1..]);
    assert es[..i + 1] + es[i + 1..] == es;
  }

  lemma {:induction false} OffsetsGrow(es: seq<Entry>, i: nat, j: nat)
    requires i <= j <= |es|
    ensures Offset(es, i) + 16 * (j - i) <= Offset(es, j) <= |EntriesBytes(es)|
  {
    hide EntriesBytes;
    if i < j {
      OffsetsGrow(es, i, j - 1);
      EntryPlace(es, j - 1);
    } else {
      EntriesConcat(es[..i], es[i..]);
      assert es[..i] + es[i..] == es;
    }
  }

  lemma OffsetEnd(es: seq<Entry>)
    ensures Offset(es, |es|) == |EntriesBytes(es)|
  {
    assert es[..|es|] == es;
  }

  lemma EntryFields(e: Entry)
    ensures var (b, k) := (EntryBytes(e), |e.key|);
            && b[0..8] == U64(k) && b[8..8 + k] == e.key
            && b[8 + k..16 + k] == U64(|e.value|) && b[16 + k..16 + k + |e.value|] == e.value
  {
    hide U64;
  }

  lemma SubSlice(b: Bytes, lo: nat, hi: nat, x: nat, y: nat)
    requires lo <= hi <= |b| && x <= y <= hi - lo
    ensures b[lo..hi][x..y] == b[lo + x..lo + y]
  {
    assert |b[lo..hi][x..y]| == y - x;
    forall i | 0 <= i < y - x
      ensures b[lo..hi][x..y][i] == b[lo + x..lo + y][i]
    {
      assert b[lo..hi][x + i] == b[lo + x + i];
    }
  }

  /** The bytes of the fields of entry `i`, in any buffer that starts with the entries. */
  lemma EntrySlices(es: seq<Entry>, i: nat, b: Bytes)
    requires i < |es| && EntriesBytes(es) <= b
    ensures Offset(es, i) + 16 + |es[i].key| + |es[i].value| == Offset(es, i + 1) <= |EntriesBytes(es)| <= |b|
    ensures var (at, k, v) := (Offset(es, i), |es[i].key|, |es[i].value|);
            && b[at..at + 8] == U64(k) && b[at + 8..at + 8 + k] == es[i].key
            && b[at + 8 + k..at + 16 + k] == U64(v) && b[at + 16 + k..at + 16 + k + v] == es[i].value
  {
    hide EntriesBytes, EntryBytes, U64, U64At, Offset;
    EntryPlace(es, i);
    var (at, e, end) := (Offset(es, i), es[i], Offset(es, i + 1));
    var (k, v) := (|e.key|, |e.value|);
    EntryFields(e);
    assert b[at..end] == EntriesBytes(es)[at..end];
    SubSlice(b, at, end, 0, 8);
    SubSlice(b, at, end, 8, 8 + k);
    SubSlice(b, at, end, 8 + k, 16 + k);
    SubSlice(b, at, end, 16 + k, 16 + k + v);
  }

  /** What the reader finds at the offset of entry `i`. */
  lemma EntryRead(es: seq<Entry>, i: nat, b: Bytes)
    requires i < |es| && EntriesBytes(es) <= b && |EntriesBytes(es)| < MAX_U64
    ensures Offset(es, i) + 16 + |es[i].key| + |es[i].value| == Offset(es, i + 1) <= |EntriesBytes(es)| <= |b|
    ensures var (at, k) := (Offset(es, i), |es[i].key|);
            && U64At(b, at) == k
            && b[at + 8..at + 8 + k] == es[i].key
            && U64At(b, at + 8 + k) == |es[i].value|
            && b[at + 16 + k..at + 16 + k + |es[i].value|] == es[i].value
  {
    hide EntriesBytes, EntryBytes, U64, U64At, Offset;
    EntrySlices(es, i, b);
    U64RoundTrip(b, Offset(es, i), |es[i].key|);
    U64RoundTrip(b, Offset(es, i) + 8 + |es[i].key|, |es[i].value|);
  }

  lemma {:induction false} NumberPlace(ns: seq<nat>, j: nat)
    requires j < |ns|
    ensures NumbersBytes(ns)[8 * j..8 * j + 8] == U64(ns[j])
  {
    hide U64;
    if j < |ns| - 1 {
      NumberPlace(ns[..|ns| - 1], j);
      assert NumbersBytes(ns)[8 * j..8 * j + 8] == NumbersBytes(ns[..|ns| - 1])[8 * j..8 * j + 8];
    }
  }

  /** What the reader finds in the trailer. */
  lemma TrailerRead(es: seq<Entry>)
    requires Fits(es)
    ensures var (b, n) := (BlockBytes(es), |EntriesBytes(es)|);
            && EntriesBytes(es) <= b
            && U64At(b, |b| - 8) == n
            && U64At(b, n) == RestartCount(|es|)
            && forall j :: 0 <= j < RestartCount(|es|) ==> U64At(b, n + 8 + 8 * j) == Restarts(es)[j]
  {
    hide EntriesBytes, U64, U64At, Offset, NumbersBytes;
    var (b, n, c) := (BlockBytes(es), |EntriesBytes(es)|, RestartCount(|es|));
    assert b[|b| - 8..|b| - 8 + 8] == U64(n);
    U64RoundTrip(b, |b| - 8, n);
    assert b[n..n + 8] == U64(c);
    U64RoundTrip(b, n, c);
    var ns := NumbersBytes(Restarts(es));
    assert b[n + 8..n + 8 + 8 * c] == ns;
    forall j | 0 <= j < c
      ensures U64At(b, n + 8 + 8 * j) == Restarts(es)[j]
    {
      NumberPlace(Restarts(es), j);
      assert b[n + 8 + 8 * j..n + 8 + 8 * j + 8] == ns[8 * j..8 * j + 8];
      OffsetsGrow(es, RESTART_INTERVAL * j, |es|);
      U64RoundTrip(b, n + 8 + 8 * j, Restarts(es)[j]);
    }
  }

  lemma OffsetSnoc(es: seq<Entry>, e: Entry, i: nat)
    requires i <= |es|
    ensures Offset(es + [e], i) == Offset(es, i)
  {
    hide EntriesBytes;
    assert (es + [e])[..i] == es[..i];
  }

  /** A further entry starts a new restart point exactly when the last one has its twenty entries. */
  lemma RestartsSnoc(es: seq<Entry>, e: Entry)
    ensures Restarts(es + [e]) ==
            Restarts(es) + if |es| > 0 && |es| % 20 == 0 then [|EntriesBytes(es)|] else []
  {
    hide EntriesBytes, Offset;
    var (rs, rs') := (Restarts(es), Restarts(es + [e]));
    forall j | 0 <= j < |rs|
      ensures rs'[j] == rs[j]
    {
      OffsetSnoc(es, e, RESTART_INTERVAL * j);
    }
    OffsetEnd(es);
    OffsetSnoc(es, e, |es|);
  }

  lemma EntriesSnoc(es: seq<Entry>, e: Entry)
    ensures EntriesBytes(es + [e]) == EntriesBytes(es) + EntryBytes(e)
  {
    assert (es + [e])[..|es|] == es;
  }

  lemma SortedSnoc(es: seq<Entry>, e: Entry)
    requires Sorted(es) && (|es| > 0 ==> Less(es[|es| - 1].key, e.key))
    ensures Sorted(es + [e])
  {
    hide Less;
    forall i | 0 <= i < |es| - 1
      ensures Less(es[i].key, e.key)
    {
      LessIsTransitive(es[i].key, es[|es| - 1].key, e.key);
    }
  }

  class BlockBuilder {
    var buffer: Bytes
    var restarts: seq<nat>
    var counter: nat
    var lastKey: Bytes
    var finished: bool
    ghost var es: seq<Entry>

    ghost predicate Valid()
      reads this
    {
      && Sorted(es)
      && buffer == (if finished then BlockBytes(es) else EntriesBytes(es))
      && restarts == Restarts(es)
      && counter == (if |es| == 0 then 0 else (|es| - 1) % RESTART_INTERVAL + 1)
      && lastKey == if |es| == 0 then [] else es[|es| - 1].key
    }

    constructor ()
      ensures Valid() && !finished && es == []
    {
      buffer, restarts, counter, lastKey, finished := [], [0], 0, [], false;
      es := [];
    }

    predicate Empty()
      reads this
    {
      |buffer| == 0
    }

    lemma LastKeyIs()
      requires Valid()
      ensures lastKey == if |es| == 0 then [] else es[|es| - 1].key
    {
    }

    lemma EmptyMeansNone()
      requires Valid() && !finished
      ensures Empty() <==> es == []
    {
    }

    lemma EntryBytesAre(key: Bytes, value: Bytes)
      ensures EntryBytes(Entry(key, value)) == U64(|key|) + key + U64(|value|) + value
    {
    }

    method Add(key: Bytes, value: Bytes)
      requires Valid() && !finished && (Empty() || Less(lastKey, key))
      modifies this
      ensures Valid() && !finished && es == old(es) + [Entry(key, value)]
    {
      hide EntriesBytes, EntryBytes, Less, Restarts, U64, Sorted, BlockBytes;
      EmptyMeansNone();
      RestartsSnoc(es, Entry(key, value));
      EntriesSnoc(es, Entry(key, value));
      SortedSnoc(es, Entry(key, value));
      if counter == RESTART_INTERVAL {
        restarts := restarts + [|buffer|];
        counter := 0;
      }
      assert EntryBytes(Entry(key, value)) == U64(|key|) + key + U64(|value|) + value by { EntryBytesAre(key, value); }
      ghost var before := buffer;
      buffer := buffer + U64(|key|);
      buffer := buffer + key;
      buffer := buffer + U64(|value|);
      buffer := buffer + value;
      assert buffer == before + (U64(|key|) + key + U64(|value|) + value);
      lastKey := key;
      counter := counter + 1;
      es := es + [Entry(key, value)];
    }

    /** Appends the restart points and closes the block. */
    method Finish() returns (block: Bytes)
      requires Valid() && !finished
      modifies this
      ensures Valid() && finished && es == old(es) && block == BlockBytes(es)
    {
      hide EntriesBytes, Restarts, U64, Sorted;
      var position := |buffer|;
      buffer := buffer + U64(|restarts|);
      ghost var before := buffer;
      for i := 0 to |restarts|
        invariant unchanged(`restarts, `counter, `lastKey, `es)
        invariant buffer == before + NumbersBytes(restarts[..i])
      {
        assert restarts[..i + 1][..i] == restarts[..i];
        buffer := buffer + U64(restarts[i]);
      }
      assert restarts[..|restarts|] == restarts;
      buffer := buffer + U64(position);
      finished := true;
      return buffer;
    }

    method Reset()
      modifies this
      ensures Valid() && !finished && es == []
    {
      buffer, restarts, counter, lastKey, finished := [], [], 0, [], false;
      restarts := restarts + [0];
      es := [];
    }

    function EstimatedSize(): nat
      reads this
    {
      |buffer| + |restarts| * 8 + 8 * 2
    }

    /** The estimate is the length that the block will have. */
    lemma EstimateIsExact()
      requires Valid() && !finished
      ensures EstimatedSize() == |BlockBytes(es)|
    {
      hide EntriesBytes;
    }
  }

  lemma OffsetStart(es: seq<Entry>)
    ensures Offset(es, 0) == 0
  {
  }

  lemma BlockFits(es: seq<Entry>)
    requires Fits(es)
    ensures |EntriesBytes(es)| < MAX_U64
  {
    hide EntriesBytes;
  }

  class Block {
    const content: Bytes
    const restartOffset: nat
    const restartSize: nat
    const restarts: seq<nat>
    ghost const es: seq<Entry>

    ghost predicate Valid() {
      && Fits(es) && content == BlockBytes(es) && EntriesBytes(es) <= content
      && restartOffset == |EntriesBytes(es)|
      && restartSize == RestartCount(|es|) && restarts == Restarts(es)
    }

    /** Reads the trailer of a finished block. */
    constructor (content: Bytes, ghost es: seq<Entry>)
      requires content == BlockBytes(es) && Fits(es)
      ensures Valid() && this.es == es
    {
      hide EntriesBytes, Restarts, U64At, BlockBytes;
      TrailerRead(es);
      assert |content| == |EntriesBytes(es)| + 8 * RestartCount(|es|) + 16;
      this.content := content;
      this.es := es;
      var offset := U64At(content, |content| - 8);
      this.restartOffset := offset;
      this.restartSize := U64At(content, offset);
      var start, end := offset + 8, |content| - 8;
      var found: seq<nat> := [];
      var i := start;
      while i < end
        invariant i == start + 8 * |found| <= end
        invariant found == Restarts(es)[..|found|]
      {
        found := found + [U64At(content, i)];
        i := i + 8;
      }
      this.restarts := found;
    }

    /** Scans the entries from the front for the key. */
    method Get(key: Bytes) returns (found: bool, value: Bytes)
      requires Valid() && Sorted(es)
      ensures found <==> Lookup(es, key).Some?
      ensures value == if found then Lookup(es, key).value else []
    {
      hide EntriesBytes, Restarts, U64At, BlockBytes, Fits, Sorted, Less, Rank, Offset;
      var pos: nat := 0;
      ghost var i: nat := 0;
      OffsetStart(es);
      OffsetEnd(es);
      while pos < restartOffset
        invariant i <= |es| && pos == Offset(es, i) <= restartOffset
        invariant forall j :: 0 <= j < i ==> es[j].key != key
        decreases |es| - i
      {
        BlockFits(es);
        EntryRead(es, i, content);
        var keySize := U64At(content, pos);
        var valueOffset := pos + 8 + keySize;
        var valueSize := U64At(content, valueOffset);
        var s := content[pos + 8..pos + 8 + keySize];
        if s == key {
          FoundAt(es, i);
          return true, content[valueOffset + 8..valueOffset + 8 + valueSize];
        }
        pos := valueOffset + valueSize + 8;
        i := i + 1;
      }
      if i < |es| { OffsetsGrow(es, i, |es|); }
      return false, [];
    }
  }

  lemma AllBelow(es: seq<Entry>, key: Bytes)
    requires Sorted(es) && |es| > 0 && Less(es[|es| - 1].key, key)
    ensures Rank(es, key) == |es|
  {
  }

  lemma EmptyBytes(b: Bytes)
    requires b == U64(1) + U64(0) + U64(0)
    ensures U64At(b, 0) == 1 && b[8..9] == [0] && U64At(b, 9) == 0
  {
    hide Encode, Decode;
    U64RoundTrip(b, 0, 1);
    EncodeZero(8);
    assert forall i :: 8 <= i < 24 ==> b[i] == 0;
    DecodeZeros(b[9..17]);
  }

  /** The bytes that the reader finds where the first entry of an empty block would be. */
  lemma EmptyBlockRead(b: Bytes)
    requires b == BlockBytes([])
    ensures |b| == 24 && U64At(b, 0) == 1 && b[8..9] == [0] && U64At(b, 9) == 0
  {
    hide U64, U64At;
    assert Restarts([]) == [0];
    assert NumbersBytes([0]) == [] + U64(0) == U64(0);
    assert b == U64(1) + U64(0) + U64(0);
    EmptyBytes(b);
  }

  /** The last restart point is on an entry, as the reader asserts before it reads there, if and only if the block has
      one. */
  lemma LastRestartIff(es: seq<Entry>)
    ensures Restarts(es)[|Restarts(es)| - 1] < |EntriesBytes(es)| <==> es != []
  {
    hide EntriesBytes;
    var last := |Restarts(es)| - 1;
    if es == [] {
      OffsetStart(es);
    } else {
      OffsetsGrow(es, RESTART_INTERVAL * last, |es|);
      OffsetEnd(es);
    }
  }

  /** A cursor over a block, on entry `pos`, or past the last entry. */
  class BlockIterator {
    const block: Block
    var current: nat
    var key: Bytes
    var value: Bytes
    ghost var pos: nat

    ghost predicate Synced()
      reads this
    {
      && block.Valid() && pos <= |block.es| && current == Offset(block.es, pos)
      && (pos < |block.es| ==> key == block.es[pos].key && value == block.es[pos].value)
    }

    constructor (block: Block)
      requires block.Valid()
      ensures this.block == block && Synced() && pos == |block.es|
    {
      OffsetEnd(block.es);
      this.block, current, key, value, pos := block, block.restartOffset, [], [], |block.es|;
    }

    predicate Valid()
      reads this
    {
      current < block.restartOffset
    }

    lemma ValidMeansOnEntry()
      requires block.Valid() && pos <= |block.es| && current == Offset(block.es, pos)
      ensures Valid() <==> pos < |block.es|
    {
      hide EntriesBytes;
      OffsetsGrow(block.es, pos, |block.es|);
      OffsetEnd(block.es);
    }

    /** Reads the entry under the cursor; in a block without entries, a key of one zero byte from the trailer. */
    method ExtractKeyValue()
      requires block.Valid() && pos <= |block.es| && current == Offset(block.es, pos) && (Valid() || block.es == [])
      modifies this`key, this`value
      ensures Synced() && (block.es != [] ==> pos < |block.es|)
      ensures block.es == [] ==> key == [0] && value == []
    {
      hide EntriesBytes, Restarts, U64At, BlockBytes, Fits, Offset;
      ValidMeansOnEntry();
      BlockFits(block.es);
      if block.es == [] {
        OffsetStart(block.es);
        EmptyBlockRead(block.content);
      } else {
        EntryRead(block.es, pos, block.content);
      }
      var keySize := U64At(block.content, current);
      key := block.content[current + 8..current + 8 + keySize];
      var valueOffset := current + 8 + keySize;
      var valueSize := U64At(block.content, valueOffset);
      value := block.content[valueOffset + 8..valueOffset + 8 + valueSize];
    }

    method SeekToFirst()
      requires block.Valid()
      modifies this
      ensures Synced() && pos == 0 && (block.es == [] ==> key == old(key))
    {
      current, pos := 0, 0;
      OffsetStart(block.es);
      ValidMeansOnEntry();
      if Valid() {
        ExtractKeyValue();
      }
    }

    method Next()
      requires Synced() && Valid()
      modifies this
      ensures Synced() && pos == old(pos) + 1
    {
      hide EntriesBytes, Restarts, U64At, BlockBytes, Fits, Offset;
      ValidMeansOnEntry();
      BlockFits(block.es);
      EntryRead(block.es, pos, block.content);
      current, pos := current + 8 * 2 + |key| + |value|, pos + 1;
      ValidMeansOnEntry();
      if Valid() {
        ExtractKeyValue();
      }
    }

    /** Starts at the last restart point and walks on to the last entry, if there is one. */
    method SeekToLast()
      requires block.Valid()
      modifies this
      ensures Synced() && pos == if block.es == [] then 0 else |block.es| - 1
      ensures block.es == [] ==> key == [0]
    {
      hide EntriesBytes, U64At, BlockBytes, Fits, Offset;
      current := block.restarts[|block.restarts| - 1];
      pos := RESTART_INTERVAL * (|block.restarts| - 1);
      ValidMeansOnEntry();
      ExtractKeyValue();
      while true
        invariant Synced() && (pos < |block.es| || (block.es == [] && key == [0] && value == []))
        decreases |block.es| - pos
      {
        if block.es != [] {
          BlockFits(block.es);
          EntryRead(block.es, pos, block.content);
          OffsetsGrow(block.es, pos + 1, |block.es|);
        } else {
          OffsetStart(block.es);
        }
        OffsetEnd(block.es);
        ValidMeansOnEntry();
        var next := current + 8 * 2 + |key| + |value|;
        if next >= block.restartOffset {
          return;
        }
        Next();
      }
    }

    /** Stands on the least key that is at least the argument, or past the end. */
    method Seek(key: Bytes)
      requires block.Valid() && Sorted(block.es)
      modifies this
      ensures Synced() && pos == Rank(block.es, key)
    {
      hide EntriesBytes, U64At, BlockBytes, Fits, Offset, Rank, Less;
      SeekToLast();
      if Less(this.key, key) {
        OffsetEnd(block.es);
        current, pos := block.restartOffset, |block.es|;
        if block.es != [] { AllBelow(block.es, key); }
        return;
      }
      SeekToFirst();
      ghost var r := Rank(block.es, key);
      while Less(this.key, key)
        invariant Synced() && (pos < |block.es| || (block.es == [] && !Less(this.key, key)))
        invariant forall i :: 0 <= i < pos ==> Less(block.es[i].key, key)
        decreases |block.es| - pos
      {
        ValidMeansOnEntry();
        Next();
        ValidMeansOnEntry();
        if !Valid() {
          return;
        }
      }
      assert r < |block.es| ==> !Less(block.es[r].key, key);
    }
  }
}
