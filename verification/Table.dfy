/** The table file: compressed data blocks, a compressed index of their last keys, and the handle of the
    index; its writer, its reader, and why the reader answers as the memtable did. */
module Tables {
  import opened Common
  import opened SortedEntries
  import opened Encoding
  import opened Blocks
  import SkipLists

  const BLOCK_SPACE: nat := 4 * 1024

  /** The entries of all the blocks, in order. */
  function Flatten(chunks: seq<seq<Entry>>): seq<Entry> {
    if |chunks| == 0 then [] else Flatten(chunks[..|chunks| - 1]) + chunks[|chunks| - 1]
  }

  ghost predicate NoneEmpty(chunks: seq<seq<Entry>>) {
    forall i :: 0 <= i < |chunks| ==> |chunks[i]| > 0
  }

  function Packed(codec: Codec, es: seq<Entry>): Bytes {
    codec.compress(BlockBytes(es))
  }

  function DataBytes(codec: Codec, chunks: seq<seq<Entry>>): Bytes {
    if |chunks| == 0 then []
    else DataBytes(codec, chunks[..|chunks| - 1]) + Packed(codec, chunks[|chunks| - 1])
  }

  /** The index entry of a block: its last key, and where it lies. */
  function IndexEntry(codec: Codec, chunks: seq<seq<Entry>>, i: nat): Entry
    requires i < |chunks| && |chunks[i]| > 0
  {
    Entry(chunks[i][|chunks[i]| - 1].key, U64(|DataBytes(codec, chunks[..i])|) + U64(|Packed(codec, chunks[i])|))
  }

  function IndexEntries(codec: Codec, chunks: seq<seq<Entry>>): (es: seq<Entry>)
    requires NoneEmpty(chunks)
    ensures |es| == |chunks|
    ensures forall i :: 0 <= i < |es| ==> es[i] == IndexEntry(codec, chunks, i)
  {
    seq(|chunks|, i requires 0 <= i < |chunks| => IndexEntry(codec, chunks, i))
  }

  function FileBytes(codec: Codec, chunks: seq<seq<Entry>>): Bytes
    requires NoneEmpty(chunks)
  {
    var (data, index) := (DataBytes(codec, chunks), Packed(codec, IndexEntries(codec, chunks)));
    data + index + U64(|data|) + U64(|index|)
  }

  // ---- sorted lists, cut in pieces ------------------------------------------------------------------

  lemma SortedPieces(a: seq<Entry>, b: seq<Entry>)
    requires Sorted(a + b)
    ensures Sorted(a) && Sorted(b)
    ensures forall i, j :: 0 <= i < |a| && 0 <= j < |b| ==> Less(a[i].key, b[j].key)
  {
    hide Less;
    forall i, j | 0 <= i < j < |a|
      ensures Less(a[i].key, a[j].key)
    {
      assert (a + b)[i] == a[i] && (a + b)[j] == a[j];
    }
    forall i, j | 0 <= i < j < |b|
      ensures Less(b[i].key, b[j].key)
    {
      assert (a + b)[|a| + i] == b[i] && (a + b)[|a| + j] == b[j];
    }
    forall i, j | 0 <= i < |a| && 0 <= j < |b|
      ensures Less(a[i].key, b[j].key)
    {
      assert (a + b)[i] == a[i] && (a + b)[|a| + j] == b[j];
    }
  }

  /** A key past all of the first piece is looked up in the second. */
  lemma LookupBehind(a: seq<Entry>, b: seq<Entry>, k: Bytes)
    requires Sorted(a + b) && (|a| > 0 ==> Less(a[|a| - 1].key, k))
    ensures Sorted(b) && Lookup(a + b, k) == Lookup(b, k)
  {
    hide Less, Rank;
    SortedPieces(a, b);
    var r := Rank(b, k);
    forall i | 0 <= i < |a|
      ensures Less(a[i].key, k)
    {
      if i < |a| - 1 { LessIsTransitive(a[i].key, a[|a| - 1].key, k); }
    }
    forall i | |a| + r <= i < |a + b|
      ensures !Less((a + b)[i].key, k)
    {
      assert (a + b)[i] == b[i - |a|];
    }
    RankIsUnique(a + b, k, |a| + r);
  }

  /** A key not past the first piece is looked up there. */
  lemma LookupWithin(a: seq<Entry>, b: seq<Entry>, k: Bytes)
    requires Sorted(a + b) && |a| > 0 && !Less(a[|a| - 1].key, k)
    ensures Sorted(a) && Lookup(a + b, k) == Lookup(a, k)
  {
    hide Less, Rank;
    SortedPieces(a, b);
    var r := Rank(a, k);
    assert r < |a|;
    forall i | r <= i < |a + b|
      ensures !Less((a + b)[i].key, k)
    {
      if i >= |a| {
        var (x, y) := (a[|a| - 1].key, b[i - |a|].key);
        assert Less(x, y);
        if Less(y, k) { LessIsTransitive(x, y, k); }
      }
    }
    RankIsUnique(a + b, k, r);
  }

  lemma {:induction false} FlattenConcat(a: seq<seq<Entry>>, b: seq<seq<Entry>>)
    ensures Flatten(a + b) == Flatten(a) + Flatten(b)
  {
    if |b| == 0 {
      assert a + b == a;
    } else {
      assert (a + b)[..|a + b| - 1] == a + b[..|b| - 1];
      FlattenConcat(a, b[..|b| - 1]);
    }
  }

  lemma FlattenSplit(chunks: seq<seq<Entry>>, i: nat)
    requires i < |chunks|
    ensures Flatten(chunks) == Flatten(chunks[..i]) + (chunks[i] + Flatten(chunks[i + 1..]))
  {
    assert chunks == chunks[..i + 1] + chunks[i + 1..] && chunks[..i + 1][..i] == chunks[..i];
    FlattenConcat(chunks[..i + 1], chunks[i + 1..]);
  }

  lemma FlattenEndsWith(chunks: seq<seq<Entry>>, i: nat)
    requires i < |chunks| && |chunks[i]| > 0
    ensures var (all, c) := (Flatten(chunks[..i + 1]), chunks[i]);
            |all| >= |c| && all == all[..|all| - |c|] + c && all[|all| - 1] == c[|c| - 1]
  {
    assert chunks[..i + 1][..i] == chunks[..i];
  }

  /** The last key of a block is below that of what follows it. */
  lemma LastKeysGrow(chunks: seq<seq<Entry>>, c: seq<Entry>)
    requires |chunks| > 0 && NoneEmpty(chunks) && |c| > 0 && Sorted(Flatten(chunks) + c)
    ensures var last := chunks[|chunks| - 1]; Less(last[|last| - 1].key, c[|c| - 1].key)
  {
    hide Flatten, Less;
    assert chunks[..|chunks| - 1 + 1] == chunks;
    FlattenEndsWith(chunks, |chunks| - 1);
    SortedPieces(Flatten(chunks), c);
  }

  lemma FlattenNothing(chunks: seq<seq<Entry>>)
    requires chunks == []
    ensures Flatten(chunks) == []
  {
  }

  lemma LastIndexKey(codec: Codec, chunks: seq<seq<Entry>>)
    requires |chunks| > 0 && NoneEmpty(chunks)
    ensures var (es, last) := (IndexEntries(codec, chunks), chunks[|chunks| - 1]);
            |es| == |chunks| && |last| > 0 && es[|es| - 1].key == last[|last| - 1].key
  {
    hide Packed, DataBytes;
  }

  /** The two-level search: the first block whose last key is not below the key answers for the table. */
  lemma TwoLevelLookup(chunks: seq<seq<Entry>>, i: nat, k: Bytes)
    requires NoneEmpty(chunks) && Sorted(Flatten(chunks)) && i < |chunks|
    requires i > 0 ==> Less(chunks[i - 1][|chunks[i - 1]| - 1].key, k)
    requires !Less(chunks[i][|chunks[i]| - 1].key, k)
    ensures Sorted(chunks[i]) && Lookup(Flatten(chunks), k) == Lookup(chunks[i], k)
  {
    hide Flatten, Less, Lookup, Sorted;
    FlattenSplit(chunks, i);
    var (a, b) := (Flatten(chunks[..i]), chunks[i] + Flatten(chunks[i + 1..]));
    if i == 0 {
      FlattenNothing(chunks[..0]);
    } else {
      FlattenEndsWith(chunks, i - 1);
    }
    LookupBehind(a, b, k);
    LookupWithin(chunks[i], Flatten(chunks[i + 1..]), k);
  }

  /** A key past every block is absent. */
  lemma NoBlockHolds(chunks: seq<seq<Entry>>, k: Bytes)
    requires NoneEmpty(chunks) && Sorted(Flatten(chunks))
    requires |chunks| > 0 ==> Less(chunks[|chunks| - 1][|chunks[|chunks| - 1]| - 1].key, k)
    ensures Lookup(Flatten(chunks), k) == None
  {
    if |chunks| > 0 {
      FlattenEndsWith(chunks, |chunks| - 1);
      assert chunks[..|chunks|] == chunks;
      AllBelow(Flatten(chunks), k);
    }
  }

  // ---- where the blocks lie -------------------------------------------------------------------------

  lemma {:induction false} BlockPlace(codec: Codec, chunks: seq<seq<Entry>>, i: nat)
    requires i < |chunks|
    ensures var (at, p) := (|DataBytes(codec, chunks[..i])|, Packed(codec, chunks[i]));
            at + |p| <= |DataBytes(codec, chunks)| && DataBytes(codec, chunks)[at..at + |p|] == p
  {
    hide Packed;
    var (init, last) := (chunks[..|chunks| - 1], |chunks| - 1);
    if i < last {
      BlockPlace(codec, init, i);
      assert init[..i] == chunks[..i];
    }
  }

  lemma {:induction false} Sizes(chunks: seq<seq<Entry>>)
    requires NoneEmpty(chunks)
    ensures |chunks| <= |Flatten(chunks)|
  {
    if |chunks| > 0 { Sizes(chunks[..|chunks| - 1]); }
  }

  lemma {:induction false} EntriesLength(es: seq<Entry>)
    ensures |EntriesBytes(es)| == Space(es) + 16 * |es|
  {
    if |es| > 0 { EntriesLength(es[..|es| - 1]); }
  }

  lemma SpaceNothing(es: seq<Entry>)
    requires es == []
    ensures Space(es) == 0
  {
  }

  lemma SpaceSnoc(es: seq<Entry>, e: Entry)
    ensures Space(es + [e]) == Space(es) + |e.key| + |e.value|
  {
    assert (es + [e])[..|es|] == es;
  }

  /** Closing a block adds its bytes to the data and its entry to the index. */
  lemma ChunkAdded(codec: Codec, chunks: seq<seq<Entry>>, c: seq<Entry>)
    requires NoneEmpty(chunks) && |c| > 0
    ensures NoneEmpty(chunks + [c])
    ensures Flatten(chunks + [c]) == Flatten(chunks) + c
    ensures DataBytes(codec, chunks + [c]) == DataBytes(codec, chunks) + Packed(codec, c)
    ensures IndexEntries(codec, chunks + [c]) == IndexEntries(codec, chunks) +
              [Entry(c[|c| - 1].key, U64(|DataBytes(codec, chunks)|) + U64(|Packed(codec, c)|))]
  {
    hide U64, Packed;
    var chunks' := chunks + [c];
    assert chunks'[..|chunks|] == chunks;
    forall i | 0 <= i < |chunks|
      ensures IndexEntries(codec, chunks')[i] == IndexEntries(codec, chunks)[i]
    {
      assert chunks'[..i] == chunks[..i];
    }
  }

  /** The index is no larger than the entries and a handle for each block. */
  lemma {:induction false} IndexSpace(codec: Codec, chunks: seq<seq<Entry>>)
    requires NoneEmpty(chunks)
    ensures Space(IndexEntries(codec, chunks)) <= Space(Flatten(chunks)) + 16 * |chunks|
  {
    hide Space, DataBytes, Packed;
    if |chunks| == 0 {
      SpaceNothing(IndexEntries(codec, chunks));
    } else {
      var (init, c) := (chunks[..|chunks| - 1], chunks[|chunks| - 1]);
      IndexSpace(codec, init);
      assert init + [c] == chunks;
      ChunkAdded(codec, init, c);
      SpaceSnoc(IndexEntries(codec, init), IndexEntries(codec, chunks)[|init|]);
      SpaceConcat(Flatten(init), c);
      assert c == c[..|c| - 1] + [c[|c| - 1]];
      SpaceSnoc(c[..|c| - 1], c[|c| - 1]);
    }
  }

  lemma BlockLength(es: seq<Entry>)
    ensures |BlockBytes(es)| <= Space(es) + 24 * |es| + 24
  {
    hide EntriesBytes, Space;
    EntriesLength(es);
  }

  lemma {:induction false} DataLength(codec: Codec, chunks: seq<seq<Entry>>)
    requires codec.Lossless() && NoneEmpty(chunks)
    ensures |DataBytes(codec, chunks)| <= 2 * Space(Flatten(chunks)) + 128 * |Flatten(chunks)|
  {
    hide Space;
    if |chunks| > 0 {
      var (init, c) := (chunks[..|chunks| - 1], chunks[|chunks| - 1]);
      DataLength(codec, init);
      SpaceConcat(Flatten(init), c);
      BlockLength(c);
    }
  }

  /** The entries are few and short enough for every size and offset of their table file to fit in eight
      bytes. */
  ghost predicate Small(es: seq<Entry>) {
    4 * Space(es) + 208 * |es| + 96 < MAX_U64
  }

  lemma FileFits(codec: Codec, chunks: seq<seq<Entry>>)
    requires codec.Lossless() && NoneEmpty(chunks) && Small(Flatten(chunks))
    ensures Fits(IndexEntries(codec, chunks)) && |FileBytes(codec, chunks)| < MAX_U64
  {
    hide Flatten, Space, DataBytes, BlockBytes;
    IndexSpace(codec, chunks);
    Sizes(chunks);
    DataLength(codec, chunks);
    BlockLength(IndexEntries(codec, chunks));
  }

  lemma ChunkFits(chunks: seq<seq<Entry>>, i: nat)
    requires NoneEmpty(chunks) && Small(Flatten(chunks)) && i < |chunks|
    ensures Fits(chunks[i])
  {
    hide Flatten, Space, BlockBytes;
    var (a, c, b) := (Flatten(chunks[..i]), chunks[i], Flatten(chunks[i + 1..]));
    FlattenSplit(chunks, i);
    SpaceConcat(a, c + b);
    SpaceConcat(c, b);
    BlockLength(c);
  }

  // ---- the writer -----------------------------------------------------------------------------------

  /** A block that was closed because it had grown to 4 KiB. */
  ghost predicate Full(c: seq<Entry>) {
    |c| > 0 && |BlockBytes(c)| >= 4096 && |BlockBytes(c[..|c| - 1])| < 4096
  }

  /** Every block is closed as soon as it is full, and only the last may be shorter. */
  ghost predicate CutWhenFull(chunks: seq<seq<Entry>>) {
    forall i :: 0 <= i < |chunks| ==> Full(chunks[i]) || (i == |chunks| - 1 && |BlockBytes(chunks[i])| < 4096)
  }

  lemma FullBySnoc(es: seq<Entry>, e: Entry)
    requires |BlockBytes(es)| < BLOCK_SPACE && |BlockBytes(es + [e])| >= BLOCK_SPACE
    ensures Full(es + [e])
  {
    hide BlockBytes;
    assert (es + [e])[..|es|] == es;
  }

  class TableBuilder {
    const codec: Codec
    var file: Bytes
    var offset: nat
    var size: nat
    var numEntries: nat
    var lastKey: Bytes
    const datablock: BlockBuilder
    const indexblock: BlockBuilder
    ghost var chunks: seq<seq<Entry>>

    /** Every entry added so far. */
    ghost function Added(): seq<Entry>
      reads this, datablock
    {
      Flatten(chunks) + datablock.es
    }

    ghost predicate Valid()
      reads this, datablock, indexblock
    {
      && datablock != indexblock
      && datablock.Valid() && !datablock.finished && indexblock.Valid() && !indexblock.finished
      && NoneEmpty(chunks) && Sorted(Added())
      && file == DataBytes(codec, chunks) && offset == |file|
      && indexblock.es == IndexEntries(codec, chunks)
      && numEntries == |Added()|
      && lastKey == if |Added()| == 0 then [] else Added()[|Added()| - 1].key
    }

    /** No block has been left open when full, or closed before. */
    ghost predicate Cut()
      reads this, datablock
    {
      (forall i :: 0 <= i < |chunks| ==> Full(chunks[i])) && |BlockBytes(datablock.es)| < BLOCK_SPACE
    }

    constructor (codec: Codec)
      ensures Valid() && Cut() && Added() == [] && this.codec == codec
      ensures fresh(datablock) && fresh(indexblock)
    {
      this.codec, file, offset, size, numEntries, lastKey := codec, [], 0, 0, 0, [];
      datablock := new BlockBuilder();
      indexblock := new BlockBuilder();
      chunks := [];
    }

    lemma PackedIs(c: seq<Entry>)
      ensures Packed(codec, c) == codec.compress(BlockBytes(c))
    {
    }

    /** The key of the next index entry is above the last one. */
    lemma IndexGrows()
      requires Valid() && datablock.es != []
      ensures indexblock.Empty() || Less(indexblock.lastKey, lastKey)
    {
      hide DataBytes, Packed, U64, Less, Flatten, Sorted, NoneEmpty, IndexEntries, IndexEntry, BlockBuilder.Empty;
      hide BlockBuilder.Valid;
      indexblock.EmptyMeansNone();
      indexblock.LastKeyIs();
      assert Added()[|Added()| - 1] == datablock.es[|datablock.es| - 1];
      if chunks != [] {
        LastIndexKey(codec, chunks);
        LastKeysGrow(chunks, datablock.es);
      }
    }

    /** Closes and writes the data block, and notes it in the index. */
    method WriteDataBlock()
      requires Valid() && datablock.es != []
      modifies this, datablock, indexblock
      ensures Valid() && Added() == old(Added()) && datablock.es == []
      ensures chunks == old(chunks) + [old(datablock.es)]
    {
      hide Flatten, DataBytes, Packed, IndexEntries, NoneEmpty, U64, Sorted, Less, BlockBytes, BlockBuilder.Valid;
      hide BlockBuilder.Empty;
      ghost var c := datablock.es;
      ChunkAdded(codec, chunks, c);
      assert Added()[|Added()| - 1] == c[|c| - 1];
      IndexGrows();
      var content := datablock.Finish();
      var compressed := codec.compress(content);
      assert compressed == Packed(codec, c) by { PackedIs(c); }
      file := file + compressed;
      size := |compressed|;
      var s := U64(offset) + U64(size);
      offset := offset + size;
      indexblock.Add(lastKey, s);
      datablock.Reset();
      chunks := chunks + [c];
      assert Added() == old(Added());
    }

    method Flush()
      requires Valid()
      modifies this, datablock, indexblock
      ensures Valid() && Added() == old(Added()) && datablock.es == []
      ensures chunks == if old(datablock.es) == [] then old(chunks) else old(chunks) + [old(datablock.es)]
    {
      hide Flatten, DataBytes, Packed, IndexEntries, NoneEmpty, U64, Sorted, Less, BlockBytes, BlockBuilder.Valid;
      datablock.EmptyMeansNone();
      if datablock.Empty() {
        return;
      }
      WriteDataBlock();
    }

    static lemma EmptyBlock()
      ensures |BlockBytes([])| == 24
    {
    }

    lemma CanAdd(key: Bytes)
      requires Valid() && (Added() == [] || Less(Added()[|Added()| - 1].key, key))
      ensures datablock.Empty() || Less(datablock.lastKey, key)
    {
      hide Flatten, Less;
      datablock.EmptyMeansNone();
      if datablock.es != [] {
        assert Added()[|Added()| - 1] == datablock.es[|datablock.es| - 1];
      }
    }

    /** Adds an entry to the open block. */
    method AddToBlock(key: Bytes, value: Bytes)
      requires Valid() && (Added() == [] || Less(Added()[|Added()| - 1].key, key))
      modifies this`lastKey, this`numEntries, datablock
      ensures Valid() && Added() == old(Added()) + [Entry(key, value)]
      ensures datablock.es == old(datablock.es) + [Entry(key, value)]
    {
      hide Flatten, DataBytes, Packed, IndexEntries, NoneEmpty, U64, Sorted, Less, BlockBytes, BlockBuilder.Valid;
      hide BlockBuilder.Empty, BlockBuilder.EstimatedSize, Full;
      ghost var e := Entry(key, value);
      SortedSnoc(Added(), e);
      CanAdd(key);
      assert Added() + [e] == Flatten(chunks) + (datablock.es + [e]);
      lastKey := key;
      datablock.Add(key, value);
      numEntries := numEntries + 1;
    }

    /** Adds an entry behind the others, closing the block when it is full. */
    method Add(key: Bytes, value: Bytes)
      requires Valid() && Cut() && (Added() == [] || Less(Added()[|Added()| - 1].key, key))
      modifies this, datablock, indexblock
      ensures Valid() && Cut() && Added() == old(Added()) + [Entry(key, value)]
    {
      hide Flatten, DataBytes, Packed, IndexEntries, NoneEmpty, U64, Sorted, Less, BlockBytes, BlockBuilder.Valid;
      hide BlockBuilder.Empty, BlockBuilder.EstimatedSize, Full, Added;
      AddToBlock(key, value);
      datablock.EstimateIsExact();
      if datablock.EstimatedSize() >= BLOCK_SPACE {
        FullBySnoc(old(datablock.es), Entry(key, value));
        Flush();
        EmptyBlock();
      }
    }

    /** Writes what is left, then the index, then where the index lies. */
    method Finish()
      requires Valid() && Cut()
      modifies this, datablock, indexblock
      ensures CutWhenFull(chunks) && NoneEmpty(chunks) && Flatten(chunks) == old(Added())
      ensures file == FileBytes(codec, chunks)
    {
      hide Flatten, DataBytes, Packed, U64, Sorted, Less, BlockBytes, BlockBuilder.Valid, BlockBuilder.Empty;
      Flush();
      assert Flatten(chunks) + [] == Flatten(chunks);
      ghost var (data, index) := (file, indexblock.es);
      var content := indexblock.Finish();
      var compressed := codec.compress(content);
      assert compressed == Packed(codec, index) by { PackedIs(index); }
      file := file + compressed;
      size := |compressed|;
      var s := U64(offset) + U64(size);
      offset := offset + size;
      file := file + s;
      indexblock.Reset();
      assert file == data + compressed + U64(|data|) + U64(|compressed|);
    }
  }

  lemma InOrder(es: seq<Entry>, i: nat)
    requires Sorted(es) && 0 < i < |es|
    ensures Less(es[i - 1].key, es[i].key)
  {
  }

  /** Adds the entry under the cursor and moves on. */
  method AddNext(builder: TableBuilder, iter: SkipLists.Iterator)
    requires iter.Synced() && iter.Valid() && 0 <= iter.pos < |iter.list.es|
    requires builder.Valid() && builder.Cut() && builder.Added() == iter.list.es[..iter.pos]
    modifies iter, builder, builder.datablock, builder.indexblock
    ensures iter.Synced() && iter.pos == old(iter.pos) + 1 <= |iter.list.es| && iter.list.es == old(iter.list.es)
    ensures builder.Valid() && builder.Cut() && builder.Added() == iter.list.es[..iter.pos]
  {
    hide Flatten, Less, Sorted, TableBuilder.Valid, TableBuilder.Added, TableBuilder.Cut;
    hide SkipLists.Iterator.Synced, SkipLists.Iterator.Stands, SkipLists.SkipList.Valid;
    var key := iter.Key();
    var value := iter.Value();
    iter.OnEntry();
    if iter.pos > 0 { InOrder(iter.list.es, iter.pos); }
    builder.Add(key, value);
    iter.Next();
    iter.OnEntry();
  }

  /** Adds every entry of a memtable to a new table. */
  method AddAll(builder: TableBuilder, memtable: SkipLists.SkipList)
    requires memtable.Valid() && builder.Valid() && builder.Cut() && builder.Added() == []
    modifies builder, builder.datablock, builder.indexblock
    ensures builder.Valid() && builder.Cut() && builder.Added() == memtable.es
  {
    hide Flatten, Less, Sorted, TableBuilder.Valid, TableBuilder.Added, TableBuilder.Cut;
    hide SkipLists.Iterator.Synced, SkipLists.Iterator.Stands, SkipLists.SkipList.Valid;
    var iter := new SkipLists.Iterator(memtable);
    iter.SeekToFirst();
    iter.OnEntry();
    while iter.Valid()
      invariant iter.list == memtable && iter.Synced() && 0 <= iter.pos <= |memtable.es| && fresh(iter)
      invariant builder.Valid() && builder.Cut() && builder.Added() == memtable.es[..iter.pos]
      decreases |memtable.es| - iter.pos
    {
      iter.OnEntry();
      AddNext(builder, iter);
    }
    iter.OnEntry();
    assert memtable.es[..|memtable.es|] == memtable.es;
  }

  /** Writes a memtable out as a table file. */
  method CreateSSTable(codec: Codec, memtable: SkipLists.SkipList) returns (file: Bytes, ghost chunks: seq<seq<Entry>>)
    requires memtable.Valid()
    ensures NoneEmpty(chunks) && CutWhenFull(chunks) && Flatten(chunks) == memtable.es
    ensures file == FileBytes(codec, chunks)
  {
    hide Flatten, FileBytes, TableBuilder.Valid, TableBuilder.Cut, CutWhenFull, SkipLists.SkipList.Valid;
    var builder := new TableBuilder(codec);
    AddAll(builder, memtable);
    builder.Finish();
    file, chunks := builder.file, builder.chunks;
  }

  // ---- the reader -----------------------------------------------------------------------------------

  /** Where the reader finds the index: the handle is the last sixteen bytes of the file. */
  lemma HandleRead(codec: Codec, chunks: seq<seq<Entry>>)
    requires NoneEmpty(chunks) && |FileBytes(codec, chunks)| < MAX_U64
    ensures var (b, at, index) := (FileBytes(codec, chunks), |DataBytes(codec, chunks)|, Packed(codec, IndexEntries(codec, chunks)));
            && |b| == at + |index| + 16
            && U64At(b, |b| - 16) == at && U64At(b, |b| - 8) == |index|
            && b[at..at + |index|] == index
  {
    hide DataBytes, Packed, U64, IndexEntries, U64At;
    var (b, at, index) := (FileBytes(codec, chunks), |DataBytes(codec, chunks)|, Packed(codec, IndexEntries(codec, chunks)));
    assert b[|b| - 16..|b| - 16 + 8] == U64(at);
    U64RoundTrip(b, |b| - 16, at);
    assert b[|b| - 8..|b| - 8 + 8] == U64(|index|);
    U64RoundTrip(b, |b| - 8, |index|);
  }

  /** Where the reader finds block `i`: the index entry tells. */
  lemma BlockRead(codec: Codec, chunks: seq<seq<Entry>>, i: nat)
    requires NoneEmpty(chunks) && |FileBytes(codec, chunks)| < MAX_U64 && i < |chunks|
    ensures var (b, s, p) := (FileBytes(codec, chunks), IndexEntry(codec, chunks, i).value, Packed(codec, chunks[i]));
            && |s| == 16 && U64At(s, 8) == |p| && U64At(s, 0) + |p| <= |b|
            && b[U64At(s, 0)..U64At(s, 0) + |p|] == p
  {
    hide DataBytes, Packed, U64, IndexEntries, U64At;
    var (b, s, p) := (FileBytes(codec, chunks), IndexEntry(codec, chunks, i).value, Packed(codec, chunks[i]));
    var (data, at) := (DataBytes(codec, chunks), |DataBytes(codec, chunks[..i])|);
    BlockPlace(codec, chunks, i);
    assert data <= b;
    assert b[at..at + |p|] == data[at..at + |p|];
    assert s[0..0 + 8] == U64(at) && s[8..8 + 8] == U64(|p|);
    U64RoundTrip(s, 0, at);
    U64RoundTrip(s, 8, |p|);
  }

  class SSTable {
    const codec: Codec
    const file: Bytes
    const indexBlock: Block
    const indexIter: BlockIterator
    ghost const chunks: seq<seq<Entry>>

    ghost predicate Valid() {
      && codec.Lossless() && NoneEmpty(chunks) && Sorted(Flatten(chunks)) && Small(Flatten(chunks))
      && file == FileBytes(codec, chunks)
      && indexBlock.Valid() && indexBlock.es == IndexEntries(codec, chunks) && indexIter.block == indexBlock
    }

    static method LoadBlock(codec: Codec, file: Bytes, offset: nat, size: nat, ghost es: seq<Entry>) returns (block: Block)
      requires codec.Lossless() && Fits(es)
      requires offset + size <= |file| && file[offset..offset + size] == Packed(codec, es)
      ensures block.Valid() && block.es == es
    {
      hide BlockBytes;
      var uncompressed := codec.uncompress(file[offset..offset + size]);
      block := new Block(uncompressed, es);
    }

    /** Opens a table file. */
    constructor (codec: Codec, file: Bytes, ghost chunks: seq<seq<Entry>>)
      requires codec.Lossless() && NoneEmpty(chunks) && Sorted(Flatten(chunks)) && Small(Flatten(chunks))
      requires file == FileBytes(codec, chunks)
      ensures Valid() && this.chunks == chunks && fresh(indexIter)
    {
      hide Flatten, DataBytes, Packed, IndexEntries, U64At, FileBytes, Small, Sorted, BlockBytes;
      FileFits(codec, chunks);
      HandleRead(codec, chunks);
      var indexOffset := U64At(file, |file| - 16);
      var indexSize := U64At(file, |file| - 8);
      assert file[indexOffset..indexOffset + indexSize] == Packed(codec, IndexEntries(codec, chunks));
      var block := LoadBlock(codec, file, indexOffset, indexSize, IndexEntries(codec, chunks));
      this.codec, this.file, indexBlock, this.chunks := codec, file, block, chunks;
      indexIter := new BlockIterator(block);
    }

    ghost function LastKey(i: nat): Bytes
      requires i < |chunks| && NoneEmpty(chunks)
    {
      chunks[i][|chunks[i]| - 1].key
    }

    lemma IndexEntryIs(i: nat)
      requires i < |chunks| && NoneEmpty(chunks)
      ensures IndexEntries(codec, chunks)[i] == IndexEntry(codec, chunks, i)
      ensures IndexEntry(codec, chunks, i).key == LastKey(i)
    {
    }

    /** Reads a key: the answer is the one of the entries that the table was written from. */
    method Get(key: Bytes) returns (found: bool, value: Bytes)
      requires Valid()
      modifies indexIter
      ensures found <==> Lookup(Flatten(chunks), key).Some?
      ensures value == if found then Lookup(Flatten(chunks), key).value else []
    {
      hide Flatten, DataBytes, Packed, U64At, FileBytes, Small, Sorted, BlockBytes, Less, Lookup, Block.Valid, IndexEntry;
      indexIter.SeekToFirst();
      indexIter.ValidMeansOnEntry();
      while indexIter.Valid()
        invariant indexIter.Synced() && (indexIter.Valid() <==> indexIter.pos < |chunks|) && indexIter.pos <= |chunks|
        invariant indexIter.pos > 0 ==> Less(LastKey(indexIter.pos - 1), key)
        decreases |chunks| - indexIter.pos
      {
        ghost var i := indexIter.pos;
        var lastKey := indexIter.key;
        assert lastKey == LastKey(i) && indexIter.value == IndexEntry(codec, chunks, i).value by { IndexEntryIs(i); }
        if !Less(lastKey, key) {
          FileFits(codec, chunks);
          BlockRead(codec, chunks, i);
          ChunkFits(chunks, i);
          TwoLevelLookup(chunks, i, key);
          var handle := indexIter.value;
          var blockOffset, blockSize := U64At(handle, 0), U64At(handle, 8);
          var block := LoadBlock(codec, file, blockOffset, blockSize, chunks[i]);
          found, value := block.Get(key);
          return;
        } else {
          indexIter.Next();
          indexIter.ValidMeansOnEntry();
        }
      }
      NoBlockHolds(chunks, key);
      return false, [];
    }
  }

  /** A memtable that is written out and read back answers every key as it did in memory. */
  method WriteThenGet(codec: Codec, memtable: SkipLists.SkipList, key: Bytes) returns (found: bool, value: Bytes)
    requires memtable.Valid() && codec.Lossless()
    requires 4 * memtable.numBytes + 208 * memtable.numEntries + 96 < MAX_U64
    ensures found <==> Lookup(memtable.es, key).Some?
    ensures value == if found then Lookup(memtable.es, key).value else []
  {
    hide Flatten, FileBytes, Lookup;
    var file, chunks := CreateSSTable(codec, memtable);
    var table := new SSTable(codec, file, chunks);
    found, value := table.Get(key);
  }
}
