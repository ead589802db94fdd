/** The tables on disk, searched from the oldest on, and the index file that lists them. */
module LevelZeros {
  import opened Common
  import opened SortedEntries
  import opened Encoding
  import opened Blocks
  import opened Tables
  import SkipLists

  /** The oldest table that has the key answers. */
  function SearchTables(tables: seq<seq<Entry>>, k: Bytes): Option<Bytes> {
    if |tables| == 0 then None
    else if Lookup(tables[0], k).Some? then Lookup(tables[0], k)
    else SearchTables(tables[1..], k)
  }

  lemma {:induction false} SearchSnoc(tables: seq<seq<Entry>>, t: seq<Entry>, k: Bytes)
    ensures SearchTables(tables + [t], k) == if SearchTables(tables, k).Some? then SearchTables(tables, k) else Lookup(t, k)
  {
    hide Lookup;
    if |tables| > 0 {
      assert (tables + [t])[1..] == tables[1..] + [t];
      SearchSnoc(tables[1..], t, k);
    }
  }

  /** What the writer of a table guarantees about its blocks. */
  ghost predicate Written(chunks: seq<seq<Entry>>) {
    NoneEmpty(chunks) && Sorted(Flatten(chunks)) && Small(Flatten(chunks))
  }

  function IndexBytes(size: nat, numEntries: nat, ssts: seq<nat>): Bytes {
    U64(size) + U64(numEntries) + NumbersBytes(ssts)
  }

  function Total(tables: seq<seq<Entry>>): nat {
    if |tables| == 0 then 0 else Total(tables[..|tables| - 1]) + |tables[|tables| - 1]|
  }

  /** Are the files of the listed tables the ones written from the given blocks? */
  ghost predicate Stored(codec: Codec, files: map<nat, Bytes>, ssts: seq<nat>, written: seq<seq<seq<Entry>>>) {
    && |ssts| == |written|
    && forall i :: 0 <= i < |ssts| ==> Written(written[i]) && ssts[i] in files && files[ssts[i]] == FileBytes(codec, written[i])
  }

  function TablesOf(written: seq<seq<seq<Entry>>>): seq<seq<Entry>> {
    seq(|written|, i requires 0 <= i < |written| => Flatten(written[i]))
  }

  lemma MemtableIsSorted(memtable: SkipLists.SkipList)
    requires memtable.Valid()
    ensures Sorted(memtable.es) && memtable.numEntries == |memtable.es|
  {
  }

  lemma StoredSnoc(codec: Codec, files: map<nat, Bytes>, ssts: seq<nat>, written: seq<seq<seq<Entry>>>,
                   no: nat, file: Bytes, chunks: seq<seq<Entry>>)
    requires Stored(codec, files, ssts, written) && no !in ssts && Written(chunks) && file == FileBytes(codec, chunks)
    ensures Stored(codec, files[no := file], ssts + [no], written + [chunks])
    ensures TablesOf(written + [chunks]) == TablesOf(written) + [Flatten(chunks)]
    ensures Total(TablesOf(written + [chunks])) == Total(TablesOf(written)) + |Flatten(chunks)|
  {
    hide FileBytes, Written, Flatten;
    assert (TablesOf(written) + [Flatten(chunks)])[..|written|] == TablesOf(written);
  }

  /** The directory of the tables: its files by table number, and its index file. */
  class LevelZero {
    const codec: Codec
    var files: map<nat, Bytes>
    var index: Bytes
    var ssts: seq<nat>
    var size: nat
    var numEntries: nat
    ghost var written: seq<seq<seq<Entry>>>

    ghost function Tables(): seq<seq<Entry>>
      reads this
    {
      TablesOf(written)
    }

    ghost predicate Valid()
      reads this
    {
      && codec.Lossless() && Stored(codec, files, ssts, written)
      && size == |ssts| && numEntries == Total(Tables())
      && index == IndexBytes(size, numEntries, ssts)
    }

    method SaveMeta()
      modifies this`index
      ensures index == IndexBytes(size, numEntries, ssts)
    {
      hide U64;
      index := U64(size);
      index := index + U64(numEntries);
      ghost var before := index;
      for i := 0 to |ssts|
        invariant index == before + NumbersBytes(ssts[..i])
      {
        assert ssts[..i + 1][..i] == ssts[..i];
        index := index + U64(ssts[i]);
      }
      assert ssts[..|ssts|] == ssts;
    }

    constructor (codec: Codec)
      requires codec.Lossless()
      ensures Valid() && Tables() == [] && ssts == []
    {
      this.codec, files, ssts, size, numEntries, written := codec, map[], [], 0, 0, [];
      index := [];
      new;
      SaveMeta();
    }

    /** Opens an existing directory. */
    constructor Open(codec: Codec, files: map<nat, Bytes>, index: Bytes, ghost ssts: seq<nat>,
                     ghost written: seq<seq<seq<Entry>>>)
      requires codec.Lossless() && Stored(codec, files, ssts, written)
      requires index == IndexBytes(|ssts|, Total(TablesOf(written)), ssts)
      requires |ssts| < MAX_U64 && Total(TablesOf(written)) < MAX_U64
      requires forall i :: 0 <= i < |ssts| ==> ssts[i] < MAX_U64
      ensures Valid() && this.ssts == ssts && this.written == written && this.files == files
    {
      hide Stored, U64, U64At, Total, TablesOf;
      assert index[0..0 + 8] == U64(|ssts|);
      U64RoundTrip(index, 0, |ssts|);
      assert index[8..8 + 8] == U64(Total(TablesOf(written)));
      U64RoundTrip(index, 8, Total(TablesOf(written)));
      this.codec, this.files, this.index, this.written := codec, files, index, written;
      var n := U64At(index, 0);
      size := n;
      numEntries := U64At(index, 8);
      var found: seq<nat> := [];
      for i := 0 to n
        invariant found == ssts[..i]
      {
        NumberPlace(ssts, i);
        assert index[16 + 8 * i..16 + 8 * i + 8] == NumbersBytes(ssts)[8 * i..8 * i + 8];
        U64RoundTrip(index, 16 + 8 * i, ssts[i]);
        found := found + [U64At(index, 16 + 8 * i)];
      }
      assert ssts[..n] == ssts;
      this.ssts := found;
    }

    /** Writes the memtable as the newest table. */
    method Add(memtable: SkipLists.SkipList, no: nat)
      requires Valid() && memtable.Valid() && no !in ssts && Small(memtable.es)
      modifies this
      ensures Valid() && Tables() == old(Tables()) + [memtable.es] && ssts == old(ssts) + [no]
    {
      hide Flatten, FileBytes, Small, Sorted, U64, IndexBytes, Stored, TablesOf, Total, SkipLists.SkipList.Valid, Space;
      MemtableIsSorted(memtable);
      ssts := ssts + [no];
      var file, chunks := CreateSSTable(codec, memtable);
      StoredSnoc(codec, files, old(ssts), written, no, file, chunks);
      files := files[no := file];
      size := size + 1;
      numEntries := numEntries + memtable.numEntries;
      written := written + [chunks];
      SaveMeta();
    }

    /** Asks each table from the oldest on. */
    method Search(key: Bytes) returns (found: bool, value: Bytes)
      requires Valid()
      ensures found <==> SearchTables(Tables(), key).Some?
      ensures value == if found then SearchTables(Tables(), key).value else []
    {
      hide Flatten, FileBytes, Small, Sorted, U64, IndexBytes, Lookup;
      found, value := false, [];
      for i := 0 to |ssts|
        invariant SearchTables(Tables(), key) == SearchTables(Tables()[i..], key)
      {
        var table := new SSTable(codec, files[ssts[i]], written[i]);
        found, value := table.Get(key);
        assert Tables()[i..][0] == Flatten(written[i]) && Tables()[i..][1..] == Tables()[i + 1..];
        if found {
          return;
        }
      }
      return false, [];
    }
  }

  /** The numbering of the tables, kept in a file of its own. */
  class DiskStorage {
    const level0: LevelZero
    var no: nat
    var meta: Bytes

    ghost predicate Valid()
      reads this, level0
    {
      level0.Valid() && meta == U64(no) && forall i :: 0 <= i < |level0.ssts| ==> level0.ssts[i] < no
    }

    constructor (codec: Codec)
      requires codec.Lossless()
      ensures Valid() && level0.Tables() == [] && no == 0 && fresh(level0)
    {
      level0 := new LevelZero(codec);
      no := 0;
      meta := U64(0);
    }

    /** Opens what an earlier store has left on disk. */
    constructor Open(before: DiskStorage)
      requires before.Valid() && before.no < MAX_U64
      requires before.level0.size < MAX_U64 && before.level0.numEntries < MAX_U64
      ensures Valid() && level0.Tables() == before.level0.Tables() && no == before.no && fresh(level0)
    {
      hide Stored, U64, U64At, Total, TablesOf;
      var old0 := before.level0;
      level0 := new LevelZero.Open(old0.codec, old0.files, old0.index, old0.ssts, old0.written);
      meta := before.meta;
      assert before.meta[0..0 + 8] == U64(before.no);
      U64RoundTrip(before.meta, 0, before.no);
      no := U64At(before.meta, 0);
    }

    method Add(memtable: SkipLists.SkipList)
      requires Valid() && memtable.Valid() && Small(memtable.es)
      modifies this, level0
      ensures Valid() && level0.Tables() == old(level0.Tables()) + [memtable.es] && no == old(no) + 1
    {
      hide Stored, U64, Total, TablesOf, Small, IndexBytes;
      level0.Add(memtable, no);
      no := no + 1;
      meta := U64(no);
    }
  }
}
