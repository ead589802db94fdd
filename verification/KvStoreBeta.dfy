/** The store of a memtable over table files: what it answers, when that is a map, and when it is not. */
module KvStoreBeta {
  import opened Common
  import opened SortedEntries
  import opened Encoding
  import opened LevelZeros
  import SkipLists
  import Tables

  const SSTABLE_SPACE: nat := 2 * 1024 * 1024

  /** The contents: the memtable, and the tables from the oldest on. */
  datatype Contents = Contents(mem: seq<Entry>, tables: seq<seq<Entry>>)

  /** An empty value counts as absent. */
  function Visible(o: Option<Bytes>): Option<Bytes> {
    if o == Some([]) then None else o
  }

  function Answer(c: Contents, k: Bytes): Option<Bytes> {
    Visible(if Lookup(c.mem, k).Some? then Lookup(c.mem, k) else SearchTables(c.tables, k))
  }

  datatype Request = Put(key: Bytes, value: Bytes) | Del(key: Bytes) | Flush | Restart

  function Serve(c: Contents, r: Request): Contents {
    match r
    case Put(k, v) =>
      var mem := PutEntry(c.mem, k, v);
      if Space(mem) > SSTABLE_SPACE then Contents([], c.tables + [mem]) else c.(mem := mem)
    case Del(k) =>
      if Lookup(c.mem, k).Some? then c.(mem := DelEntry(c.mem, k))
      else if Visible(SearchTables(c.tables, k)).Some? then c.(mem := PutEntry(c.mem, k, []))
      else c
    case Flush => if c.mem == [] then c else c.(tables := c.tables + [c.mem])
    case Restart => Contents([], if c.mem == [] then c.tables else c.tables + [c.mem])
  }

  // ---- when a request does what it says ---------------------------------------------------------------

  /** No key of the memtable hides another visible value in a table. */
  ghost predicate Agrees(mem: seq<Entry>, tables: seq<seq<Entry>>) {
    forall k :: Lookup(mem, k).Some? && SearchTables(tables, k).Some? ==> Visible(SearchTables(tables, k)) == Visible(Lookup(mem, k))
  }

  /** What a map would answer after the request. */
  function Expected(c: Contents, r: Request, k: Bytes): Option<Bytes> {
    match r
    case Put(k', v) => if k == k' then Visible(Some(v)) else Answer(c, k)
    case Del(k') => if k == k' then None else Answer(c, k)
    case Flush => Answer(c, k)
    case Restart => Answer(c, k)
  }

  /** The condition a caller can check beforehand. */
  ghost predicate Harmless(c: Contents, r: Request) {
    match r
    case Put(k, v) => Space(PutEntry(c.mem, k, v)) > SSTABLE_SPACE ==> Agrees(PutEntry(c.mem, k, v), c.tables)
    case Del(k) => Lookup(c.mem, k).Some? ==> Visible(SearchTables(c.tables, k)) == None
    case Flush => true
    case Restart => Agrees(c.mem, c.tables)
  }

  lemma NothingFound(k: Bytes)
    ensures Lookup([], k) == None
  {
  }

  /** Moving the memtable behind the tables changes what one key answers exactly when a table has another
      value of it. */
  lemma MovedAnswer(mem: seq<Entry>, tables: seq<seq<Entry>>, k: Bytes)
    ensures Answer(Contents([], tables + [mem]), k) == Answer(Contents(mem, tables), k) <==>
            !(Lookup(mem, k).Some? && SearchTables(tables, k).Some? && Visible(SearchTables(tables, k)) != Visible(Lookup(mem, k)))
  {
    SearchSnoc(tables, mem, k);
    NothingFound(k);
  }

  /** A request leaves every key with the answer a map would give, if and only if it is harmless. */
  lemma ServedAsMapIff(c: Contents, r: Request)
    requires Sorted(c.mem)
    ensures (forall k :: Answer(Serve(c, r), k) == Expected(c, r, k)) <==> Harmless(c, r)
  {
    hide Lookup, SearchTables, PutEntry, DelEntry, Space, Sorted;
    match r
    case Put(k, v) =>
      var mem := PutEntry(c.mem, k, v);
      forall q
        ensures Answer(c.(mem := mem), q) == Expected(c, r, q)
      {
        LookupPut(c.mem, k, v, q);
      }
      forall q { MovedAnswer(mem, c.tables, q); }
    case Del(k) =>
      forall q
        ensures Answer(Serve(c, r), q) == Expected(c, r, q) || (q == k && !Harmless(c, r))
      {
        LookupDel(c.mem, k, q);
        LookupPut(c.mem, k, [], q);
      }
      LookupDel(c.mem, k, k);
      assert Answer(Serve(c, r), k) == Expected(c, r, k) <==> Harmless(c, r) by {
        LookupPut(c.mem, k, [], k);
      }
    case Flush =>
      forall q
        ensures Answer(Serve(c, r), q) == Answer(c, q)
      {
        SearchSnoc(c.tables, c.mem, q);
      }
    case Restart =>
      forall q
        ensures Answer(Serve(c, r), q) == Answer(c, q) <==>
                !(Lookup(c.mem, q).Some? && SearchTables(c.tables, q).Some? && Visible(SearchTables(c.tables, q)) != Visible(Lookup(c.mem, q)))
      {
        MovedAnswer(c.mem, c.tables, q);
        NothingFound(q);
      }
  }

  /** The newer of two values of a key is lost when both reach a table. */
  lemma StaleValueExample(k: Bytes, old': Bytes, new': Bytes)
    requires old' != [] && new' != [] && |k| + |old'| <= 2_097_152 && |k| + |new'| <= 2_097_152
    ensures var c := Serve(Serve(Contents([], []), Put(k, old')), Restart);
            && Answer(Serve(c, Put(k, new')), k) == Some(new')
            && Answer(Serve(Serve(c, Put(k, new')), Restart), k) == Some(old')
  {
    var (one, two) := ([Entry(k, old')], [Entry(k, new')]);
    assert PutEntry([], k, old') == one && PutEntry([], k, new') == two;
    SpaceOne(one[0]);
    SpaceOne(two[0]);
    FoundAt(one, 0);
    FoundAt(two, 0);
    NothingFound(k);
    assert SearchTables([one], k) == Some(old');
    assert [] + [one] == [one];
    SearchSnoc([one], two, k);
  }

  /** A deleted key comes back when the mark of its deletion reaches a table, or is deleted in turn. */
  lemma DeletedValueExample(k: Bytes, v: Bytes)
    requires v != []
    ensures var c := Contents([], [[Entry(k, v)]]);
            && Answer(Serve(c, Del(k)), k) == None
            && Answer(Serve(Serve(c, Del(k)), Restart), k) == Some(v)
            && Answer(Serve(Serve(c, Del(k)), Del(k)), k) == Some(v)
  {
    var (one, mark) := ([Entry(k, v)], [Entry(k, [])]);
    assert PutEntry([], k, []) == mark;
    FoundAt(one, 0);
    FoundAt(mark, 0);
    NothingFound(k);
    assert SearchTables([one], k) == Some(v);
    SearchSnoc([one], mark, k);
    assert DelEntry(mark, k) == [];
  }

  // ---- whole runs -----------------------------------------------------------------------------------

  function ServeAll(rs: seq<Request>): Contents {
    if |rs| == 0 then Contents([], []) else Serve(ServeAll(rs[..|rs| - 1]), rs[|rs| - 1])
  }

  function MapOf(rs: seq<Request>): map<Bytes, Bytes> {
    if |rs| == 0 then map[] else
      var m := MapOf(rs[..|rs| - 1]);
      match rs[|rs| - 1]
      case Put(k, v) => m[k := v]
      case Del(k) => m - {k}
      case Flush => m
      case Restart => m
  }

  /** The store answers every key as the map does, an empty value counting as absent. */
  ghost predicate AnswersAs(c: Contents, m: map<Bytes, Bytes>) {
    forall k :: Answer(c, k) == Visible(if k in m then Some(m[k]) else None)
  }

  ghost predicate AllHarmless(rs: seq<Request>) {
    forall i :: 0 <= i < |rs| ==> Harmless(ServeAll(rs[..i]), rs[i])
  }

  lemma ServeIsSorted(c: Contents, r: Request)
    requires Sorted(c.mem)
    ensures Sorted(Serve(c, r).mem)
  {
    hide PutEntry, DelEntry;
    match r
    case Put(k, v) => SortedPut(c.mem, k, v);
    case Del(k) => SortedDel(c.mem, k); SortedPut(c.mem, k, []);
    case Flush =>
    case Restart =>
  }

  lemma NothingSorted()
    ensures Sorted([])
  {
  }

  lemma {:induction false} ServeAllIsSorted(rs: seq<Request>)
    ensures Sorted(ServeAll(rs).mem)
  {
    hide Serve, Sorted;
    if |rs| == 0 {
      NothingSorted();
    } else {
      ServeAllIsSorted(rs[..|rs| - 1]);
      ServeIsSorted(ServeAll(rs[..|rs| - 1]), rs[|rs| - 1]);
    }
  }

  /** One request after a run that has answered as the map: the answers still are the map's if and only if
      the request was harmless. */
  lemma NextAnswersIff(rs: seq<Request>, n: nat)
    requires n < |rs| && AnswersAs(ServeAll(rs[..n]), MapOf(rs[..n]))
    ensures AnswersAs(ServeAll(rs[..n + 1]), MapOf(rs[..n + 1])) <==> Harmless(ServeAll(rs[..n]), rs[n])
  {
    hide Answer, Serve, Harmless, Sorted;
    var (c, m, r) := (ServeAll(rs[..n]), MapOf(rs[..n]), rs[n]);
    assert rs[..n + 1][..n] == rs[..n];
    ServeAllIsSorted(rs[..n]);
    ServedAsMapIff(c, r);
    var m' := MapOf(rs[..n + 1]);
    forall k
      ensures Expected(c, r, k) == Visible(if k in m' then Some(m'[k]) else None)
    {
      assert Answer(c, k) == Visible(if k in m then Some(m[k]) else None);
    }
  }

  lemma EmptyAnswers()
    ensures AnswersAs(Contents([], []), map[])
  {
    forall k { NothingFound(k); }
  }

  lemma {:induction false} HarmlessAnswers(rs: seq<Request>, n: nat)
    requires AllHarmless(rs) && n <= |rs|
    ensures AnswersAs(ServeAll(rs[..n]), MapOf(rs[..n]))
  {
    hide AnswersAs, Harmless, Serve;
    if n == 0 {
      EmptyAnswers();
    } else {
      HarmlessAnswers(rs, n - 1);
      NextAnswersIff(rs, n - 1);
    }
  }

  /** Exactly when the store is a map: it answers as one after every prefix of a run if and only if every
      request was harmless when it was served. */
  lemma StoreIsMapIff(rs: seq<Request>)
    ensures (forall n :: 0 <= n <= |rs| ==> AnswersAs(ServeAll(rs[..n]), MapOf(rs[..n]))) <==> AllHarmless(rs)
  {
    hide AnswersAs, Harmless, Serve;
    if AllHarmless(rs) {
      forall n | 0 <= n <= |rs|
        ensures AnswersAs(ServeAll(rs[..n]), MapOf(rs[..n]))
      {
        HarmlessAnswers(rs, n);
      }
    } else {
      var i :| 0 <= i < |rs| && !Harmless(ServeAll(rs[..i]), rs[i]);
      if AnswersAs(ServeAll(rs[..i]), MapOf(rs[..i])) { NextAnswersIff(rs, i); }
    }
  }

  // ---- how much the memtable holds --------------------------------------------------------------------

  /** A put moves the memtable to the newest table, and empties it, exactly when its keys and values would be
      longer than 2 MiB together. */
  lemma PutSpillsIff(c: Contents, k: Bytes, v: Bytes)
    requires Sorted(c.mem)
    ensures var size := Space(c.mem) + |v| + match Lookup(c.mem, k) case Some(was) => -|was| case None => |k|;
            && (size > 2_097_152 <==> Serve(c, Put(k, v)) == Contents([], c.tables + [PutEntry(c.mem, k, v)]))
            && (size <= 2_097_152 <==> Serve(c, Put(k, v)) == Contents(PutEntry(c.mem, k, v), c.tables))
            && size == Space(PutEntry(c.mem, k, v))
  {
    SpacePut(c.mem, k, v);
    hide Space, PutEntry, Rank;
    assert |c.tables + [PutEntry(c.mem, k, v)]| > |c.tables|;
  }

  predicate OnlyWrites(rs: seq<Request>) {
    forall i :: 0 <= i < |rs| ==> rs[i].Put? || rs[i].Del?
  }

  /** The key and value lengths of all puts together. */
  function PutLengths(rs: seq<Request>): nat {
    if |rs| == 0 then 0 else
      PutLengths(rs[..|rs| - 1]) + match rs[|rs| - 1] case Put(k, v) => |k| + |v| case _ => 0
  }

  lemma WriteInMemory(c: Contents, r: Request, room: nat)
    requires Sorted(c.mem) && c.tables == [] && Space(c.mem) <= room
    requires match r case Put(k, v) => room + |k| + |v| <= 2_097_152 case Del(_) => true case _ => false
    ensures Harmless(c, r) && Serve(c, r).tables == []
    ensures Space(Serve(c, r).mem) <= match r case Put(k, v) => room + |k| + |v| case _ => room
  {
    hide Space, PutEntry, DelEntry, Rank;
    match r
    case Put(k, v) => SpacePut(c.mem, k, v);
    case Del(k) => SpaceDel(c.mem, k);
  }

  lemma {:induction false} PrefixIsShorter(rs: seq<Request>, n: nat)
    requires n <= |rs|
    ensures PutLengths(rs[..n]) <= PutLengths(rs)
    decreases |rs|
  {
    if n < |rs| {
      assert rs[..|rs| - 1][..n] == rs[..n];
      PrefixIsShorter(rs[..|rs| - 1], n);
    } else {
      assert rs[..n] == rs;
    }
  }

  lemma NothingIsSpace()
    ensures Space([]) == 0
  {
  }

  lemma {:induction false} StaysInMemory(rs: seq<Request>, n: nat)
    requires OnlyWrites(rs) && PutLengths(rs) <= 2_097_152 && n <= |rs|
    ensures ServeAll(rs[..n]).tables == [] && Space(ServeAll(rs[..n]).mem) <= PutLengths(rs[..n])
    ensures n < |rs| ==> Harmless(ServeAll(rs[..n]), rs[n])
  {
    hide Serve, Harmless, Space, Sorted;
    if n == 0 {
      NothingIsSpace();
    } else {
      assert rs[..n][..n - 1] == rs[..n - 1];
      StaysInMemory(rs, n - 1);
      PrefixIsShorter(rs, n);
      ServeAllIsSorted(rs[..n - 1]);
      WriteInMemory(ServeAll(rs[..n - 1]), rs[n - 1], PutLengths(rs[..n - 1]));
    }
    if n < |rs| {
      assert rs[..n + 1][..n] == rs[..n];
      PrefixIsShorter(rs, n + 1);
      ServeAllIsSorted(rs[..n]);
      WriteInMemory(ServeAll(rs[..n]), rs[n], PutLengths(rs[..n]));
    }
  }

  /** Up to 2 MiB of puts, with any deletes between them, the store is a map and writes no table. */
  lemma SmallRunIsMap(rs: seq<Request>)
    requires OnlyWrites(rs) && PutLengths(rs) <= 2_097_152
    ensures forall n :: 0 <= n <= |rs| ==> AnswersAs(ServeAll(rs[..n]), MapOf(rs[..n])) && ServeAll(rs[..n]).tables == []
  {
    hide AnswersAs, Harmless, Serve, Space;
    forall n | 0 <= n <= |rs|
      ensures ServeAll(rs[..n]).tables == [] && (n < |rs| ==> Harmless(ServeAll(rs[..n]), rs[n]))
    {
      StaysInMemory(rs, n);
    }
    StoreIsMapIff(rs);
  }

  predicate FreshWrite(c: Contents, r: Request) {
    match r
    case Put(k, v) => v != [] && SearchTables(c.tables, k) == None
    case Del(k) => SearchTables(c.tables, k) == None
    case Flush => true
    case Restart => true
  }

  /** No write goes to a key that a table has already, and no value is empty. */
  ghost predicate FreshWrites(rs: seq<Request>) {
    forall i :: 0 <= i < |rs| ==> FreshWrite(ServeAll(rs[..i]), rs[i])
  }

  /** A memtable key that a table has too has the same value there. */
  ghost predicate Copied(c: Contents) {
    && Sorted(c.mem)
    && forall k :: Lookup(c.mem, k).Some? && SearchTables(c.tables, k).Some? ==> SearchTables(c.tables, k) == Lookup(c.mem, k)
  }

  lemma CopiedKept(c: Contents, r: Request)
    requires Copied(c) && FreshWrite(c, r)
    ensures Copied(Serve(c, r)) && Harmless(c, r)
  {
    hide Lookup, SearchTables, PutEntry, DelEntry, Space, Sorted;
    var c' := Serve(c, r);
    match r {
      case Put(k, v) =>
        SortedPut(c.mem, k, v);
        forall q { LookupPut(c.mem, k, v, q); }
      case Del(k) =>
        SortedDel(c.mem, k);
        forall q { LookupDel(c.mem, k, q); }
      case Flush =>
        forall q { SearchSnoc(c.tables, c.mem, q); }
      case Restart =>
    }
    forall q { NothingFound(q); }
    assert Sorted([]) by { NothingSorted(); }
  }

  lemma CopiedIsSorted(c: Contents)
    requires Copied(c)
    ensures Sorted(c.mem)
  {
  }

  lemma ExpectedByMap(c: Contents, r: Request, k: Bytes)
    requires FreshWrite(c, r)
    ensures Expected(c, r, k) == match r
                                 case Put(k', v) => (if k == k' then Some(v) else Answer(c, k))
                                 case Del(k') => (if k == k' then None else Answer(c, k))
                                 case Flush => Answer(c, k)
                                 case Restart => Answer(c, k)
  {
  }

  lemma FreshPrefix(rs: seq<Request>, n: nat)
    requires FreshWrites(rs) && n <= |rs|
    ensures FreshWrites(rs[..n])
  {
    hide FreshWrite;
    forall i | 0 <= i < n
      ensures FreshWrite(ServeAll(rs[..n][..i]), rs[..n][i])
    {
      assert rs[..n][..i] == rs[..i];
    }
  }

  lemma EmptyStore(k: Bytes)
    ensures Copied(Contents([], [])) && Answer(Contents([], []), k) == None
  {
    forall q { NothingFound(q); }
  }

  /** The store is a map through any number of flushes and restarts, as long as writes are fresh. */
  lemma {:induction false} StoreIsMap(rs: seq<Request>, k: Bytes)
    requires FreshWrites(rs)
    ensures Copied(ServeAll(rs))
    ensures Answer(ServeAll(rs), k) == if k in MapOf(rs) then Some(MapOf(rs)[k]) else None
    ensures k in MapOf(rs) ==> MapOf(rs)[k] != []
  {
    hide Answer, Expected, Serve, Copied, Harmless, Sorted;
    if |rs| == 0 {
      EmptyStore(k);
    } else {
      var (init, r) := (rs[..|rs| - 1], rs[|rs| - 1]);
      assert FreshWrites(init) by { FreshPrefix(rs, |rs| - 1); }
      StoreIsMap(init, k);
      assert FreshWrite(ServeAll(init), r);
      CopiedKept(ServeAll(init), r);
      CopiedIsSorted(ServeAll(init));
      ServedAsMapIff(ServeAll(init), r);
      ExpectedByMap(ServeAll(init), r, k);
    }
  }

  // ---- the store in place -----------------------------------------------------------------------------

  class Store {
    const memtable: SkipLists.SkipList
    const disk: DiskStorage

    ghost function Repr(): set<object>
      reads this, memtable, disk
    {
      {this, disk, disk.level0} + memtable.Repr()
    }

    ghost predicate Valid()
      reads this, memtable, memtable.nodes, disk, disk.level0
    {
      memtable.Valid() && disk.Valid()
    }

    ghost function State(): Contents
      reads memtable, disk, disk.level0
    {
      Contents(memtable.es, disk.level0.Tables())
    }

    /** A new store in an empty directory. */
    constructor (codec: Codec)
      requires codec.Lossless()
      ensures Valid() && State() == Contents([], []) && fresh(Repr())
    {
      memtable := new SkipLists.SkipList();
      disk := new DiskStorage(codec);
    }

    /** A new store in the directory that an earlier one has left. */
    constructor Open(before: Store)
      requires before.Valid() && before.disk.no < MAX_U64
      requires before.disk.level0.size < MAX_U64 && before.disk.level0.numEntries < MAX_U64
      ensures Valid() && State() == Contents([], before.State().tables) && fresh(Repr())
    {
      hide SkipLists.SkipList.Valid, DiskStorage.Valid, LevelZero.Tables;
      memtable := new SkipLists.SkipList();
      disk := new DiskStorage.Open(before.disk);
    }

    lemma RoomIsSmall(extra: nat, entries: nat)
      requires Valid() && 4 * (memtable.numBytes + extra) + 208 * (memtable.numEntries + entries) + 96 < MAX_U64
      ensures 4 * (Space(memtable.es) + extra) + 208 * (|memtable.es| + entries) + 96 < MAX_U64
    {
    }

    lemma BytesAreSpace()
      requires memtable.Valid()
      ensures memtable.numBytes == Space(memtable.es) && memtable.numEntries == |memtable.es|
    {
    }

    static lemma PutIsSmall(es: seq<Entry>, key: Bytes, value: Bytes)
      requires 4 * (Space(es) + |key| + |value|) + 208 * (|es| + 1) + 96 < MAX_U64
      ensures Tables.Small(PutEntry(es, key, value))
    {
      hide Rank, Space;
      SpacePut(es, key, value);
    }

    method Put(key: Bytes, value: Bytes)
      requires Valid()
      requires 4 * (memtable.numBytes + |key| + |value|) + 208 * (memtable.numEntries + 1) + 96 < MAX_U64
      modifies Repr()
      ensures Valid() && State() == Serve(old(State()), Request.Put(key, value)) && fresh(Repr() - old(Repr()))
    {
      hide PutEntry, Space, SkipLists.SkipList.Valid, DiskStorage.Valid, LevelZero.Tables, Rank;
      RoomIsSmall(|key| + |value|, 1);
      PutIsSmall(memtable.es, key, value);
      memtable.Put(key, value);
      assert Repr() - old(Repr()) <= memtable.Repr() - old(memtable.Repr());
      BytesAreSpace();
      if memtable.numBytes > SSTABLE_SPACE {
        disk.Add(memtable);
        var _ := memtable.Clear();
        assert memtable in old(Repr());
      }
    }

    lemma MembersAreFound(key: Bytes)
      requires memtable.Valid()
      ensures key in AsMap(memtable.es) <==> Lookup(memtable.es, key).Some?
    {
      LookupIsMembership(memtable.es, key);
    }

    lemma StorageIsValid()
      requires disk.Valid()
      ensures disk.level0.Valid()
    {
    }

    method Get(key: Bytes) returns (found: bool, value: Bytes)
      requires Valid()
      ensures found <==> Answer(State(), key).Some?
      ensures value == if found then Answer(State(), key).value else []
    {
      hide Lookup, SkipLists.SkipList.Valid, DiskStorage.Valid, LevelZero.Tables;
      MembersAreFound(key);
      var here := memtable.Contains(key);
      if here {
        found, value := memtable.Get(key);
      } else {
        StorageIsValid();
        found, value := disk.level0.Search(key);
      }
      if found && value != [] {
        return;
      }
      return false, [];
    }

    method Del(key: Bytes) returns (found: bool)
      requires Valid()
      modifies Repr()
      ensures Valid() && State() == Serve(old(State()), Request.Del(key)) && fresh(Repr() - old(Repr()))
      ensures found <==> Lookup(old(State()).mem, key).Some? || Visible(SearchTables(old(State()).tables, key)).Some?
    {
      hide PutEntry, DelEntry, Lookup, SkipLists.SkipList.Valid, DiskStorage.Valid, LevelZero.Tables;
      MembersAreFound(key);
      var here := memtable.Contains(key);
      if here {
        var _ := memtable.Del(key);
        assert Repr() <= old(Repr());
        return true;
      }
      StorageIsValid();
      var stored, value := disk.level0.Search(key);
      if stored && value != [] {
        memtable.Put(key, []);
        assert Repr() - old(Repr()) <= memtable.Repr() - old(memtable.Repr());
        return true;
      } else {
        return false;
      }
    }

    method Flush()
      requires Valid() && 4 * memtable.numBytes + 208 * memtable.numEntries + 96 < MAX_U64
      modifies disk, disk.level0
      ensures Valid() && State() == Serve(old(State()), Request.Flush)
    {
      hide Space, SkipLists.SkipList.Valid, DiskStorage.Valid, LevelZero.Tables;
      BytesAreSpace();
      RoomIsSmall(0, 0);
      if memtable.numEntries != 0 {
        disk.Add(memtable);
      }
    }
  }
}
