/** Byte strings in their std::string order, and strictly sorted lists of entries as the abstract
    value of a memtable or a table. */
module SortedEntries {
  import opened Common

  datatype Entry = Entry(key: Bytes, value: Bytes)

  /** operator< on std::string: lexicographic on unsigned bytes. */
  predicate Less(a: Bytes, b: Bytes) {
    if |b| == 0 then false
    else if |a| == 0 then true
    else if a[0] != b[0] then a[0] < b[0]
    else Less(a[1..], b[1..])
  }

  lemma {:induction false} LessIsTotal(a: Bytes, b: Bytes)
    ensures Less(a, b) || a == b || Less(b, a)
    ensures !(Less(a, b) && Less(b, a)) && (a == b ==> !Less(a, b))
  {
    if |a| > 0 && |b| > 0 && a[0] == b[0] {
      LessIsTotal(a[1..], b[1..]);
      assert a == [a[0]] + a[1..] && b == [b[0]] + b[1..];
    }
  }

  lemma {:induction false} LessIsTransitive(a: Bytes, b: Bytes, c: Bytes)
    requires Less(a, b) && Less(b, c)
    ensures Less(a, c)
  {
    if |a| > 0 && a[0] == b[0] == c[0] {
      LessIsTransitive(a[1..], b[1..], c[1..]);
    }
  }

  /** The order without its recursion: behind a common start of `n` bytes either `a` ends and `b` does not,
      or `a` has the smaller byte. */
  ghost predicate FirstDifference(a: Bytes, b: Bytes, n: nat) {
    n <= |a| && n < |b| && a[..n] == b[..n] && (n == |a| || a[n] < b[n])
  }

  lemma SameStart(a: Bytes, b: Bytes, n: nat)
    requires FirstDifference(a, b, n)
    ensures n > 0 ==> a[0] == b[0]
  {
    assert n > 0 ==> a[..n][0] == b[..n][0];
  }

  lemma DifferenceBehind(a: Bytes, b: Bytes, n: nat)
    requires |a| > 0 && |b| > 0 && a[0] == b[0]
    ensures FirstDifference(a, b, n + 1) <==> FirstDifference(a[1..], b[1..], n)
  {
    if n < |a| && n + 1 < |b| {
      assert a[..n + 1] == [a[0]] + a[1..][..n] && b[..n + 1] == [b[0]] + b[1..][..n];
      assert a[..n + 1][1..] == a[1..][..n] && b[..n + 1][1..] == b[1..][..n];
    }
  }

  lemma {:induction false} LessIff(a: Bytes, b: Bytes)
    ensures Less(a, b) <==> exists n :: FirstDifference(a, b, n)
  {
    if |a| > 0 && |b| > 0 && a[0] == b[0] {
      LessIff(a[1..], b[1..]);
      if Less(a, b) {
        var n :| FirstDifference(a[1..], b[1..], n);
        DifferenceBehind(a, b, n);
      }
      if n: nat :| FirstDifference(a, b, n) {
        DifferenceBehind(a, b, n - 1);
      }
    } else if Less(a, b) {
      assert FirstDifference(a, b, 0);
    } else if n: nat :| FirstDifference(a, b, n) {
      SameStart(a, b, n);
    }
  }

  ghost predicate Sorted(es: seq<Entry>) {
    forall i, j :: 0 <= i < j < |es| ==> Less(es[i].key, es[j].key)
  }

  /** Does position `r` separate the keys below `k` from the others? */
  ghost predicate Separates(es: seq<Entry>, k: Bytes, r: nat) {
    && r <= |es|
    && (forall i :: 0 <= i < r ==> Less(es[i].key, k))
    && (forall i :: r <= i < |es| ==> !Less(es[i].key, k))
  }

  lemma NothingBelow(es: seq<Entry>, k: Bytes)
    requires |es| == 0 || !Less(es[0].key, k)
    ensures Sorted(es) ==> forall i :: 0 <= i < |es| ==> !Less(es[i].key, k)
  {
    if Sorted(es) {
      forall i | 0 < i < |es|
        ensures !Less(es[i].key, k)
      {
        if Less(es[i].key, k) { LessIsTransitive(es[0].key, es[i].key, k); }
      }
    }
  }

  /** The number of keys below `k`. */
  function Rank(es: seq<Entry>, k: Bytes): (r: nat)
    ensures r <= |es|
    ensures Sorted(es) ==> Separates(es, k, r)
  {
    if |es| == 0 || !Less(es[0].key, k) then
      assert Sorted(es) ==> forall i :: 0 <= i < |es| ==> !Less(es[i].key, k) by { NothingBelow(es, k); }
      0
    else 1 + Rank(es[1..], k)
  }

  lemma RankIsUnique(es: seq<Entry>, k: Bytes, r: nat)
    requires Sorted(es) && Separates(es, k, r)
    ensures Rank(es, k) == r
  {
    var q := Rank(es, k);
    assert q < |es| ==> !Less(es[q].key, k);
    assert r < |es| ==> !Less(es[r].key, k);
  }

  predicate Has(es: seq<Entry>, k: Bytes) {
    var r := Rank(es, k);
    r < |es| && es[r].key == k
  }

  /** What a lookup answers. */
  function Lookup(es: seq<Entry>, k: Bytes): Option<Bytes> {
    if Has(es, k) then Some(es[Rank(es, k)].value) else None
  }

  function PutEntry(es: seq<Entry>, k: Bytes, v: Bytes): seq<Entry> {
    var r := Rank(es, k);
    if Has(es, k) then es[r := Entry(k, v)] else es[..r] + [Entry(k, v)] + es[r..]
  }

  function DelEntry(es: seq<Entry>, k: Bytes): seq<Entry> {
    var r := Rank(es, k);
    if Has(es, k) then es[..r] + es[r + 1..] else es
  }

  /** The sum of the key and value lengths. */
  function Space(es: seq<Entry>): nat {
    if |es| == 0 then 0 else Space(es[..|es| - 1]) + |es[|es| - 1].key| + |es[|es| - 1].value|
  }

  function Keys(es: seq<Entry>): set<Bytes> {
    set e | e in es :: e.key
  }

  /** The map that a sorted list stands for. */
  function AsMap(es: seq<Entry>): map<Bytes, Bytes> {
    map k | k in Keys(es) :: match Lookup(es, k) case Some(v) => v case None => []
  }

  // ---------------------------------------------------------------------------

  lemma PutAbsent(es: seq<Entry>, k: Bytes, v: Bytes)
    requires !Has(es, k)
    ensures var r := Rank(es, k); PutEntry(es, k, v) == es[..r] + [Entry(k, v)] + es[r..]
  {
    hide Rank;
  }

  lemma NothingUnsorted()
    ensures Sorted([])
  {
  }

  lemma SortedPut(es: seq<Entry>, k: Bytes, v: Bytes)
    requires Sorted(es)
    ensures Sorted(PutEntry(es, k, v))
  {
    var r := Rank(es, k);
    if !Has(es, k) {
      forall i | r <= i < |es|
        ensures Less(k, es[i].key)
      {
        LessIsTotal(k, es[i].key);
        if i > r && es[i].key == k { assert Less(es[r].key, es[i].key); }
      }
    }
  }

  lemma SortedDel(es: seq<Entry>, k: Bytes)
    requires Sorted(es)
    ensures Sorted(DelEntry(es, k))
  {
  }

  lemma {:induction false} SpaceConcat(a: seq<Entry>, b: seq<Entry>)
    ensures Space(a + b) == Space(a) + Space(b)
  {
    if |b| == 0 {
      assert a + b == a;
    } else {
      assert (a + b)[..|a + b| - 1] == a + b[..|b| - 1];
      SpaceConcat(a, b[..|b| - 1]);
    }
  }

  lemma SpaceOne(e: Entry)
    ensures Space([e]) == |e.key| + |e.value|
  {
    assert [e][..0] == [];
  }

  lemma SpaceInsert(es: seq<Entry>, r: nat, e: Entry)
    requires r <= |es|
    ensures Space(es[..r] + [e] + es[r..]) == Space(es) + |e.key| + |e.value|
  {
    hide Space;
    SpaceConcat(es[..r] + [e], es[r..]);
    SpaceConcat(es[..r], [e]);
    SpaceOne(e);
    SpaceConcat(es[..r], es[r..]);
    assert es[..r] + es[r..] == es;
  }

  lemma SpaceRemove(es: seq<Entry>, r: nat)
    requires r < |es|
    ensures Space(es[..r] + es[r + 1..]) == Space(es) - |es[r].key| - |es[r].value|
  {
    hide Space;
    var rest := es[..r] + es[r + 1..];
    assert rest[..r] == es[..r] && rest[r..] == es[r + 1..];
    assert es == rest[..r] + [es[r]] + rest[r..];
    SpaceInsert(rest, r, es[r]);
  }

  lemma SpaceReplace(es: seq<Entry>, r: nat, e: Entry)
    requires r < |es|
    ensures Space(es[r := e]) == Space(es) - |es[r].key| - |es[r].value| + |e.key| + |e.value|
  {
  }

  lemma SpacePut(es: seq<Entry>, k: Bytes, v: Bytes)
    ensures Space(PutEntry(es, k, v)) ==
            if Has(es, k) then Space(es) - |es[Rank(es, k)].value| + |v| else Space(es) + |k| + |v|
  {
    hide Space, Less;
    if Has(es, k) {
      SpaceReplace(es, Rank(es, k), Entry(k, v));
    } else {
      SpaceInsert(es, Rank(es, k), Entry(k, v));
    }
  }

  lemma SpaceDel(es: seq<Entry>, k: Bytes)
    ensures Space(DelEntry(es, k)) == if Has(es, k) then Space(es) - |k| - |es[Rank(es, k)].value| else Space(es)
  {
    hide Space, Less;
    if Has(es, k) {
      SpaceRemove(es, Rank(es, k));
    }
  }

  /** A key that is in the list is found where it stands. */
  lemma FoundAt(es: seq<Entry>, i: nat)
    requires Sorted(es) && i < |es|
    ensures Rank(es, es[i].key) == i && Has(es, es[i].key) && Lookup(es, es[i].key) == Some(es[i].value)
  {
    forall j | i <= j < |es|
      ensures !Less(es[j].key, es[i].key)
    {
      LessIsTotal(es[i].key, es[j].key);
    }
    RankIsUnique(es, es[i].key, i);
  }

  lemma LookupPut(es: seq<Entry>, k: Bytes, v: Bytes, q: Bytes)
    requires Sorted(es)
    ensures Lookup(PutEntry(es, k, v), q) == if q == k then Some(v) else Lookup(es, q)
  {
    hide Less, Rank;
    var (r, es') := (Rank(es, k), PutEntry(es, k, v));
    SortedPut(es, k, v);
    hide Sorted;
    if q == k {
      assert es'[r] == Entry(k, v);
      FoundAt(es', r);
    } else if Has(es, q) {
      var i := Rank(es, q);
      var j := if i < r || Has(es, k) then i else i + 1;
      assert es'[j] == es[i];
      FoundAt(es', j);
    } else if Has(es', q) {
      var j := Rank(es', q);
      FoundAt(es, if j < r || Has(es, k) then j else j - 1);
    }
  }

  lemma LookupDel(es: seq<Entry>, k: Bytes, q: Bytes)
    requires Sorted(es)
    ensures Lookup(DelEntry(es, k), q) == if q == k then None else Lookup(es, q)
  {
    var (r, es') := (Rank(es, k), DelEntry(es, k));
    SortedDel(es, k);
    if Has(es', q) {
      var j := Rank(es', q);
      var i := if j < r || !Has(es, k) then j else j + 1;
      assert es[i] == es'[j];
      FoundAt(es, i);
    } else if Has(es, q) && q != k {
      var i := Rank(es, q);
      FoundAt(es', if i < r || !Has(es, k) then i else i - 1);
    }
  }

  lemma LookupIsMembership(es: seq<Entry>, k: Bytes)
    requires Sorted(es)
    ensures Lookup(es, k).Some? <==> k in Keys(es)
    ensures Lookup(es, k) == if k in AsMap(es) then Some(AsMap(es)[k]) else None
  {
    if Has(es, k) {
      assert es[Rank(es, k)] in es;
    }
    if k in Keys(es) {
      var e :| e in es && e.key == k;
      var i :| 0 <= i < |es| && es[i] == e;
      FoundAt(es, i);
    }
  }

  /** A put on the list is a put on the map. */
  lemma AsMapPut(es: seq<Entry>, k: Bytes, v: Bytes)
    requires Sorted(es)
    ensures AsMap(PutEntry(es, k, v)) == AsMap(es)[k := v]
  {
    hide Lookup, PutEntry;
    SortedPut(es, k, v);
    forall q
      ensures q in AsMap(PutEntry(es, k, v)) <==> q in AsMap(es)[k := v]
      ensures q in AsMap(es)[k := v] ==> AsMap(PutEntry(es, k, v))[q] == AsMap(es)[k := v][q]
    {
      LookupPut(es, k, v, q);
      LookupIsMembership(es, q);
      LookupIsMembership(PutEntry(es, k, v), q);
    }
  }

  /** A delete on the list is a delete on the map. */
  lemma AsMapDel(es: seq<Entry>, k: Bytes)
    requires Sorted(es)
    ensures AsMap(DelEntry(es, k)) == AsMap(es) - {k}
  {
    hide Lookup, DelEntry;
    SortedDel(es, k);
    forall q
      ensures q in AsMap(DelEntry(es, k)) <==> q in AsMap(es) - {k}
      ensures q in AsMap(es) - {k} ==> AsMap(DelEntry(es, k))[q] == AsMap(es)[q]
    {
      LookupDel(es, k, q);
      LookupIsMembership(es, q);
      LookupIsMembership(DelEntry(es, k), q);
    }
  }

  /** The list has one entry per key. */
  lemma {:induction false} KeysSize(es: seq<Entry>)
    requires Sorted(es)
    ensures |Keys(es)| == |es|
  {
    if |es| > 0 {
      var last := |es| - 1;
      KeysSize(es[..last]);
      assert es == es[..last] + [es[last]];
      assert Keys(es) == Keys(es[..last]) + {es[last].key};
      forall e | e in es[..last]
        ensures e.key != es[last].key
      {
        var i :| 0 <= i < last && es[i] == e;
        LessIsTotal(es[i].key, es[last].key);
      }
    }
  }

  lemma AsMapSize(es: seq<Entry>)
    requires Sorted(es)
    ensures |AsMap(es)| == |es|
  {
    KeysSize(es);
    assert AsMap(es).Keys == Keys(es);
  }
}
