/** Histories of accesses: replaying them, their legality, the serial history of a decision order,
    and rolling back write records. */
module Histories {
  import opened Common
  import opened LockQueue
  import opened Cluster
  import opened Txn

  /** The value of key `k` after the accesses `es`, when it was `base` before. */
  function After(es: seq<Event>, k: Key, base: Option<Value>): Option<Value> {
    if |es| == 0 then base else
      var before := After(es[..|es| - 1], k, base);
      var e := es[|es| - 1];
      if e.key != k then before else
        match e.op
        case Get(_) => before
        case Put(v) => Some(v)
        case Del(_) => None
  }

  /** Does the access report what a store holding `seen` under its key would report? */
  predicate Fits(e: Event, seen: Option<Value>) {
    match e.op
    case Get(result) => result == seen
    case Put(_) => true
    case Del(found) => found == seen.Some?
  }

  /** Executed one after the other from the store `base`, the accesses report exactly what they reported. */
  ghost predicate Legal(es: seq<Event>, base: Key -> Option<Value>) {
    forall i :: 0 <= i < |es| ==> Fits(es[i], After(es[..i], es[i].key, base(es[i].key)))
  }

  predicate Writes(e: Event, k: Key) {
    e.key == k && !e.op.Get?
  }

  function EventsOf(h: seq<Event>, t: TxnId): seq<Event> {
    if |h| == 0 then [] else
      EventsOf(h[..|h| - 1], t) + if h[|h| - 1].txn == t then [h[|h| - 1]] else []
  }

  /** The transactions `ds` one after the other, each with its own accesses in their order. */
  function Serial(h: seq<Event>, ds: seq<TxnId>): seq<Event> {
    if |ds| == 0 then [] else Serial(h, ds[..|ds| - 1]) + EventsOf(h, ds[|ds| - 1])
  }

  /** What rolling back the write records `ws`, last first, leaves under `k` when it holds `now`. */
  function RolledBack(ws: seq<WriteRecord>, k: Key, now: Option<Value>): Option<Value> {
    if |ws| == 0 then now else
      var r := ws[|ws| - 1];
      RolledBack(ws[..|ws| - 1], k, if r.key != k then now else if r.DeleteTuple? then Some(r.value) else None)
  }

  predicate Recorded(ws: seq<WriteRecord>, k: Key) {
    exists i :: 0 <= i < |ws| && ws[i].key == k
  }

  lemma {:induction false} AfterConcat(a: seq<Event>, b: seq<Event>, k: Key, base: Option<Value>)
    ensures After(a + b, k, base) == After(b, k, After(a, k, base))
  {
    if |b| == 0 {
      assert a + b == a;
    } else {
      assert (a + b)[..|a + b| - 1] == a + b[..|b| - 1];
      AfterConcat(a, b[..|b| - 1], k, base);
    }
  }

  lemma {:induction false} AfterUnwritten(es: seq<Event>, k: Key, base: Option<Value>)
    requires forall e :: e in es ==> !Writes(e, k)
    ensures After(es, k, base) == base
  {
    if |es| > 0 {
      assert es[|es| - 1] in es;
      AfterUnwritten(es[..|es| - 1], k, base);
    }
  }

  lemma LegalConcat(a: seq<Event>, b: seq<Event>, base: Key -> Option<Value>, mid: Key -> Option<Value>)
    requires Legal(a, base) && Legal(b, mid)
    requires forall k :: mid(k) == After(a, k, base(k))
    ensures Legal(a + b, base)
  {
    forall i | 0 <= i < |a + b|
      ensures Fits((a + b)[i], After((a + b)[..i], (a + b)[i].key, base((a + b)[i].key)))
    {
      if i < |a| {
        assert (a + b)[..i] == a[..i];
      } else {
        var e := b[i - |a|];
        assert (a + b)[..i] == a + b[..i - |a|];
        AfterConcat(a, b[..i - |a|], e.key, base(e.key));
        assert mid(e.key) == After(a, e.key, base(e.key));
      }
    }
  }

  lemma LegalAppend(es: seq<Event>, e: Event, base: Key -> Option<Value>)
    requires Legal(es, base) && Fits(e, After(es, e.key, base(e.key)))
    ensures Legal(es + [e], base)
  {
    forall i | 0 <= i < |es + [e]|
      ensures Fits((es + [e])[i], After((es + [e])[..i], (es + [e])[i].key, base((es + [e])[i].key)))
    {
      assert (es + [e])[..i] == es[..i];
      assert i == |es| ==> es[..i] == es;
    }
  }

  lemma LegalElsewhere(es: seq<Event>, base: Key -> Option<Value>, base': Key -> Option<Value>)
    requires Legal(es, base)
    requires forall e :: e in es ==> base'(e.key) == base(e.key)
    ensures Legal(es, base')
  {
    forall i | 0 <= i < |es|
      ensures Fits(es[i], After(es[..i], es[i].key, base'(es[i].key)))
    {
      assert es[i] in es;
    }
  }

  lemma EventsOfAppend(h: seq<Event>, e: Event, t: TxnId)
    ensures EventsOf(h + [e], t) == EventsOf(h, t) + if e.txn == t then [e] else []
  {
    assert (h + [e])[..|h|] == h;
  }

  lemma {:induction false} EventsOfSound(h: seq<Event>, t: TxnId)
    ensures forall e :: e in EventsOf(h, t) <==> e in h && e.txn == t
  {
    if |h| > 0 {
      EventsOfSound(h[..|h| - 1], t);
      assert h == h[..|h| - 1] + [h[|h| - 1]];
    }
  }

  lemma {:induction false} EventsOfNobody(h: seq<Event>, t: TxnId)
    requires forall e :: e in h ==> e.txn != t
    ensures EventsOf(h, t) == []
  {
    if |h| > 0 {
      assert h[|h| - 1] in h;
      EventsOfNobody(h[..|h| - 1], t);
    }
  }

  lemma {:induction false} SerialAppend(h: seq<Event>, e: Event, ds: seq<TxnId>)
    requires e.txn !in ds
    ensures Serial(h + [e], ds) == Serial(h, ds)
  {
    if |ds| > 0 {
      assert ds[|ds| - 1] in ds;
      SerialAppend(h, e, ds[..|ds| - 1]);
      EventsOfAppend(h, e, ds[|ds| - 1]);
    }
  }

  lemma {:induction false} EventsOfConcat(a: seq<Event>, b: seq<Event>, t: TxnId)
    ensures EventsOf(a + b, t) == EventsOf(a, t) + EventsOf(b, t)
  {
    if |b| == 0 {
      assert a + b == a;
    } else {
      var last := |b| - 1;
      assert (a + b)[..|a + b| - 1] == a + b[..last];
      EventsOfConcat(a, b[..last], t);
    }
  }

  lemma {:induction false} EventsOfTwice(h: seq<Event>, t: TxnId, u: TxnId)
    ensures EventsOf(EventsOf(h, u), t) == if t == u then EventsOf(h, t) else []
  {
    if |h| > 0 {
      var last := |h| - 1;
      EventsOfTwice(h[..last], t, u);
      EventsOfConcat(EventsOf(h[..last], u), if h[last].txn == u then [h[last]] else [], t);
      if h[last].txn == u { assert EventsOf([h[last]], t) == if t == u then [h[last]] else []; }
    }
  }

  /** A serial history holds exactly the accesses of the decided transactions, each transaction's in
      the order in which it made them. */
  lemma {:induction false} SerialIsComplete(h: seq<Event>, ds: seq<TxnId>, t: TxnId)
    requires forall i, j :: 0 <= i < j < |ds| ==> ds[i] != ds[j]
    ensures EventsOf(Serial(h, ds), t) == if t in ds then EventsOf(h, t) else []
  {
    if |ds| > 0 {
      var last := |ds| - 1;
      SerialIsComplete(h, ds[..last], t);
      EventsOfConcat(Serial(h, ds[..last]), EventsOf(h, ds[last]), t);
      EventsOfTwice(h, t, ds[last]);
      assert ds == ds[..last] + [ds[last]];
      if t == ds[last] { assert t !in ds[..last]; }
    }
  }

  /** Once a key has a record, rolling back does not depend on its present value. */
  lemma {:induction false} RolledBackRecorded(ws: seq<WriteRecord>, k: Key, a: Option<Value>, b: Option<Value>)
    requires Recorded(ws, k)
    ensures RolledBack(ws, k, a) == RolledBack(ws, k, b)
  {
    var last := |ws| - 1;
    if ws[last].key != k {
      var i :| 0 <= i < |ws| && ws[i].key == k;
      assert ws[..last][i].key == k;
      RolledBackRecorded(ws[..last], k, a, b);
    }
  }

  lemma {:induction false} RolledBackUnrecorded(ws: seq<WriteRecord>, k: Key, now: Option<Value>)
    requires !Recorded(ws, k)
    ensures RolledBack(ws, k, now) == now
  {
    if |ws| > 0 {
      var last := |ws| - 1;
      assert forall i :: 0 <= i < last ==> ws[..last][i] == ws[i];
      RolledBackUnrecorded(ws[..last], k, now);
    }
  }

  lemma RolledBackLast(ws: seq<WriteRecord>, k: Key, now: Option<Value>)
    requires |ws| > 0
    ensures var r := ws[|ws| - 1];
            RolledBack(ws, k, now) ==
            RolledBack(ws[..|ws| - 1], k, if r.key != k then now else if r.DeleteTuple? then Some(r.value) else None)
  {
  }

  lemma RolledBackAppend(ws: seq<WriteRecord>, r: WriteRecord, k: Key, now: Option<Value>)
    ensures RolledBack(ws + [r], k, now) ==
            RolledBack(ws, k, if r.key != k then now else if r.DeleteTuple? then Some(r.value) else None)
  {
    assert (ws + [r])[..|ws|] == ws;
  }
}
