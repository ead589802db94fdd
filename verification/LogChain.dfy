/** The prev-LSN chains of a log: every record points at the previous record of its transaction
    (include/recovery/log_record.h, include/Inmemory/KVStore.h). The LSN of a record is its position. */
module LogChain {
  const INVALID_LSN := -1

  datatype Link = Link(txn: int, prev: int)

  /** LSN of the last record of transaction `t`, or INVALID_LSN. */
  function LastOf(links: seq<Link>, t: int): (lsn: int)
    ensures INVALID_LSN <= lsn < |links|
    ensures lsn >= 0 ==> links[lsn].txn == t
    ensures forall i :: lsn < i < |links| ==> links[i].txn != t
  {
    if |links| == 0 then INVALID_LSN
    else if links[|links| - 1].txn == t then |links| - 1
    else LastOf(links[..|links| - 1], t)
  }

  ghost predicate WellChained(links: seq<Link>) {
    forall i :: 0 <= i < |links| ==> links[i].prev == LastOf(links[..i], links[i].txn)
  }

  lemma AppendKeepsChain(links: seq<Link>, l: Link)
    requires WellChained(links) && l.prev == LastOf(links, l.txn)
    ensures WellChained(links + [l])
    ensures forall t :: LastOf(links + [l], t) == if t == l.txn then |links| else LastOf(links, t)
  {
    assert (links + [l])[..|links|] == links;
    assert forall i :: 0 <= i < |links| ==> (links + [l])[..i] == links[..i];
  }
}
