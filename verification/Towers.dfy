/** The shape of a skip list, from the heights of its nodes alone: which node follows which at a level,
    and how inserting, removing and raising towers changes that. */
module Towers {

  /** A tower that does not reach level `l`. */
  ghost predicate Low(hs: seq<nat>, k: int, l: nat) {
    0 <= k < |hs| && hs[k] <= l
  }

  /** Is `j` the first node after `i` that reaches level `l`? */
  ghost predicate IsSucc(hs: seq<nat>, i: nat, l: nat, j: nat) {
    i < j < |hs| && !Low(hs, j, l) && forall k :: i < k < j ==> Low(hs, k, l)
  }

  /** Is `i` the last node before `pos` that reaches level `l`? */
  ghost predicate IsPrev(hs: seq<nat>, pos: nat, l: nat, i: nat) {
    i < pos <= |hs| && !Low(hs, i, l) && forall k :: i < k < pos ==> Low(hs, k, l)
  }

  /** The next node after `i` that reaches level `l`. */
  function Succ(hs: seq<nat>, i: nat, l: nat): (j: nat)
    requires i + 1 < |hs| && hs[|hs| - 1] > l
    ensures IsSucc(hs, i, l, j)
    decreases |hs| - i
  {
    if hs[i + 1] > l then i + 1 else Succ(hs, i + 1, l)
  }

  /** The last node before `pos` that reaches level `l`. */
  function Prev(hs: seq<nat>, pos: nat, l: nat): (i: nat)
    requires 0 < pos <= |hs| && hs[0] > l
    ensures IsPrev(hs, pos, l, i)
  {
    if hs[pos - 1] > l then pos - 1 else Prev(hs, pos - 1, l)
  }

  lemma SuccIsUnique(hs: seq<nat>, i: nat, l: nat, j: nat)
    requires i + 1 < |hs| && hs[|hs| - 1] > l && IsSucc(hs, i, l, j)
    ensures Succ(hs, i, l) == j
  {
    hide Succ;
    var m := Succ(hs, i, l);
    assert m < j ==> Low(hs, m, l);
    assert j < m ==> Low(hs, j, l);
  }

  /** A level-`l` search for `pos` turns down exactly at `Prev`. */
  lemma PrevBySucc(hs: seq<nat>, pos: nat, l: nat, i: nat)
    requires 0 < pos < |hs| && hs[0] > l && hs[|hs| - 1] > l
    requires i < pos && hs[i] > l
    ensures Succ(hs, i, l) >= pos <==> i == Prev(hs, pos, l)
  {
    hide Succ, Prev;
    var (j, p) := (Succ(hs, i, l), Prev(hs, pos, l));
    assert j < pos && p < j ==> Low(hs, j, l);
    assert i < p < j ==> Low(hs, p, l);
    assert p < i ==> Low(hs, i, l);
    assert !Low(hs, i, l);
  }

  /** `hs'` is `hs` with a tower of height `h` put in at `pos`. */
  ghost predicate Inserted(hs: seq<nat>, hs': seq<nat>, pos: nat, h: nat) {
    && pos <= |hs| && |hs'| == |hs| + 1
    && forall k: nat {:trigger hs'[k]} :: k < |hs'| ==> hs'[k] == if k < pos then hs[k] else if k == pos then h else hs[k - 1]
  }

  lemma InsertedBySlices(hs: seq<nat>, pos: nat, h: nat)
    requires pos <= |hs|
    ensures Inserted(hs, hs[..pos] + [h] + hs[pos..], pos, h)
  {
  }

  lemma SuccMovesUp(hs: seq<nat>, hs': seq<nat>, pos: nat, h: nat, i: nat, l: nat)
    requires Inserted(hs, hs', pos, h)
    requires pos <= i < |hs| - 1 && hs[|hs| - 1] > l
    ensures hs'[|hs'| - 1] > l && Succ(hs', i + 1, l) == Succ(hs, i, l) + 1
  {
    hide Succ;
    var j := Succ(hs, i, l);
    forall k | i + 1 < k < j + 1
      ensures Low(hs', k, l)
    {
      assert Low(hs, k - 1, l);
    }
    assert hs'[j + 1] == hs[j];
    SuccIsUnique(hs', i + 1, l, j + 1);
  }

  lemma SuccOfNew(hs: seq<nat>, hs': seq<nat>, pos: nat, h: nat, l: nat)
    requires Inserted(hs, hs', pos, h)
    requires 0 < pos < |hs| && hs[0] > l && hs[|hs| - 1] > l
    ensures hs'[|hs'| - 1] > l && Succ(hs', pos, l) == Succ(hs, Prev(hs, pos, l), l) + 1
  {
    hide Succ, Prev;
    var p := Prev(hs, pos, l);
    PrevBySucc(hs, pos, l, p);
    var j := Succ(hs, p, l);
    forall k | pos < k < j + 1
      ensures Low(hs', k, l)
    {
      assert Low(hs, k - 1, l);
    }
    assert hs'[j + 1] == hs[j];
    SuccIsUnique(hs', pos, l, j + 1);
  }

  lemma SuccBeforeNew(hs: seq<nat>, hs': seq<nat>, pos: nat, h: nat, i: nat, l: nat)
    requires Inserted(hs, hs', pos, h)
    requires i < pos < |hs| && hs[|hs| - 1] > l
    ensures hs'[|hs'| - 1] > l
    ensures Succ(hs', i, l) == if Succ(hs, i, l) < pos then Succ(hs, i, l) else if l < h then pos else Succ(hs, i, l) + 1
  {
    hide Succ;
    var j := Succ(hs, i, l);
    var j' := if j < pos then j else if l < h then pos else j + 1;
    forall k | i < k < j'
      ensures Low(hs', k, l)
    {
      assert k < pos ==> Low(hs, k, l);
      assert k > pos ==> Low(hs, k - 1, l);
    }
    assert !Low(hs', j', l) by { assert hs'[j'] == if j < pos then hs[j] else if l < h then h else hs[j]; }
    SuccIsUnique(hs', i, l, j');
  }

  /** After an insertion, what followed a node still follows it, unless the new tower stands between. */
  lemma SuccAfterInsert(hs: seq<nat>, hs': seq<nat>, pos: nat, h: nat, i: nat, l: nat)
    requires Inserted(hs, hs', pos, h)
    requires 0 < pos < |hs| && hs[0] > l && hs[|hs| - 1] > l && i < |hs| && hs'[i] > l
    ensures hs'[|hs'| - 1] > l
    ensures i > pos ==> Succ(hs', i, l) == Succ(hs, i - 1, l) + 1
    ensures i == pos ==> Succ(hs', i, l) == Succ(hs, Prev(hs, pos, l), l) + 1
    ensures i < pos && i != Prev(hs, pos, l) ==> Succ(hs', i, l) == Succ(hs, i, l)
    ensures i == Prev(hs, pos, l) ==> Succ(hs', i, l) == if l < h then pos else Succ(hs, i, l) + 1
  {
    hide Succ, Prev;
    var p := Prev(hs, pos, l);
    if i > pos {
      SuccMovesUp(hs, hs', pos, h, i - 1, l);
    } else if i == pos {
      PrevBySucc(hs, pos, l, p);
      SuccOfNew(hs, hs', pos, h, l);
    } else {
      PrevBySucc(hs, pos, l, i);
      SuccBeforeNew(hs, hs', pos, h, i, l);
    }
  }

  lemma SamePrev(hs: seq<nat>, hs': seq<nat>, pos: nat, h: nat, l: nat)
    requires Inserted(hs, hs', pos, h)
    requires 0 < pos < |hs| && hs[0] > l
    ensures hs'[0] > l && Prev(hs', pos, l) == Prev(hs, pos, l)
  {
    hide Prev;
    assert hs'[0] == hs[0];
    var (p, q) := (Prev(hs, pos, l), Prev(hs', pos, l));
    assert hs'[p] == hs[p] && hs'[q] == hs[q];
    assert p < q ==> Low(hs, q, l);
    assert q < p ==> Low(hs', p, l);
  }

  /** After a removal, what followed a node still follows it, and the one before the removed tower takes
      over its successors. Stated from the list that the insertion at `pos` leads back from. */
  lemma SuccAfterRemove(hs: seq<nat>, hs': seq<nat>, pos: nat, i: nat, l: nat)
    requires pos < |hs| && Inserted(hs', hs, pos, hs[pos])
    requires 0 < pos < |hs'| && hs'[0] > l && hs'[|hs'| - 1] > l && i < |hs'| - 1 && hs'[i] > l
    ensures hs[|hs| - 1] > l && hs[0] > l
    ensures i >= pos ==> Succ(hs', i, l) == Succ(hs, i + 1, l) - 1
    ensures i < pos && i != Prev(hs, pos, l) ==> Succ(hs', i, l) == Succ(hs, i, l)
    ensures i == Prev(hs, pos, l) && hs[pos] <= l ==> Succ(hs', i, l) == Succ(hs, i, l) - 1
    ensures i == Prev(hs, pos, l) && hs[pos] > l ==> Succ(hs, i, l) == pos && Succ(hs', i, l) == Succ(hs, pos, l) - 1
  {
    hide Succ, Prev;
    if i >= pos {
      SuccMovesUp(hs', hs, pos, hs[pos], i, l);
    } else {
      SamePrev(hs', hs, pos, hs[pos], l);
      PrevBySucc(hs', pos, l, i);
      SuccBeforeNew(hs', hs, pos, hs[pos], i, l);
      SuccOfNew(hs', hs, pos, hs[pos], l);
    }
  }

  /** Raising the first and last tower changes no successor at the old levels, and at the new levels
      the last node follows the first. */
  lemma SuccAfterRaise(hs: seq<nat>, hs': seq<nat>, i: nat, l: nat)
    requires |hs'| == |hs| >= 2 && i + 1 < |hs| && hs'[|hs| - 1] > l
    requires forall k :: 0 < k < |hs| - 1 ==> hs'[k] == hs[k] <= hs[0]
    requires hs[|hs| - 1] == hs[0] <= hs'[0] == hs'[|hs| - 1]
    ensures l < hs[0] ==> Succ(hs', i, l) == Succ(hs, i, l)
    ensures l >= hs[0] ==> Succ(hs', i, l) == |hs| - 1
  {
    hide Succ;
    var j := if l < hs[0] then Succ(hs, i, l) else |hs| - 1;
    forall k | i < k < j
      ensures Low(hs', k, l)
    {
      assert l < hs[0] ==> Low(hs, k, l);
    }
    assert l < hs[0] ==> !Low(hs, j, l);
    SuccIsUnique(hs', i, l, j);
  }

  lemma PrevAfterRaise(hs: seq<nat>, hs': seq<nat>, pos: nat, l: nat)
    requires |hs'| == |hs| >= 2 && 0 < pos < |hs| && hs'[0] > l
    requires forall k :: 0 < k < |hs| - 1 ==> hs'[k] == hs[k] <= hs[0]
    requires hs[|hs| - 1] == hs[0] <= hs'[0] == hs'[|hs| - 1]
    ensures l < hs[0] ==> Prev(hs', pos, l) == Prev(hs, pos, l)
    ensures l >= hs[0] ==> Prev(hs', pos, l) == 0
  {
  }
}
