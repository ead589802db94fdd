/** The memtable: a skip list edited in place, proved to be the sorted list of its entries whatever
    heights its towers get. */
module SkipLists {
  import opened Common
  import opened SortedEntries
  import opened Towers

  const MAX_HEIGHT: nat := 12

  /** The tower of a node is as high as its list of next pointers is long. */
  class Node {
    const key: Bytes
    var value: Bytes
    var nexts: seq<Node?>

    constructor (key: Bytes, value: Bytes, height: nat)
      ensures this.key == key && this.value == value && nexts == seq(height, _ => null)
    {
      this.key := key;
      this.value := value;
      this.nexts := seq(height, _ => null);
    }
  }

  /** Does the node list hold the entries between its two sentinels? */
  ghost predicate Holds(nodes: seq<Node>, es: seq<Entry>)
    reads nodes`value
  {
    && |nodes| == |es| + 2
    && forall i :: 0 <= i < |es| ==> nodes[i + 1].key == es[i].key && nodes[i + 1].value == es[i].value
  }

  ghost predicate Distinct(nodes: seq<Node>) {
    forall i, j :: 0 <= i < j < |nodes| ==> nodes[i] != nodes[j]
  }

  /** No tower is above the two sentinels, and none is empty. */
  ghost predicate Shaped(hs: seq<nat>) {
    && |hs| >= 2 && hs[0] == hs[|hs| - 1] <= MAX_HEIGHT
    && forall k {:trigger hs[k]} :: 0 <= k < |hs| ==> 1 <= hs[k] <= hs[0]
  }

  ghost predicate Tall(nodes: seq<Node>, hs: seq<nat>)
    reads nodes`nexts
  {
    |nodes| == |hs| && forall i :: 0 <= i < |hs| ==> |nodes[i].nexts| == hs[i]
  }

  ghost predicate LeadsNowhere(n: Node)
    reads n`nexts
  {
    forall l :: 0 <= l < |n.nexts| ==> n.nexts[l] == null
  }

  /** Does each pointer of each level lead to the next node that reaches the level? */
  ghost predicate Linked(nodes: seq<Node>, hs: seq<nat>)
    requires Shaped(hs) && Tall(nodes, hs)
    reads nodes`nexts
  {
    && (forall i, l {:trigger nodes[i].nexts[l]} :: 0 <= i < |hs| - 1 && 0 <= l < hs[i] ==> nodes[i].nexts[l] == nodes[Succ(hs, i, l)])
    && LeadsNowhere(nodes[|hs| - 1])
  }

  /** A splice in progress: below level `done` the new node stands between its neighbours, and every other
      pointer is as it was. */
  ghost predicate Spliced(nodes: seq<Node>, hs: seq<nat>, pos: nat, node: Node, done: nat)
    requires Shaped(hs) && Tall(nodes, hs) && 0 < pos < |hs|
    requires done <= |node.nexts| <= hs[0]
    reads nodes`nexts, node`nexts
  {
    && (forall i, l {:trigger nodes[i].nexts[l]} :: 0 <= i < |hs| - 1 && 0 <= l < hs[i] ==>
          (nodes[i].nexts[l] == if l < done && i == Prev(hs, pos, l) then node else nodes[Succ(hs, i, l)]))
    && (forall l :: 0 <= l < done ==> node.nexts[l] == nodes[Succ(hs, Prev(hs, pos, l), l)])
    && LeadsNowhere(nodes[|hs| - 1])
  }

  lemma Differ(nodes: seq<Node>, i: nat, j: nat)
    requires Distinct(nodes) && i < |nodes| && j < |nodes| && i != j
    ensures nodes[i] != nodes[j]
  {
  }

  /** Puts a node between its neighbours at one level. */
  method SpliceLevel(ghost nodes: seq<Node>, ghost hs: seq<nat>, ghost pos: nat, prev: Node, node: Node, level: nat)
    requires Shaped(hs) && Tall(nodes, hs) && Distinct(nodes) && node !in nodes && 0 < pos < |hs|
    requires level < |node.nexts| <= hs[0] && Spliced(nodes, hs, pos, node, level)
    requires prev == nodes[Prev(hs, pos, level)]
    modifies prev`nexts, node`nexts
    ensures Tall(nodes, hs) && |node.nexts| == old(|node.nexts|)
    ensures Spliced(nodes, hs, pos, node, level + 1)
  {
    hide Succ, Prev, Distinct;
    ghost var p := Prev(hs, pos, level);
    assert prev.nexts[level] == nodes[Succ(hs, p, level)];
    assert nodes[|hs| - 1] != prev by { Differ(nodes, |hs| - 1, p); }
    node.nexts := node.nexts[level := prev.nexts[level]];
    prev.nexts := prev.nexts[level := node];
    assert Tall(nodes, hs);
    forall i, l {:trigger nodes[i].nexts[l]} | 0 <= i < |hs| - 1 && 0 <= l < hs[i]
      ensures nodes[i].nexts[l] == if l < level + 1 && i == Prev(hs, pos, l) then node else nodes[Succ(hs, i, l)]
    {
      if i != p { Differ(nodes, i, p); }
      assert old(nodes[i].nexts[l]) == if l < level && i == Prev(hs, pos, l) then node else nodes[Succ(hs, i, l)];
    }
  }

  /** Puts a node between its neighbours at every level that its tower reaches. */
  method Splice(ghost nodes: seq<Node>, ghost hs: seq<nat>, ghost pos: nat, prevs: seq<Node?>, node: Node)
    requires Shaped(hs) && Tall(nodes, hs) && Linked(nodes, hs) && Distinct(nodes) && node !in nodes
    requires 0 < pos < |hs| && |node.nexts| <= hs[0] && |prevs| == MAX_HEIGHT
    requires forall l :: 0 <= l < |node.nexts| ==> prevs[l] == nodes[Prev(hs, pos, l)]
    modifies nodes`nexts, node`nexts
    ensures Tall(nodes, hs) && |node.nexts| == old(|node.nexts|)
    ensures Spliced(nodes, hs, pos, node, |node.nexts|)
  {
    hide Succ, Prev, Distinct;
    var height := |node.nexts|;
    for i := 0 to height
      invariant Tall(nodes, hs) && |node.nexts| == height
      invariant Spliced(nodes, hs, pos, node, i)
    {
      hide Spliced;
      SpliceLevel(nodes, hs, pos, prevs[i], node, i);
    }
  }

  ghost predicate WithNode(nodes: seq<Node>, nodes': seq<Node>, pos: nat, node: Node) {
    && pos <= |nodes| && |nodes'| == |nodes| + 1
    && forall k: nat {:trigger nodes'[k]} :: k < |nodes'| ==> nodes'[k] == if k < pos then nodes[k] else if k == pos then node else nodes[k - 1]
  }

  lemma LastAfterSplice(nodes: seq<Node>, hs: seq<nat>, pos: nat, node: Node, nodes': seq<Node>, hs': seq<nat>)
    requires Shaped(hs) && Tall(nodes, hs) && 0 < pos < |hs| && 1 <= |node.nexts| <= hs[0]
    requires Spliced(nodes, hs, pos, node, |node.nexts|)
    requires WithNode(nodes, nodes', pos, node) && |hs'| == |nodes'|
    ensures LeadsNowhere(nodes'[|hs'| - 1])
  {
    hide Succ, Prev;
  }

  lemma NodeAt(nodes: seq<Node>, nodes': seq<Node>, pos: nat, node: Node, k: nat)
    requires WithNode(nodes, nodes', pos, node)
    requires k < |nodes| + 1
    ensures |nodes'| == |nodes| + 1
    ensures nodes'[k] == if k < pos then nodes[k] else if k == pos then node else nodes[k - 1]
  {
  }

  lemma SplicedOld(nodes: seq<Node>, hs: seq<nat>, pos: nat, node: Node, i: nat, l: nat)
    requires Shaped(hs) && Tall(nodes, hs) && 0 < pos < |hs| && |node.nexts| <= hs[0]
    requires Spliced(nodes, hs, pos, node, |node.nexts|) && i < |hs| - 1 && l < hs[i]
    ensures nodes[i].nexts[l] == if l < |node.nexts| && i == Prev(hs, pos, l) then node else nodes[Succ(hs, i, l)]
  {
    hide Succ, Prev;
  }

  lemma SplicedNew(nodes: seq<Node>, hs: seq<nat>, pos: nat, node: Node, l: nat)
    requires Shaped(hs) && Tall(nodes, hs) && 0 < pos < |hs| && |node.nexts| <= hs[0]
    requires Spliced(nodes, hs, pos, node, |node.nexts|) && l < |node.nexts|
    ensures node.nexts[l] == nodes[Succ(hs, Prev(hs, pos, l), l)]
  {
    hide Succ, Prev;
  }

  lemma BoundsAfterSplice(nodes: seq<Node>, hs: seq<nat>, pos: nat, node: Node, hs': seq<nat>, i: nat, l: nat)
    requires Shaped(hs) && Tall(nodes, hs) && 0 < pos < |hs| && 1 <= |node.nexts| <= hs[0]
    requires Inserted(hs, hs', pos, |node.nexts|) && i < |hs'| - 1 && l < hs'[i]
    ensures hs[0] > l && hs[|hs| - 1] > l && |hs'| == |hs| + 1 && |nodes| == |hs|
    ensures i < pos ==> l < hs[i] == |nodes[i].nexts|
    ensures i > pos ==> l < hs[i - 1] == |nodes[i - 1].nexts|
    ensures i == pos ==> l < |node.nexts|
  {
  }

  lemma PointerAfterSplice(nodes: seq<Node>, hs: seq<nat>, pos: nat, node: Node, nodes': seq<Node>, hs': seq<nat>,
                           i: nat, l: nat)
    requires Shaped(hs) && Tall(nodes, hs) && 0 < pos < |hs| && 1 <= |node.nexts| <= hs[0]
    requires Spliced(nodes, hs, pos, node, |node.nexts|)
    requires WithNode(nodes, nodes', pos, node) && Inserted(hs, hs', pos, |node.nexts|)
    requires Shaped(hs') && Tall(nodes', hs') && i < |hs'| - 1 && l < hs'[i]
    ensures nodes'[i].nexts[l] == nodes'[Succ(hs', i, l)]
  {
    hide Succ, Prev, Inserted, Shaped, Tall, WithNode, Spliced;
    BoundsAfterSplice(nodes, hs, pos, node, hs', i, l);
    SuccAfterInsert(hs, hs', pos, |node.nexts|, i, l);
    ghost var p := Prev(hs, pos, l);
    PrevBySucc(hs, pos, l, p);
    NodeAt(nodes, nodes', pos, node, i);
    NodeAt(nodes, nodes', pos, node, Succ(hs', i, l));
    if i == pos {
      SplicedNew(nodes, hs, pos, node, l);
    } else if i > pos {
      SplicedOld(nodes, hs, pos, node, i - 1, l);
    } else {
      PrevBySucc(hs, pos, l, i);
      SplicedOld(nodes, hs, pos, node, i, l);
    }
  }

  /** After the splice, the list with the node in it is linked. */
  lemma LinkedAfterSplice(nodes: seq<Node>, hs: seq<nat>, pos: nat, node: Node, nodes': seq<Node>, hs': seq<nat>)
    requires Shaped(hs) && Tall(nodes, hs) && 0 < pos < |hs| && 1 <= |node.nexts| <= hs[0]
    requires Spliced(nodes, hs, pos, node, |node.nexts|)
    requires WithNode(nodes, nodes', pos, node) && Inserted(hs, hs', pos, |node.nexts|)
    ensures Shaped(hs') && Tall(nodes', hs') && Linked(nodes', hs')
  {
    hide Succ, Prev, Spliced;
    assert Tall(nodes', hs');
    forall i, l | 0 <= i < |hs'| - 1 && 0 <= l < hs'[i]
      ensures nodes'[i].nexts[l] == nodes'[Succ(hs', i, l)]
    {
      PointerAfterSplice(nodes, hs, pos, node, nodes', hs', i, l);
    }
    assert LeadsNowhere(nodes'[|hs'| - 1]) by { LastAfterSplice(nodes, hs, pos, node, nodes', hs'); }
  }

  lemma BySlices(nodes: seq<Node>, pos: nat, node: Node)
    requires pos <= |nodes|
    ensures WithNode(nodes, nodes[..pos] + [node] + nodes[pos..], pos, node)
  {
  }

  lemma HoldsAfterInsert(nodes: seq<Node>, es: seq<Entry>, nodes': seq<Node>, r: nat, node: Node)
    requires Holds(nodes, es) && r <= |es| && WithNode(nodes, nodes', r + 1, node)
    ensures Holds(nodes', es[..r] + [Entry(node.key, node.value)] + es[r..])
  {
  }

  lemma DistinctAfterInsert(nodes: seq<Node>, nodes': seq<Node>, pos: nat, node: Node)
    requires Distinct(nodes) && node !in nodes && WithNode(nodes, nodes', pos, node)
    ensures Distinct(nodes')
  {
  }

  /** After the splice, the list with the entry is as it should be. */
  lemma WellFormedAfterSplice(nodes: seq<Node>, hs: seq<nat>, es: seq<Entry>, r: nat, node: Node)
    requires Holds(nodes, es) && Distinct(nodes) && Shaped(hs) && Tall(nodes, hs) && r <= |es| && node !in nodes
    requires 1 <= |node.nexts| <= hs[0] && Spliced(nodes, hs, r + 1, node, |node.nexts|)
    ensures var (nodes', hs') := (nodes[..r + 1] + [node] + nodes[r + 1..], hs[..r + 1] + [|node.nexts|] + hs[r + 1..]);
            && Holds(nodes', es[..r] + [Entry(node.key, node.value)] + es[r..]) && Distinct(nodes')
            && Shaped(hs') && Tall(nodes', hs') && Linked(nodes', hs')
  {
    var (nodes', hs') := (nodes[..r + 1] + [node] + nodes[r + 1..], hs[..r + 1] + [|node.nexts|] + hs[r + 1..]);
    assert |nodes| == |hs| == |es| + 2;
    hide Shaped, Tall, Linked, Spliced, Holds, Distinct, WithNode, Inserted;
    BySlices(nodes, r + 1, node);
    InsertedBySlices(hs, r + 1, |node.nexts|);
    LinkedAfterSplice(nodes, hs, r + 1, node, nodes', hs');
    DistinctAfterInsert(nodes, nodes', r + 1, node);
    HoldsAfterInsert(nodes, es, nodes', r, node);
  }

  lemma InsertedOne(nodes: seq<Node>, pos: nat, node: Node)
    requires pos <= |nodes|
    ensures (set n | n in nodes[..pos] + [node] + nodes[pos..]) == (set n | n in nodes) + {node}
  {
    assert nodes[..pos] + nodes[pos..] == nodes;
  }

  /** A removal in progress: below level `done` the node at `pos` is passed by, and every other pointer is
      as it was. */
  ghost predicate Bypassed(nodes: seq<Node>, hs: seq<nat>, pos: nat, done: nat)
    requires Shaped(hs) && Tall(nodes, hs) && 0 < pos < |hs| - 1 && done <= hs[pos]
    reads nodes`nexts
  {
    && (forall i, l {:trigger nodes[i].nexts[l]} :: 0 <= i < |hs| - 1 && 0 <= l < hs[i] ==>
          (nodes[i].nexts[l] == if l < done && i == Prev(hs, pos, l) then nodes[Succ(hs, pos, l)] else nodes[Succ(hs, i, l)]))
    && LeadsNowhere(nodes[|hs| - 1])
  }

  method BypassLevel(ghost nodes: seq<Node>, ghost hs: seq<nat>, ghost pos: nat, prev: Node, node: Node, level: nat)
    requires Shaped(hs) && Tall(nodes, hs) && Distinct(nodes) && 0 < pos < |hs| - 1
    requires level < hs[pos] && Bypassed(nodes, hs, pos, level)
    requires prev == nodes[Prev(hs, pos, level)] && node == nodes[pos]
    modifies prev`nexts
    ensures Tall(nodes, hs) && Bypassed(nodes, hs, pos, level + 1)
  {
    hide Succ, Prev, Distinct;
    ghost var p := Prev(hs, pos, level);
    assert nodes[|hs| - 1] != prev by { Differ(nodes, |hs| - 1, p); }
    assert node.nexts[level] == nodes[Succ(hs, pos, level)];
    prev.nexts := prev.nexts[level := node.nexts[level]];
    assert Tall(nodes, hs);
    forall i, l {:trigger nodes[i].nexts[l]} | 0 <= i < |hs| - 1 && 0 <= l < hs[i]
      ensures nodes[i].nexts[l] == if l < level + 1 && i == Prev(hs, pos, l) then nodes[Succ(hs, pos, l)] else nodes[Succ(hs, i, l)]
    {
      if i != p { Differ(nodes, i, p); }
      assert old(nodes[i].nexts[l]) == if l < level && i == Prev(hs, pos, l) then nodes[Succ(hs, pos, l)] else nodes[Succ(hs, i, l)];
    }
  }

  /** Leads every level around the node at `pos`. */
  method Bypass(ghost nodes: seq<Node>, ghost hs: seq<nat>, ghost pos: nat, prevs: seq<Node?>, node: Node)
    requires Shaped(hs) && Tall(nodes, hs) && Linked(nodes, hs) && Distinct(nodes)
    requires 0 < pos < |hs| - 1 && |prevs| == MAX_HEIGHT && node == nodes[pos]
    requires forall l :: 0 <= l < hs[0] ==> prevs[l] == nodes[Prev(hs, pos, l)]
    modifies nodes`nexts
    ensures Tall(nodes, hs) && Bypassed(nodes, hs, pos, hs[pos])
  {
    hide Succ, Prev, Distinct;
    var height := |node.nexts|;
    for i := 0 to height
      invariant Tall(nodes, hs)
      invariant Bypassed(nodes, hs, pos, i)
    {
      hide Bypassed;
      BypassLevel(nodes, hs, pos, prevs[i], node, i);
    }
  }

  lemma BypassedOld(nodes: seq<Node>, hs: seq<nat>, pos: nat, i: nat, l: nat)
    requires Shaped(hs) && Tall(nodes, hs) && 0 < pos < |hs| - 1
    requires Bypassed(nodes, hs, pos, hs[pos]) && i < |hs| - 1 && l < hs[i]
    ensures nodes[i].nexts[l] == if l < hs[pos] && i == Prev(hs, pos, l) then nodes[Succ(hs, pos, l)] else nodes[Succ(hs, i, l)]
    ensures LeadsNowhere(nodes[|hs| - 1])
  {
    hide Succ, Prev;
  }

  lemma HeightAt(hs: seq<nat>, hs': seq<nat>, pos: nat, h: nat, k: nat)
    requires Inserted(hs, hs', pos, h) && k < |hs| + 1
    ensures |hs'| == |hs| + 1
    ensures hs'[k] == if k < pos then hs[k] else if k == pos then h else hs[k - 1]
  {
  }

  lemma SameHeights(nodes: seq<Node>, hs: seq<nat>, i: nat)
    requires Tall(nodes, hs) && i < |hs|
    ensures |nodes| == |hs| && |nodes[i].nexts| == hs[i]
  {
  }

  lemma PointerAfterBypass(nodes: seq<Node>, hs: seq<nat>, pos: nat, nodes': seq<Node>, hs': seq<nat>, i: nat, l: nat)
    requires Shaped(hs) && Tall(nodes, hs) && 0 < pos < |hs| - 1
    requires Bypassed(nodes, hs, pos, hs[pos])
    requires WithNode(nodes', nodes, pos, nodes[pos]) && Inserted(hs', hs, pos, hs[pos])
    requires Shaped(hs') && Tall(nodes', hs') && i < |hs'| - 1 && l < hs'[i]
    ensures nodes'[i].nexts[l] == nodes'[Succ(hs', i, l)]
  {
    hide Succ, Prev, Bypassed, WithNode, Inserted, Tall;
    var k := if i < pos then i else i + 1;
    assert |hs| == |hs'| + 1 && |nodes| == |hs| && |nodes'| == |hs'| && hs[k] == hs'[i] == |nodes'[i].nexts| == |nodes[k].nexts| by {
      HeightAt(hs', hs, pos, hs[pos], k);
      SameHeights(nodes, hs, k);
      SameHeights(nodes', hs', i);
    }
    NodeAt(nodes', nodes, pos, nodes[pos], k);
    BypassedOld(nodes, hs, pos, k, l);
    SuccAfterRemove(hs, hs', pos, i, l);
    var j := Succ(hs', i, l);
    NodeAt(nodes', nodes, pos, nodes[pos], if j < pos then j else j + 1);
    if i < pos {
      PrevBySucc(hs, pos, l, i);
    }
  }

  /** After the bypass, the list without the node is linked. */
  lemma LinkedAfterBypass(nodes: seq<Node>, hs: seq<nat>, pos: nat, nodes': seq<Node>, hs': seq<nat>)
    requires Shaped(hs) && Tall(nodes, hs) && 0 < pos < |hs| - 1
    requires Bypassed(nodes, hs, pos, hs[pos])
    requires WithNode(nodes', nodes, pos, nodes[pos]) && Inserted(hs', hs, pos, hs[pos])
    ensures Shaped(hs') && Tall(nodes', hs') && Linked(nodes', hs')
  {
    hide Succ, Prev, Bypassed;
    assert Shaped(hs') by {
      forall i | 0 <= i < |hs'|
        ensures 1 <= hs'[i] <= hs[0]
      {
        HeightAt(hs', hs, pos, hs[pos], if i < pos then i else i + 1);
      }
      HeightAt(hs', hs, pos, hs[pos], 0);
      HeightAt(hs', hs, pos, hs[pos], |hs| - 1);
    }
    assert Tall(nodes', hs') by {
      forall i | 0 <= i < |hs'|
        ensures |nodes'[i].nexts| == hs'[i]
      {
        NodeAt(nodes', nodes, pos, nodes[pos], if i < pos then i else i + 1);
      }
    }
    forall i, l | 0 <= i < |hs'| - 1 && 0 <= l < hs'[i]
      ensures nodes'[i].nexts[l] == nodes'[Succ(hs', i, l)]
    {
      PointerAfterBypass(nodes, hs, pos, nodes', hs', i, l);
    }
    assert LeadsNowhere(nodes'[|hs'| - 1]) by {
      NodeAt(nodes', nodes, pos, nodes[pos], |hs'|);
      assert LeadsNowhere(nodes[|hs| - 1]) by { BypassedOld(nodes, hs, pos, 0, 0); }
    }
  }

  lemma HoldsAfterRemove(nodes: seq<Node>, es: seq<Entry>, nodes': seq<Node>, r: nat)
    requires Holds(nodes, es) && r < |es| && WithNode(nodes', nodes, r + 1, nodes[r + 1])
    ensures Holds(nodes', es[..r] + es[r + 1..])
  {
  }

  lemma DistinctByPairs(nodes: seq<Node>)
    requires forall i, j :: 0 <= i < j < |nodes| ==> nodes[i] != nodes[j]
    ensures Distinct(nodes)
  {
  }

  lemma DistinctAfterRemove(nodes: seq<Node>, nodes': seq<Node>, pos: nat)
    requires Distinct(nodes) && pos < |nodes| && WithNode(nodes', nodes, pos, nodes[pos])
    ensures Distinct(nodes')
  {
    hide Distinct;
    forall i, j | 0 <= i < j < |nodes'|
      ensures nodes'[i] != nodes'[j]
    {
      NodeAt(nodes', nodes, pos, nodes[pos], if i < pos then i else i + 1);
      NodeAt(nodes', nodes, pos, nodes[pos], if j < pos then j else j + 1);
      Differ(nodes, if i < pos then i else i + 1, if j < pos then j else j + 1);
    }
    assert Distinct(nodes') by { DistinctByPairs(nodes'); }
  }

  lemma RemovedBySlices(nodes: seq<Node>, hs: seq<nat>, pos: nat)
    requires pos < |nodes| == |hs|
    ensures WithNode(nodes[..pos] + nodes[pos + 1..], nodes, pos, nodes[pos])
    ensures Inserted(hs[..pos] + hs[pos + 1..], hs, pos, hs[pos])
  {
  }

  /** Two sentinels, one leading to the other, are a linked list with no entry. */
  lemma LinkedAtStart(first: Node, last: Node)
    requires first != last && first.nexts == [last] && last.nexts == [null]
    ensures var (nodes, hs: seq<nat>) := ([first, last], [1, 1]);
            Holds(nodes, []) && Distinct(nodes) && Shaped(hs) && Tall(nodes, hs) && Linked(nodes, hs)
  {
    var hs: seq<nat> := [1, 1];
    assert IsSucc(hs, 0, 0, 1);
    SuccIsUnique(hs, 0, 0, 1);
    hide Succ, IsSucc;
    assert Shaped(hs) && Tall([first, last], hs);
  }

  /** After the bypass, the list without the entry is as it should be. */
  lemma WellFormedAfterBypass(nodes: seq<Node>, hs: seq<nat>, es: seq<Entry>, r: nat)
    requires Holds(nodes, es) && Distinct(nodes) && Shaped(hs) && Tall(nodes, hs) && r < |es|
    requires Bypassed(nodes, hs, r + 1, hs[r + 1])
    ensures var (nodes', hs') := (nodes[..r + 1] + nodes[r + 2..], hs[..r + 1] + hs[r + 2..]);
            && Holds(nodes', es[..r] + es[r + 1..]) && Distinct(nodes')
            && Shaped(hs') && Tall(nodes', hs') && Linked(nodes', hs')
  {
    var (nodes', hs') := (nodes[..r + 1] + nodes[r + 2..], hs[..r + 1] + hs[r + 2..]);
    assert |nodes| == |hs| == |es| + 2;
    hide Shaped, Tall, Linked, Bypassed, Holds, Distinct, WithNode, Inserted;
    RemovedBySlices(nodes, hs, r + 1);
    LinkedAfterBypass(nodes, hs, r + 1, nodes', hs');
    DistinctAfterRemove(nodes, nodes', r + 1);
    HoldsAfterRemove(nodes, es, nodes', r);
  }

  class SkipList {
    var head: Node
    var tail: Node
    var numEntries: nat
    var numBytes: nat
    ghost var nodes: seq<Node>
    ghost var hs: seq<nat>
    ghost var es: seq<Entry>

    ghost predicate Valid()
      reads this, nodes
    {
      && Sorted(es) && Holds(nodes, es) && Distinct(nodes)
      && head == nodes[0] && tail == nodes[|nodes| - 1]
      && Shaped(hs) && Tall(nodes, hs) && Linked(nodes, hs)
      && numEntries == |es| && numBytes == Space(es)
    }

    ghost function Towers(): set<Node>
      reads this
    {
      set n | n in nodes
    }

    /** The list and its nodes. */
    ghost function Repr(): set<object>
      reads this
    {
      {this} + Towers()
    }

    lemma Sizes()
      requires Valid()
      ensures |nodes| == |hs| == |es| + 2 && 1 <= hs[0] <= MAX_HEIGHT
    {
    }

    constructor ()
      ensures Valid() && es == [] && fresh(Repr())
    {
      var first := new Node([], [], 1);
      var last := new Node([], [], 1);
      head, tail, numEntries, numBytes := first, last, 0, 0;
      nodes, hs, es := [first, last], [1, 1], [];
      new;
      hide Distinct, Holds, Shaped, Tall, Linked;
      head.nexts := [tail];
      assert last.nexts == [null];
      LinkedAtStart(head, tail);
    }

    method RandomHeight() returns (height: nat)
      ensures 1 <= height <= MAX_HEIGHT
    {
      var heads: nat :| true;
      height := if 1 + heads > MAX_HEIGHT then MAX_HEIGHT else 1 + heads;
    }

    /** The first node not below the key, and the last node below it at every level. */
    method FindGreaterOrEqual(key: Bytes) returns (node: Node, prevs: seq<Node?>)
      requires Valid()
      ensures node == nodes[Rank(es, key) + 1]
      ensures |prevs| == MAX_HEIGHT
      ensures forall l :: 0 <= l < hs[0] ==> prevs[l] == nodes[Prev(hs, Rank(es, key) + 1, l)]
    {
      hide Rank, Less, Succ, Prev, Space;
      prevs := seq(MAX_HEIGHT, _ => null);
      var x, height := head, |head.nexts| - 1;
      ghost var i: nat, pos: nat := 0, Rank(es, key) + 1;
      while true
        invariant 0 <= height < hs[0] && i < pos && x == nodes[i] && hs[i] > height
        invariant |prevs| == MAX_HEIGHT
        invariant forall l :: height < l < hs[0] ==> prevs[l] == nodes[Prev(hs, pos, l)]
        decreases height + |nodes| - i
      {
        var next := x.nexts[height];
        ghost var j := Succ(hs, i, height);
        assert next == nodes[j];
        PrevBySucc(hs, pos, height, i);
        if next != tail && Less(next.key, key) {
          assert next.key == es[j - 1].key;
          x, i := next, j;
        } else {
          assert j < |nodes| - 1 ==> next.key == es[j - 1].key;
          prevs := prevs[height := x];
          if height == 0 {
            assert IsSucc(hs, i, 0, j);
            assert !Low(hs, i + 1, 0);
            node := next;
            return;
          }
          height := height - 1;
        }
      }
    }

    /** The value of a key, if it is present. */
    method Get(key: Bytes) returns (found: bool, value: Bytes)
      requires Valid()
      ensures found <==> Lookup(es, key).Some?
      ensures value == if found then Lookup(es, key).value else []
    {
      hide Rank, Less, Space;
      var node, _ := FindGreaterOrEqual(key);
      if node != tail && node.key == key {
        return true, node.value;
      } else {
        return false, [];
      }
    }

    method Contains(key: Bytes) returns (found: bool)
      requires Valid()
      ensures found <==> key in AsMap(es)
    {
      hide Rank, Less, Space;
      var node, _ := FindGreaterOrEqual(key);
      LookupIsMembership(es, key);
      return node != tail && node.key == key;
    }

    /** Raises the two sentinels; the new levels lead from the first straight to the last. */
    method EnlargeHeight(height: nat)
      requires Valid() && hs[0] < height <= MAX_HEIGHT
      modifies head, tail, this`hs
      ensures Valid() && hs == old(hs)[0 := height][|old(hs)| - 1 := height]
      ensures head.nexts[..old(hs[0])] == old(head.nexts)
    {
      hide Rank, Less, Space, Succ;
      var oldHeight, oldNexts := |head.nexts|, head.nexts;
      tail.nexts := seq(height, _ => null);
      var last := tail;
      head.nexts := oldNexts + seq(height - oldHeight, _ => last);
      hs := hs[0 := height][|hs| - 1 := height];
      forall i, l {:trigger nodes[i].nexts[l]} | 0 <= i < |hs| - 1 && 0 <= l < hs[i]
        ensures nodes[i].nexts[l] == nodes[Succ(hs, i, l)]
      {
        SuccAfterRaise(old(hs), hs, i, l);
      }
    }

    /** Puts a new node in after the nodes that the search has found. */
    method LinkNew(key: Bytes, value: Bytes, height: nat, prevs: seq<Node?>)
      requires Valid() && !Has(es, key) && 1 <= height <= hs[0] && |prevs| == MAX_HEIGHT
      requires forall l :: 0 <= l < hs[0] ==> prevs[l] == nodes[Prev(hs, Rank(es, key) + 1, l)]
      modifies this, Towers()`nexts
      ensures Valid() && es == PutEntry(old(es), key, value)
      ensures fresh(Towers() - old(Towers()))
    {
      hide Rank, Less, Space, Succ, Prev, Sorted, Linked, Spliced, Distinct, Holds, Tall, Shaped, Has, PutEntry;
      SortedPut(es, key, value);
      SpacePut(es, key, value);
      PutAbsent(es, key, value);
      Sizes();
      ghost var (ns, r) := (nodes, Rank(es, key));
      var node := new Node(key, value, height);
      Splice(nodes, hs, r + 1, prevs, node);
      numEntries := numEntries + 1;
      numBytes := numBytes + |key| + |value|;
      nodes := nodes[..r + 1] + [node] + nodes[r + 1..];
      hs := hs[..r + 1] + [height] + hs[r + 1..];
      es := PutEntry(es, key, value);
      assert Towers() == old(Towers()) + {node} by { InsertedOne(ns, r + 1, node); }
      WellFormedAfterSplice(ns, old(hs), old(es), r, node);
    }

    /** Overwrites the value of a key that is present. */
    method Overwrite(node: Node, value: Bytes)
      requires Valid() && node in nodes[1..|nodes| - 1]
      requires Has(es, node.key) && node == nodes[Rank(es, node.key) + 1]
      modifies this`numBytes, this`es, node`value
      ensures Valid() && es == PutEntry(old(es), node.key, value)
    {
      hide Rank, Less, Space, Succ, Prev, Sorted, Linked;
      SortedPut(es, node.key, value);
      SpacePut(es, node.key, value);
      numBytes := numBytes - |node.value| + |value|;
      node.value := value;
      es := PutEntry(es, node.key, value);
    }

    /** Makes room for a tower of the given height: above the old top, the search starts at the head. */
    method ReachHeight(height: nat, prevs: seq<Node?>, ghost pos: nat) returns (tops: seq<Node?>)
      requires Valid() && 1 <= height <= MAX_HEIGHT && |prevs| == MAX_HEIGHT && 0 < pos < |nodes|
      requires forall l :: 0 <= l < hs[0] ==> prevs[l] == nodes[Prev(hs, pos, l)]
      modifies head, tail, this`hs
      ensures Valid() && hs[0] >= height && |tops| == MAX_HEIGHT
      ensures forall l :: 0 <= l < hs[0] ==> tops[l] == nodes[Prev(hs, pos, l)]
    {
      hide Rank, Less, Space, Succ, Prev, Sorted, Linked;
      tops := prevs;
      if height > |head.nexts| {
        for i := |head.nexts| to height
          invariant |tops| == MAX_HEIGHT
          invariant forall l :: 0 <= l < hs[0] ==> tops[l] == prevs[l]
          invariant forall l :: hs[0] <= l < i ==> tops[l] == head
        {
          tops := tops[i := head];
        }
        ghost var hs0 := hs;
        EnlargeHeight(height);
        forall l | 0 <= l < hs[0]
          ensures tops[l] == nodes[Prev(hs, pos, l)]
        {
          PrevAfterRaise(hs0, hs, pos, l);
        }
      }
    }

    /** Writes the value of a key, adding a node of random height when the key is new. */
    method Put(key: Bytes, value: Bytes)
      requires Valid()
      modifies Repr()
      ensures Valid() && es == PutEntry(old(es), key, value)
      ensures fresh(Repr() - old(Repr()))
    {
      hide Rank, Less, Space, Succ, Prev, Sorted, Linked, PutEntry, Shaped, Distinct;
      var x, prevs := FindGreaterOrEqual(key);
      Sizes();
      if x != tail && x.key == key {
        assert x in nodes;
        Overwrite(x, value);
      } else {
        assert Has(es, key) ==> x != tail by {
          if Has(es, key) { Differ(nodes, Rank(es, key) + 1, |nodes| - 1); }
        }
        var height := RandomHeight();
        assert head in nodes && tail in nodes;
        prevs := ReachHeight(height, prevs, Rank(es, key) + 1);
        LinkNew(key, value, height, prevs);
      }
    }

    lemma EntryAt(i: nat)
      requires Valid() && i < |es|
      ensures nodes[i + 1].key == es[i].key && nodes[i + 1].value == es[i].value
      ensures nodes[i + 1] != tail && nodes[i + 1] != head
    {
      Differ(nodes, i + 1, |nodes| - 1);
      Differ(nodes, i + 1, 0);
    }

    /** Removes a node that the search has found. */
    method Unlink(node: Node, prevs: seq<Node?>)
      requires Valid() && Has(es, node.key) && node == nodes[Rank(es, node.key) + 1] && |prevs| == MAX_HEIGHT
      requires forall l :: 0 <= l < hs[0] ==> prevs[l] == nodes[Prev(hs, Rank(es, node.key) + 1, l)]
      modifies this, Towers()`nexts
      ensures Valid() && es == DelEntry(old(es), node.key)
      ensures head == old(head) && tail == old(tail)
      ensures Towers() <= old(Towers())
    {
      hide Rank, Less, Space, Succ, Prev, Sorted, Linked, Bypassed, Distinct, Holds, Inserted, WithNode, Tall, Shaped;
      SortedDel(es, node.key);
      SpaceDel(es, node.key);
      Sizes();
      ghost var r := Rank(es, node.key);
      assert node.value == es[r].value by { EntryAt(r); }
      Bypass(nodes, hs, r + 1, prevs, node);
      numEntries := numEntries - 1;
      numBytes := numBytes - |node.key| - |node.value|;
      ghost var nodes' := nodes[..r + 1] + nodes[r + 2..];
      ghost var hs' := hs[..r + 1] + hs[r + 2..];
      WellFormedAfterBypass(nodes, hs, es, r);
      nodes, hs, es := nodes', hs', DelEntry(es, node.key);
    }

    /** Removes a key; tells whether it was present. */
    method Del(key: Bytes) returns (found: bool)
      requires Valid()
      modifies Repr()
      ensures Valid() && es == DelEntry(old(es), key) && found == Has(old(es), key)
      ensures Repr() <= old(Repr())
    {
      hide Rank, Less, Space, Succ, Prev, Sorted, Linked, Shaped, Distinct, Holds;
      var node, prevs := FindGreaterOrEqual(key);
      Sizes();
      ghost var r := Rank(es, key);
      if r < |es| { EntryAt(r); }
      if node == tail || node.key != key {
        return false;
      }
      Unlink(node, prevs);
      return true;
    }

    /** Starts over with two fresh sentinels. */
    method Init()
      modifies this
      ensures Valid() && es == [] && fresh(Repr() - {this})
    {
      hide Sorted, Distinct, Holds, Shaped, Tall, Linked;
      var first := new Node([], [], 1);
      var last := new Node([], [], 1);
      first.nexts := [last];
      assert last.nexts == [null];
      head, tail, numEntries, numBytes := first, last, 0, 0;
      nodes, hs, es := [first, last], [1, 1], [];
      LinkedAtStart(first, last);
      assert Sorted([]) by { NothingUnsorted(); }
    }

    /** Frees every node, walking level 0, and starts over with two fresh sentinels. */
    method Clear() returns (ghost freed: seq<Node>)
      requires Valid()
      modifies this
      ensures Valid() && es == [] && fresh(Repr() - {this})
      ensures freed == old(nodes)
    {
      hide Rank, Less, Space, Sorted, Holds;
      freed := [];
      var node: Node? := head;
      while node != null
        invariant nodes == old(nodes)
        invariant Valid() && |freed| <= |nodes| && freed == nodes[..|freed|]
        invariant node == if |freed| < |nodes| then nodes[|freed|] else null
        decreases |nodes| - |freed|
      {
        ghost var i := |freed|;
        var next := node.nexts[0];
        if i < |nodes| - 1 {
          assert !Low(hs, i + 1, 0);
          SuccIsUnique(hs, i, 0, i + 1);
        }
        freed := freed + [node];
        node := next;
      }
      assert freed == nodes;
      Init();
    }

    /** The last node below the key, or the head. */
    method FindLessThan(key: Bytes) returns (node: Node)
      requires Valid()
      ensures node == nodes[Rank(es, key)]
    {
      hide Rank, Less, Succ, Space;
      var level := |head.nexts| - 1;
      node := head;
      ghost var i: nat, r: nat := 0, Rank(es, key);
      while true
        invariant 0 <= level < hs[0] && i <= r && node == nodes[i] && hs[i] > level
        decreases level + |nodes| - i
      {
        var next := node.nexts[level];
        ghost var j := Succ(hs, i, level);
        assert next == nodes[j];
        if next != tail && Less(next.key, key) {
          assert next.key == es[j - 1].key;
          node, i := next, j;
        } else if level == 0 {
          assert !Low(hs, i + 1, 0);
          assert j < |nodes| - 1 ==> next.key == es[j - 1].key;
          return;
        } else {
          level := level - 1;
        }
      }
    }

    /** The last node, or the head when the list is empty. */
    method FindLast() returns (node: Node)
      requires Valid()
      ensures node == nodes[|es|]
    {
      hide Succ, Space, Sorted;
      var level := |head.nexts| - 1;
      node := head;
      ghost var i: nat := 0;
      while true
        invariant 0 <= level < hs[0] && i <= |es| && node == nodes[i] && hs[i] > level
        decreases level + |nodes| - i
      {
        var next := node.nexts[level];
        ghost var j := Succ(hs, i, level);
        assert next == nodes[j];
        if next != tail {
          node, i := next, j;
        } else if level == 0 {
          assert !Low(hs, i + 1, 0);
          return;
        } else {
          level := level - 1;
        }
      }
    }
  }

  /** A cursor: `node` is null when it stands on no entry, and then `pos` is just before or just after
      the entries. */
  class Iterator {
    const list: SkipList
    var node: Node?
    ghost var pos: int

    ghost predicate Stands(p: int)
      reads this, list
      requires |list.nodes| == |list.es| + 2
    {
      && -1 <= p <= |list.es| && pos == p
      && node == if 0 <= p < |list.es| then list.nodes[p + 1] else null
    }

    ghost predicate Synced()
      reads this, list, list.nodes
    {
      list.Valid() && Stands(pos)
    }

    constructor (list: SkipList)
      requires list.Valid()
      ensures this.list == list && Synced() && pos == -1
    {
      this.list, node, pos := list, null, -1;
    }

    predicate Valid()
      reads this
    {
      node != null
    }

    lemma OnEntry()
      requires Synced()
      ensures -1 <= pos <= |list.es| && (Valid() <==> 0 <= pos < |list.es|)
      ensures list.Valid() && Sorted(list.es)
    {
    }

    method SeekToFirst()
      requires list.Valid()
      modifies this
      ensures Synced() && pos == 0
    {
      assert |list.nodes| == |list.hs| && list.hs[0] >= 1;
      assert !Low(list.hs, 1, 0);
      SuccIsUnique(list.hs, 0, 0, 1);
      node, pos := list.head.nexts[0], 0;
      if node == list.tail {
        node := null;
      }
    }

    method SeekToLast()
      requires list.Valid()
      modifies this
      ensures Synced() && pos == |list.es| - 1
    {
      node := list.FindLast();
      pos := |list.es| - 1;
      if node == list.head {
        node := null;
      }
    }

    /** Stands on the least key that is at least the argument. */
    method Seek(key: Bytes)
      requires list.Valid()
      modifies this
      ensures Synced() && pos == Rank(list.es, key)
    {
      hide Rank, Less, Space;
      var found, _ := list.FindGreaterOrEqual(key);
      node := found;
      pos := Rank(list.es, key);
      if node == list.tail {
        node := null;
      }
    }

    method Next()
      requires Synced() && Valid()
      modifies this
      ensures Synced() && pos == old(pos) + 1
    {
      assert !Low(list.hs, pos + 2, 0);
      SuccIsUnique(list.hs, pos + 1, 0, pos + 2);
      node, pos := node.nexts[0], pos + 1;
      if node == list.tail {
        node := null;
      }
    }

    method Prev()
      requires Synced() && Valid()
      modifies this
      ensures Synced() && pos == old(pos) - 1
    {
      hide Rank, Less, Space;
      FoundAt(list.es, pos);
      node := list.FindLessThan(node.key);
      pos := pos - 1;
      if node == list.head {
        node := null;
      }
    }

    method Key() returns (key: Bytes)
      requires Synced() && Valid()
      ensures key == list.es[pos].key
    {
      return node.key;
    }

    method Value() returns (value: Bytes)
      requires Synced() && Valid()
      ensures value == list.es[pos].value
    {
      return node.value;
    }
  }

  datatype Call = PutCall(key: Bytes, value: Bytes) | DelCall(key: Bytes) | ClearCall

  function EntriesAfter(calls: seq<Call>): seq<Entry> {
    if |calls| == 0 then [] else
      var before := EntriesAfter(calls[..|calls| - 1]);
      match calls[|calls| - 1]
      case PutCall(k, v) => PutEntry(before, k, v)
      case DelCall(k) => DelEntry(before, k)
      case ClearCall => []
  }

  /** The map that the calls build. */
  function MapAfter(calls: seq<Call>): map<Bytes, Bytes> {
    if |calls| == 0 then map[] else
      var before := MapAfter(calls[..|calls| - 1]);
      match calls[|calls| - 1]
      case PutCall(k, v) => before[k := v]
      case DelCall(k) => before - {k}
      case ClearCall => map[]
  }

  lemma {:induction false} CallsBuildMap(calls: seq<Call>)
    ensures Sorted(EntriesAfter(calls)) && AsMap(EntriesAfter(calls)) == MapAfter(calls)
    ensures |EntriesAfter(calls)| == |MapAfter(calls)|
  {
    hide PutEntry, DelEntry;
    if |calls| > 0 {
      CallsBuildMap(calls[..|calls| - 1]);
      var before := EntriesAfter(calls[..|calls| - 1]);
      match calls[|calls| - 1]
      case PutCall(k, v) => SortedPut(before, k, v); AsMapPut(before, k, v);
      case DelCall(k) => SortedDel(before, k); AsMapDel(before, k);
      case ClearCall =>
    }
    AsMapSize(EntriesAfter(calls));
  }

  /** Any run of calls on a new list, with any tower heights, leaves the map that the calls build. */
  method RunCalls(calls: seq<Call>) returns (list: SkipList)
    ensures list.Valid() && list.es == EntriesAfter(calls) && AsMap(list.es) == MapAfter(calls)
    ensures list.numEntries == |MapAfter(calls)| && list.numBytes == Space(EntriesAfter(calls))
  {
    hide PutEntry, DelEntry, Space, Sorted, AsMap, MapAfter, Holds, Distinct, Shaped, Tall, Linked;
    list := new SkipList();
    for i := 0 to |calls|
      invariant fresh(list.Repr()) && list.Valid()
      invariant list.es == EntriesAfter(calls[..i])
    {
      assert calls[..i + 1][..i] == calls[..i];
      match calls[i] {
        case PutCall(k, v) => list.Put(k, v);
        case DelCall(k) => var _ := list.Del(k);
        case ClearCall => var _ := list.Clear();
      }
    }
    assert calls[..|calls|] == calls;
    CallsBuildMap(calls);
  }
}
