/** queue_t of src/lib/wepoll.c: an intrusive circular doubly linked list around a head node.
    A queue stands for the sequence `nodes`; the pointers form one ring through the head. */
module IntrusiveQueue {

  class QueueNode {
    var prev: QueueNode
    var next: QueueNode

    /** queue_node_init on a new node */
    constructor ()
      ensures Ring([this])
    {
      prev, next := this, this;
    }
  }

  ghost predicate Distinct<T>(r: seq<T>) {
    forall i, j :: 0 <= i < j < |r| ==> r[i] != r[j]
  }

  /** The nodes of `r`, all different, point to each other in a circle. */
  ghost predicate Ring(r: seq<QueueNode>)
    reads r
  {
    && |r| > 0 && Distinct(r)
    && (forall i :: 0 <= i < |r| - 1 ==> r[i].next == r[i + 1])
    && (forall i :: 0 < i < |r| ==> r[i].prev == r[i - 1])
    && r[|r| - 1].next == r[0] && r[0].prev == r[|r| - 1]
  }

  /** queue_is_enqueued */
  predicate IsEnqueued(node: QueueNode)
    reads node
  {
    node.prev != node
  }

  /** A node is enqueued exactly if it shares its ring with another node. */
  lemma {:induction false} EnqueuedIffShared(r: seq<QueueNode>, i: nat)
    requires Ring(r) && i < |r|
    ensures IsEnqueued(r[i]) <==> |r| > 1
  {
    assert r[i].prev == if i == 0 then r[|r| - 1] else r[i - 1];
  }

  /** Rings that share one node share all of them, so no node is in two queues. */
  lemma {:induction false} RingsDisjoint(r: seq<QueueNode>, s: seq<QueueNode>)
    requires Ring(r) && Ring(s)
    ensures (forall n :: n in r ==> n !in s) || (forall n :: n in r <==> n in s)
  {
    if i, j :| 0 <= i < |r| && 0 <= j < |s| && r[i] == s[j] {
      RingCovers(r, i, s, j);
      RingCovers(s, j, r, i);
    }
  }

  lemma {:induction false} RingCovers(r: seq<QueueNode>, i: nat, s: seq<QueueNode>, j: nat)
    requires Ring(r) && Ring(s) && i < |r| && j < |s| && r[i] == s[j]
    ensures forall n :: n in r ==> n in s
  {
    // following `next` from r[i] to the end of r and back to r[0] never leaves s
    var k: nat, l: nat := i, j;
    while k < |r| - 1
      invariant i <= k < |r| && l < |s| && r[k] == s[l]
      invariant forall m :: i <= m <= k ==> r[m] in s
    {
      k, l := k + 1, if l + 1 == |s| then 0 else l + 1;
    }
    k, l := 0, if l + 1 == |s| then 0 else l + 1;
    while k < i
      invariant k <= i && l < |s| && r[k] == s[l]
      invariant forall m :: 0 <= m <= k || i <= m < |r| ==> r[m] in s
    {
      k, l := k + 1, if l + 1 == |s| then 0 else l + 1;
    }
  }

  lemma {:induction false} RemovedIsGone(head: QueueNode, nodes: seq<QueueNode>, k: nat)
    requires Distinct([head] + nodes) && k < |nodes|
    ensures nodes[k] != head && nodes[k] !in nodes[..k] + nodes[k + 1..]
  {
    var r := [head] + nodes;
    assert forall i :: 0 <= i < |nodes| ==> nodes[i] == r[i + 1];
    assert r[0] == head;
    var s := nodes[..k] + nodes[k + 1..];
    assert forall i :: 0 <= i < |s| ==> s[i] == r[if i < k then i + 1 else i + 2];
  }

  class Queue {
    const head: QueueNode
    ghost var nodes: seq<QueueNode>

    ghost predicate Valid()
      reads this, head, nodes
    {
      Ring([head] + nodes)
    }

    /** queue_init */
    constructor ()
      ensures Valid() && nodes == [] && fresh(head)
    {
      head := new QueueNode();
      nodes := [];
      new;
      assert [head] + nodes == [head];
    }

    /** queue_is_empty */
    predicate IsEmpty()
      reads this, head, nodes
      requires Valid()
      ensures IsEmpty() <==> nodes == []
    {
      assert nodes != [] ==> ([head] + nodes)[|nodes|] == nodes[|nodes| - 1];
      !IsEnqueued(head)
    }

    /** queue_first */
    method First() returns (node: QueueNode?)
      requires Valid()
      ensures node == if nodes == [] then null else nodes[0]
    {
      assert nodes != [] ==> ([head] + nodes)[1] == nodes[0];
      node := if !IsEmpty() then head.next else null;
    }

    /** queue_last */
    method Last() returns (node: QueueNode?)
      requires Valid()
      ensures node == if nodes == [] then null else nodes[|nodes| - 1]
    {
      assert nodes != [] ==> ([head] + nodes)[|nodes|] == nodes[|nodes| - 1];
      node := if !IsEmpty() then head.prev else null;
    }

    /** queue_prepend */
    method Prepend(node: QueueNode)
      requires Valid() && node != head && node !in nodes
      modifies `nodes, head, head.next, node
      ensures Valid() && nodes == [node] + old(nodes)
    {
      ghost var r := [head] + nodes;
      assert head.next == if nodes == [] then r[0] else r[1];
      node.next := head.next;
      node.prev := head;
      node.next.prev := node;
      head.next := node;
      nodes := [node] + nodes;

      ghost var s := [head] + nodes;
      assert s[0] == head && s[1] == node;
      assert forall i :: 2 <= i < |s| ==> s[i] == r[i - 1];
    }

    /** queue_append */
    method Append(node: QueueNode)
      requires Valid() && node != head && node !in nodes
      modifies `nodes, head, head.prev, node
      ensures Valid() && nodes == old(nodes) + [node]
    {
      ghost var r := [head] + nodes;
      node.next := head;
      node.prev := head.prev;
      node.prev.next := node;
      head.prev := node;
      nodes := nodes + [node];

      ghost var s := [head] + nodes;
      assert s[|r|] == node;
      assert forall i :: 0 <= i < |r| ==> s[i] == r[i];
    }

    /** queue__detach_node: the neighbours of the node now point past it; its own fields stay. */
    method Detach(node: QueueNode, ghost k: nat)
      requires Valid() && k < |nodes| && nodes[k] == node
      modifies `nodes, node.prev, node.next
      ensures Valid() && nodes == old(nodes[..k] + nodes[k + 1..])
      ensures node != head && node !in nodes
      ensures head.next == (if k == 0 then old(node.next) else old(head.next))
      ensures head.prev == (if k == old(|nodes|) - 1 then old(node.prev) else old(head.prev))
    {
      ghost var r := [head] + nodes;
      RemovedIsGone(head, nodes, k);
      assert r[k + 1] == node && r[k] == node.prev && node.next == if k + 2 < |r| then r[k + 2] else head;
      node.prev.next := node.next;
      node.next.prev := node.prev;
      nodes := nodes[..k] + nodes[k + 1..];

      ghost var s := [head] + nodes;
      assert forall i :: 0 <= i <= k ==> s[i] == r[i];
      assert forall i :: k < i < |s| ==> s[i] == r[i + 1];
    }

    /** queue_remove */
    method Remove(node: QueueNode, ghost k: nat)
      requires Valid() && k < |nodes| && nodes[k] == node
      modifies `nodes, node, node.prev, node.next
      ensures Valid() && nodes == old(nodes[..k] + nodes[k + 1..])
      ensures Ring([node]) && node !in nodes
    {
      Detach(node, k);
      assert node !in [head] + nodes;
      node.prev := node;
      node.next := node;
    }

    /** queue_move_to_start */
    method MoveToStart(node: QueueNode, ghost k: nat)
      requires Valid() && k < |nodes| && nodes[k] == node
      modifies `nodes, node, node.prev, node.next, head, head.next
      ensures Valid() && nodes == [node] + old(nodes[..k] + nodes[k + 1..])
    {
      Detach(node, k);
      Prepend(node);
    }

    /** queue_move_to_end */
    method MoveToEnd(node: QueueNode, ghost k: nat)
      requires Valid() && k < |nodes| && nodes[k] == node
      modifies `nodes, node, node.prev, node.next, head, head.prev
      ensures Valid() && nodes == old(nodes[..k] + nodes[k + 1..]) + [node]
    {
      Detach(node, k);
      Append(node);
    }
  }
}
