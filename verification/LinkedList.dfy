/** The generated doubly linked list behind the slab registry and the records. */
module LinkedList {
  import Lists

  class Node {
    var next: Node?
    var prev: Node?
  }

  function Only(node: Node?): set<Node> {
    if node == null then {} else {node}
  }

  function At(nodes: seq<Node>, i: int): Node? {
    if 0 <= i < |nodes| then nodes[i] else null
  }

  /** Node `i` points to the ones beside it. */
  ghost predicate Link(nodes: seq<Node>, i: nat)
    requires i < |nodes|
    reads nodes
  {
    nodes[i].next == At(nodes, i + 1) && nodes[i].prev == At(nodes, i - 1)
  }

  ghost predicate Chained(nodes: seq<Node>)
    reads nodes
  {
    forall i :: 0 <= i < |nodes| ==> Link(nodes, i)
  }

  /** The nodes without the one at `k`. */
  function Without(nodes: seq<Node>, k: nat): (r: seq<Node>)
    requires k < |nodes|
    ensures |r| == |nodes| - 1
    ensures forall i :: 0 <= i < k ==> r[i] == nodes[i]
    ensures forall i :: k <= i < |r| ==> r[i] == nodes[i + 1]
  {
    nodes[..k] + nodes[k + 1..]
  }

  class List {
    var head: Node?
    var tail: Node?
    ghost var nodes: seq<Node>

    ghost predicate Valid()
      reads this, nodes
    {
      && Lists.Distinct(nodes) && Chained(nodes)
      && head == At(nodes, 0) && tail == At(nodes, |nodes| - 1)
    }

    constructor ()
      ensures Valid() && nodes == []
    {
      head, tail, nodes := null, null, [];
    }

    /** The node goes in front; the others keep their order. A null node is ignored. */
    method PushFront(node: Node?)
      requires Valid() && node !in nodes
      modifies this, Only(node), nodes
      ensures Valid() && nodes == (if node == null then [] else [node]) + old(nodes)
    {
      if node == null {
        return;
      }
      ghost var was := nodes;
      assert forall i :: 0 <= i < |was| ==> Link(was, i);
      node.next := head;
      node.prev := null;
      if head != null {
        head.prev := node;
      } else {
        tail := node;
      }
      head := node;
      nodes := [node] + nodes;
      forall i | 0 <= i < |nodes| ensures Link(nodes, i) {
        assert i > 0 ==> nodes[i] == was[i - 1] && old(Link(was, i - 1));
      }
    }

    /** The links around the node are closed, and it forgets its neighbours. */
    method Unlink(node: Node, ghost k: nat)
      requires Valid() && k < |nodes| && nodes[k] == node
      modifies this`head, this`tail, nodes
      ensures nodes == old(nodes) && node.next == null && node.prev == null
      ensures head == (if k == 0 then At(nodes, 1) else old(head))
      ensures tail == (if k == |nodes| - 1 then At(nodes, k - 1) else old(tail))
      ensures forall i :: 0 <= i < |nodes| && i != k ==>
        && nodes[i].next == (if i == k - 1 then At(nodes, k + 1) else old(nodes[i].next))
        && nodes[i].prev == (if i == k + 1 then At(nodes, k - 1) else old(nodes[i].prev))
    {
      assert Link(nodes, k);
      if node.prev != null {
        node.prev.next := node.next;
      } else {
        head := node.next;
      }
      if node.next != null {
        node.next.prev := node.prev;
      } else {
        tail := node.prev;
      }
      node.next := null;
      node.prev := null;
    }

    /** The node leaves, wherever it stands. A null node is ignored. */
    method Remove(node: Node?, ghost k: nat)
      requires Valid() && (node != null ==> k < |nodes| && nodes[k] == node)
      modifies this, nodes
      ensures Valid() && (node == null ==> nodes == old(nodes))
      ensures node != null ==> nodes == Without(old(nodes), k) && node !in nodes && node.next == null && node.prev == null
    {
      if node == null {
        return;
      }
      ghost var was := nodes;
      ghost var rest := Without(was, k);
      Unlink(node, k);
      forall i | 0 <= i < |rest| ensures Link(rest, i) {
        ghost var j := if i < k then i else i + 1;
        assert rest[i] == was[j] && old(Link(was, j));
        WithoutAt(was, k, i + 1);
        WithoutAt(was, k, i - 1);
      }
      WithoutAt(was, k, 0);
      WithoutAt(was, k, |rest| - 1);
      nodes := rest;
    }

    /** The front node, or null for an empty list. */
    method PopFront() returns (node: Node?)
      requires Valid()
      modifies this, nodes
      ensures Valid() && node == At(old(nodes), 0)
      ensures nodes == if old(nodes) == [] then [] else old(nodes)[1..]
      ensures node != null ==> node !in nodes && node.next == null && node.prev == null
    {
      node := head;
      if node != null {
        Remove(node, 0);
      }
    }
  }

  /** What a removal does to positions. */
  lemma WithoutAt(nodes: seq<Node>, k: nat, i: int)
    requires k < |nodes|
    ensures At(Without(nodes, k), i) == if i < k then At(nodes, i) else At(nodes, i + 1)
  {
  }
}
