/** The intrusive doubly linked list: the links of the nodes always spell out one
    sequence, and each operation does to it what its name says. */
module Lists {

  // A node lies in the structure that the list is about: `owner` stands for what
  // the source computes from the node's address.
  class Node {
    var prev: Node?
    var next: Node?
    const owner: nat

    constructor (owner: nat)
      ensures prev == null && next == null && this.owner == owner
    {
      prev, next := null, null;
      this.owner := owner;
    }
  }

  class List {
    var first: Node?
    var last: Node?
    var count: int
    ghost var nodes: seq<Node>

    ghost predicate Valid()
      reads this, nodes
    {
      && count == |nodes|
      && (forall i, j {:trigger nodes[i], nodes[j]} :: 0 <= i < j < |nodes| ==> nodes[i] != nodes[j])
      && first == (if nodes == [] then null else nodes[0])
      && last == (if nodes == [] then null else nodes[|nodes| - 1])
      && (forall i {:trigger nodes[i].prev} :: 0 <= i < |nodes| ==>
            nodes[i].prev == if i == 0 then null else nodes[i - 1])
      && (forall i {:trigger nodes[i].next} :: 0 <= i < |nodes| ==>
            nodes[i].next == if i == |nodes| - 1 then null else nodes[i + 1])
    }

    constructor ()
      ensures Valid() && nodes == []
    {
      first, last, count, nodes := null, null, 0, [];
    }

    method InsertFirst(node: Node)
      requires Valid() && node !in nodes
      modifies this, nodes, node
      ensures Valid() && nodes == [node] + old(nodes)
    {
      node.next := first;
      node.prev := null;
      if count == 0 {
        first, last := node, node;
      } else {
        first.prev := node;
        first := node;
      }
      count := count + 1;
      nodes := [node] + nodes;
    }

    method InsertLast(node: Node)
      requires Valid() && node !in nodes
      modifies this, nodes, node
      ensures Valid() && nodes == old(nodes) + [node]
    {
      node.next := null;
      node.prev := last;
      if count == 0 {
        first, last := node, node;
      } else {
        last.next := node;
        last := node;
      }
      count := count + 1;
      nodes := nodes + [node];
    }

    method RemoveFirst() returns (r: Node?)
      requires Valid()
      modifies this, nodes
      ensures Valid()
      ensures old(nodes) == [] ==> r == null && nodes == []
      ensures old(nodes) != [] ==> r == old(nodes)[0] && nodes == old(nodes)[1..] && r.prev == null && r.next == null
    {
      if count == 0 {
        return null;
      }
      var node := first;
      first := node.next;
      if first == null {
        last := null;
      } else {
        first.prev := null;
      }
      node.prev, node.next := null, null;
      count := count - 1;
      nodes := nodes[1..];
      return node;
    }

    // The node must be on the list, unless that is empty.
    method Remove(node: Node) returns (r: Node?)
      requires Valid() && (nodes != [] ==> node in nodes)
      modifies this, nodes
      ensures Valid()
      ensures old(nodes) == [] ==> r == null && nodes == []
      ensures old(nodes) != [] ==> r == node && node.prev == null && node.next == null
      ensures forall k :: 0 <= k < |old(nodes)| && old(nodes)[k] == node ==>
        nodes == old(nodes)[..k] + old(nodes)[k + 1..]
    {
      if count == 0 {
        return null;
      }
      ghost var k :| 0 <= k < |nodes| && nodes[k] == node;
      ghost var all, rest := nodes, nodes[..k] + nodes[k + 1..];
      assert forall i {:trigger rest[i]} :: 0 <= i < k ==> rest[i] == all[i];
      assert forall i {:trigger rest[i]} :: k <= i < |rest| ==> rest[i] == all[i + 1];
      assert node.prev == (if k == 0 then null else all[k - 1])
        && node.next == if k == |rest| then null else all[k + 1];
      if node == first {
        first := node.next;
      }
      if node == last {
        last := node.prev;
      }
      if node.prev != null {
        node.prev.next := node.next;
      }
      if node.next != null {
        node.next.prev := node.prev;
      }
      node.prev, node.next := null, null;
      count := count - 1;
      nodes := rest;
      return node;
    }
  }

  // The links fix the sequence: following next from the first node visits it.
  ghost function Walk(from: Node?, n: nat, all: set<Node>): (r: seq<Node>)
    requires from != null ==> from in all
    reads all
  {
    if from == null || n == 0 then []
    else [from] + if from.next != null && from.next in all then Walk(from.next, n - 1, all) else []
  }

  lemma {:induction false} WalkVisits(l: List, k: nat)
    requires l.Valid() && k <= |l.nodes|
    ensures Walk(if k == |l.nodes| then null else l.nodes[k], |l.nodes| - k, set x | x in l.nodes) == l.nodes[k..]
    decreases |l.nodes| - k
  {
    if k < |l.nodes| {
      WalkVisits(l, k + 1);
    }
  }
}
