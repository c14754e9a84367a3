/** The doubly linked list behind the cache: heap nodes relinked in place, with the sequence of
    nodes as ghost state. */
module RecencyList {
  import opened Common
  import opened AuthCache

  class Node {
    var entry: Entry
    var prev: Node?
    var next: Node?

    constructor (entry: Entry)
      ensures this.entry == entry && prev == null && next == null
    {
      this.entry := entry;
      prev, next := null, null;
    }
  }

  class List {
    var front: Node?
    var back: Node?
    var len: nat
    ghost var nodes: seq<Node>

    ghost predicate Valid()
      reads this, nodes
    {
      && len == |nodes|
      && Distinct(nodes)
      && front == (if nodes == [] then null else nodes[0])
      && back == (if nodes == [] then null else nodes[|nodes| - 1])
      && (nodes != [] ==> nodes[0].prev == null && nodes[|nodes| - 1].next == null)
      && (forall i, j :: 0 <= i < j < |nodes| && j == i + 1 ==> nodes[i].next == nodes[j] && nodes[j].prev == nodes[i])
    }

    /** The list as a value. */
    ghost function Contents(): (es: seq<Entry>)
      reads this, nodes
      ensures |es| == |nodes|
    {
      seq(|nodes|, i requires 0 <= i < |nodes| reads this, nodes => nodes[i].entry)
    }

    constructor ()
      ensures Valid() && nodes == [] && fresh(this)
    {
      front, back, len := null, null, 0;
      nodes := [];
    }

    method PushFront(node: Node)
      requires Valid() && node !in nodes
      modifies this, node`prev, node`next, (set n | n in nodes)`prev
      ensures Valid() && nodes == [node] + old(nodes)
      ensures Contents() == [node.entry] + old(Contents())
      ensures forall n :: n in nodes <==> n == node || n in old(nodes)
    {
      ghost var was := nodes;
      node.prev := null;
      node.next := front;
      if front != null {
        front.prev := node;
      } else {
        back := node;
      }
      front := node;
      len := len + 1;
      nodes := [node] + nodes;
      forall j, k | 0 <= j < k < |nodes| && k == j + 1 ensures nodes[j].next == nodes[k] && nodes[k].prev == nodes[j] {
        if j > 0 {
          assert nodes[j] == was[j - 1] && nodes[k] == was[j];
        }
      }
    }

    /** Take one node out; i is its position. */
    method Unlink(node: Node, ghost i: nat)
      requires Valid() && i < |nodes| && nodes[i] == node
      modifies this, (set n | n in nodes)`prev, (set n | n in nodes)`next
      ensures Valid() && nodes == old(nodes)[..i] + old(nodes)[i + 1..]
      ensures Contents() == old(Contents())[..i] + old(Contents())[i + 1..]
      ensures forall n :: n in nodes <==> n in old(nodes) && n != node
    {
      ghost var was := nodes;
      var p, q := node.prev, node.next;
      assert i > 0 ==> p == was[i - 1];
      assert i + 1 < |was| ==> q == was[i + 1];
      if p != null {
        p.next := q;
      } else {
        front := q;
      }
      if q != null {
        q.prev := p;
      } else {
        back := p;
      }
      len := len - 1;
      nodes := nodes[..i] + nodes[i + 1..];
      forall j, k | 0 <= j < k < |nodes| && k == j + 1 ensures nodes[j].next == nodes[k] && nodes[k].prev == nodes[j] {
        if k < i {
          assert nodes[j] == was[j] && nodes[k] == was[k];
        } else if j >= i {
          assert nodes[j] == was[j + 1] && nodes[k] == was[k + 1];
        } else {
          assert nodes[j] == was[i - 1] && nodes[k] == was[i + 1];
        }
      }
    }

    method MoveToFront(node: Node, ghost i: nat)
      requires Valid() && i < |nodes| && nodes[i] == node
      modifies this, (set n | n in nodes)`prev, (set n | n in nodes)`next
      ensures Valid() && Contents() == [node.entry] + (old(Contents())[..i] + old(Contents())[i + 1..])
      ensures forall n :: n in nodes <==> n in old(nodes)
      ensures |nodes| == |old(nodes)|
    {
      Unlink(node, i);
      PushFront(node);
    }
  }
}
