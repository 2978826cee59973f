/** Circular doubly-linked lists, as all lists of the memory pool are kept. */
module PoolRing {

  /** A link of a circular list; an unattached link points to itself. */
  class Link {
    var next: Link
    var prev: Link

    constructor ()
      ensures next == this && prev == this
    {
      next, prev := this, this;
    }
  }

  ghost predicate Distinct(ring: seq<Link>) {
    forall i, j :: 0 <= i < j < |ring| ==> ring[i] != ring[j]
  }

  /** The links of the sequence form a closed ring, in this order. */
  ghost predicate Ring(ring: seq<Link>)
    reads ring
  {
    && Distinct(ring)
    && (forall i {:trigger ring[i].next} :: 0 <= i < |ring| ==>
      ring[i].next == if i + 1 < |ring| then ring[i + 1] else ring[0])
    && (forall i {:trigger ring[i].prev} :: 0 <= i < |ring| ==>
      ring[i].prev == if i > 0 then ring[i - 1] else ring[|ring| - 1])
  }

  /** A link by itself is a ring. */
  ghost predicate Single(node: Link)
    reads node
  {
    node.next == node && node.prev == node
  }

  /** Insert a single link after the first one. */
  method InsertAfter(list: Link, node: Link, ghost ring: seq<Link>)
    requires Ring(ring) && ring != [] && ring[0] == list && Single(node) && node !in ring
    modifies ring, node
    ensures Ring([list, node] + ring[1..])
  {
    ghost var joined := [list, node] + ring[1..];
    assert forall i :: 2 <= i < |joined| ==> joined[i] == ring[i - 1];
    node.next := list.next;
    node.prev := list;
    list.next := node;
    node.next.prev := node;
  }

  /** Insert a single link before the first one: it becomes the last. */
  method InsertBefore(list: Link, node: Link, ghost ring: seq<Link>)
    requires Ring(ring) && ring != [] && ring[0] == list && Single(node) && node !in ring
    modifies ring, node
    ensures Ring(ring + [node])
  {
    ghost var joined := ring + [node];
    assert forall i :: 0 <= i < |ring| ==> joined[i] == ring[i];
    node.prev := list.prev;
    node.next := list;
    list.prev := node;
    node.prev.next := node;
  }

  /** Take a link out of its ring, whatever its place. */
  method ExtractNode(node: Link, ghost ring: seq<Link>, ghost k: nat)
    requires Ring(ring) && k < |ring| && ring[k] == node
    modifies ring
    ensures Ring(ring[..k] + ring[k + 1..]) && Single(node)
  {
    node.prev.next := node.next;
    node.next.prev := node.prev;
    node.next := node;
    node.prev := node;
  }

  /** Join two rings: the second is opened before its first link and put at the end of the first. */
  method MergeList(dest: Link, src: Link, ghost a: seq<Link>, ghost b: seq<Link>)
    requires Ring(a) && Ring(b) && a != [] && b != [] && a[0] == dest && b[0] == src && Distinct(a + b)
    modifies a, b
    ensures Ring(a + b)
  {
    ghost var joined := a + b;
    assert forall i :: 0 <= i < |a| ==> joined[i] == a[i];
    assert forall i :: 0 <= i < |b| ==> joined[|a| + i] == b[i];
    var dlast := dest.prev;
    var slast := src.prev;
    dlast.next := src;
    slast.next := dest;
    dest.prev := slast;
    src.prev := dlast;
  }
}
