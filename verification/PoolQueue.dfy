/** Queues of the memory pool: a circular list and two counters that wrap around. */
module PoolQueue {
  import opened PoolRing
  import opened Unsigned

  /** The number of links in a list. */
  method CountBlocks(list: Link, ghost items: seq<Link>) returns (count: Count)
    requires Ring([list] + items) && |items| < COUNT_LIMIT
    ensures count == |items| && Ring([list] + items)
  {
    ghost var ring := [list] + items;
    assert ring[0] == list;
    var node := list.next;
    count := 0;
    while node != list
      invariant Ring(ring) && 0 <= count <= |items| && node == if count < |items| then ring[count + 1] else list
      decreases |items| - count
    {
      assert node == ring[count + 1];
      node := node.next;
      count := count + 1;
    }
  }

  /** Put the links of the second list behind those of the first, and close the second. */
  method Splice(dest: Link, src: Link, ghost a: seq<Link>, ghost b: seq<Link>)
    requires Ring(a) && Ring(b) && a != [] && b != [] && a[0] == dest && b[0] == src && Distinct(a + b)
    modifies a, b
    ensures Ring(a + b[1..]) && Single(src)
  {
    MergeList(dest, src, a, b);
    ExtractNode(src, a + b, |a|);
    assert (a + b)[..|a|] + (a + b)[|a| + 1..] == a + b[1..];
  }

  class SubQueue {
    const head: Link
    var pushCount: Count
    var pullCount: Count

    /** What is in the queue, and all that ever was put into it and taken out. */
    ghost var contents: seq<Link>
    ghost var pushed: seq<Link>
    ghost var pulled: seq<Link>

    ghost function Chain(): seq<Link>
      reads this
    {
      [head] + contents
    }

    ghost predicate Counted()
      reads this
    {
      && |contents| < COUNT_LIMIT && pulled + contents == pushed
      && pushCount == |pushed| % COUNT_LIMIT && pullCount == |pulled| % COUNT_LIMIT
    }

    /** First in, first out: what was put in is what was taken out followed by what is there. */
    ghost predicate Valid()
      reads this, Chain()
    {
      Ring(Chain()) && Counted()
    }

    constructor ()
      ensures Valid() && contents == [] && pushed == [] && pulled == [] && fresh(head)
    {
      head := new Link();
      pushCount, pullCount := 0, 0;
      contents, pushed, pulled := [], [], [];
    }

    method GetDepth() returns (depth: Count)
      requires Counted()
      ensures depth == |contents|
    {
      CountsDiffer(|pushed|, |pulled|);
      depth := Minus(pushCount, pullCount);
    }

    method PushSingle(node: Link)
      requires Valid() && Single(node) && node !in Chain() && |contents| + 1 < COUNT_LIMIT
      modifies this, Chain(), node
      ensures Valid() && contents == old(contents) + [node] && pushed == old(pushed) + [node] && pulled == old(pulled)
    {
      ghost var ring := Chain();
      InsertBefore(head, node, ring);
      CountPush(1, [node]);
      assert Chain() == ring + [node];
    }

    /** Count links that were put at the end of the list. */
    method CountPush(n: Count, ghost nodes: seq<Link>)
      requires Counted() && |contents| + |nodes| < COUNT_LIMIT && n == |nodes|
      modifies this`pushCount, this`contents, this`pushed
      ensures Counted() && contents == old(contents) + nodes && pushed == old(pushed) + nodes
    {
      CountOn(|pushed|, n);
      pushCount := Add(pushCount, n);
      contents, pushed := contents + nodes, pushed + nodes;
      assert pulled + contents == pushed;
    }

    /** Count links that were taken from the front of the list. */
    method CountPull(n: Count)
      requires Counted() && n <= |contents|
      modifies this`pullCount, this`contents, this`pulled
      ensures Counted() && contents == old(contents)[n..] && pulled == old(pulled) + old(contents)[..n]
    {
      CountOn(|pulled|, n);
      pullCount := Add(pullCount, n);
      contents, pulled := contents[n..], pulled + contents[..n];
      assert pulled + contents == pushed;
    }

    method PullSingle() returns (node: Link?)
      requires Valid()
      modifies this, Chain()
      ensures Valid() && pushed == old(pushed)
      ensures if old(contents) == [] then node == null && contents == [] && pulled == old(pulled)
              else
                && node == old(contents)[0] == pushed[|old(pulled)|] && Single(node)
                && contents == old(contents)[1..] && pulled == old(pulled) + [node]
    {
      ghost var ring := Chain();
      assert ring[0] == head;
      var first := head.next;
      if first == head {
        return null;
      }
      ExtractNode(first, ring, 1);
      CountPull(1);
      assert Chain() == ring[..1] + ring[2..];
      return first;
    }

    /** Append the links of another list, which is left empty. */
    method MergeFrom(list: Link, ghost items: seq<Link>) returns (count: Count)
      requires Valid() && Ring([list] + items) && Distinct(Chain() + ([list] + items))
      requires |contents| + |items| < COUNT_LIMIT
      modifies this, Chain(), list, items
      ensures Valid() && contents == old(contents) + items && pushed == old(pushed) + items && pulled == old(pulled)
      ensures count == |items| && Single(list)
    {
      count := CountBlocks(list, items);
      ghost var a, b := Chain(), [list] + items;
      Splice(head, list, a, b);
      CountPush(count, items);
      assert Chain() == a + b[1..];
    }

    /** Append the contents of another queue, which is left empty. */
    method MoveAll(src: SubQueue) returns (depth: Count)
      requires this != src && Valid() && src.Valid() && Distinct(Chain() + src.Chain())
      requires |contents| + |src.contents| < COUNT_LIMIT
      modifies this, Chain(), src, src.Chain()
      ensures Valid() && src.Valid() && depth == |old(src.contents)|
      ensures contents == old(contents) + old(src.contents)
      ensures pushed == old(pushed) + old(src.contents) && pulled == old(pulled)
      ensures src.contents == [] && src.pushed == old(src.pushed) && src.pulled == old(src.pulled) + old(src.contents)
    {
      depth := src.GetDepth();
      if depth > 0 {
        ghost var a, b, items := Chain(), src.Chain(), src.contents;
        Splice(head, src.head, a, b);
        src.CountPull(depth);
        CountPush(depth, items);
        assert Chain() == a + b[1..] && src.Chain() == [src.head];
      }
    }
  }
}
