/** A tree on which the search for a bound stops one entry early. */
module RbEarly {
  import opened RbShape
  import opened RbHeap
  import opened RbInsert
  import opened RbIter

  /** With two entries of which the later one is the root, a bound beyond both leads to the root. */
  lemma {:induction false} RootOfTwo(w: Tree, a: Link, b: Link, f: nat)
    requires Distinct(w) && InOrder(w) == [Entry(a, 5), Entry(b, 10)] && LinkOf(w) == b
    ensures IsFirst(Rt, InOrder(w), 20, f) ==> f == 2 && LopsidedAt(Rt, w, 1)
  {
    var s, i := InOrder(w), |InOrder(w.left)|;
    InOrderLinks(w);
    assert s[i] == Entry(b, w.key) && s[0].link != s[1].link;
    assert i == 1;
    SizeInOrder(w.left);
    SizeInOrder(w.right);
    assert w.left.Node? && w.right.Nil?;
    assert Nth(Rt, s, 1).link == b;
    if IsFirst(Rt, s, 20, f) {
      assert forall k :: 0 <= k < 2 ==> ShortOf(Rt, Nth(Rt, s, k).key, 20);
    }
  }

  /** The first link of a tree is its root. */
  method AddFirst(tree: RbRoot, key: nat) returns (x: Link)
    requires tree.Valid() && tree.shape.Nil? && key < KEY_LIMIT
    modifies tree
    ensures tree.Valid() && InOrder(tree.shape) == [Entry(x, key)] && Links(tree.shape) == {x} && tree.root == x
    ensures fresh(x)
  {
    x := new Link();
    RootIsMember(tree);
    assert key % KEY_LIMIT == key;
    var status; ghost var at;
    status, at := InsertValue(tree, key, x, KeyOnly);
    RootIsMember(tree);
  }

  /** A second link goes below the first one. */
  method AddSecond(tree: RbRoot, key: nat, ghost first: Entry) returns (x: Link)
    requires tree.Valid() && InOrder(tree.shape) == [first] && tree.root == first.link && key < first.key
    requires Links(tree.shape) == {first.link} && key < KEY_LIMIT
    modifies tree, first.link
    ensures tree.Valid() && InOrder(tree.shape) == [Entry(x, key), first] && tree.root == first.link
  {
    ghost var s := InOrder(tree.shape);
    x := new Link();
    assert key % KEY_LIMIT == key && s[0] == first;
    var status; ghost var at;
    status, at := InsertValue(tree, key, x, KeyOnly);
    if status.Success? {
      BeforeFirst(s, InOrder(tree.shape), at, Entry(x, key));
    }
  }

  lemma {:induction false} BeforeFirst(s: seq<Entry>, s': seq<Entry>, at: nat, e: Entry)
    requires |s| == 1 && e.key < s[0].key && InsertedAt(s, s', at, e) && Fits(KeyOnly, e.key, s, at, at)
    ensures s' == [e, s[0]]
  {
    assert Verdict(KeyOnly, e.key, s[0]) < 0;
  }

  /** Insert the keys 10 and 5 and look for the least key that is at least 20: there is none, and the position
      is the link with the key 10. */
  method LandsEarly() returns (tree: RbRoot, a: Link, b: Link, position: Link?)
    ensures tree.Valid() && InOrder(tree.shape) == [Entry(a, 5), Entry(b, 10)] && position == b
  {
    tree := new RbRoot();
    b := AddFirst(tree, 10);
    a := AddSecond(tree, 5, Entry(b, 10));
    RootIsMember(tree);
    ghost var w := tree.shape;
    ghost var f;
    position, f := GotoBound(tree, 20, Rt);
    RootOfTwo(w, a, b, f);
  }
}
