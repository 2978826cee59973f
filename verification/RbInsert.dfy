/** Insertion: find the leaf position, attach a red link, repair a red-red edge bottom up. */
module RbInsert {
  import opened RbShape
  import opened RbHeap

  // ----- the repairs as rewrites of a position --------------------------------------------

  /** The subject is red and may stand under a red parent; everything else is in order. */
  ghost predicate Subject(c: Ctx, t: Tree, total: int) {
    IsRed(t) && RedBlack(t, Height(t)) && RedBlackCtx(c, Height(t), total)
  }

  predicate HasGrandparent(c: Ctx) { c.In? && c.up.In? }

  /** The subtree at the grandparent of the hole. */
  function Family(c: Ctx, t: Tree): Tree
    requires HasGrandparent(c)
  {
    Lifted(c.up, Lifted(c, t))
  }

  /** Red uncle: parent and uncle turn black, the grandparent red; it is the next subject. */
  function UncleRepair(c: Ctx, t: Tree): Tree
    requires HasGrandparent(c)
  {
    Join(c.up.side, Paint(Lifted(c, t), false), c.up.link, c.up.key, true, Paint(c.up.other, false))
  }

  /** Inner grandchild: subject and parent trade places; the parent is the next subject. */
  function InnerTree(c: Ctx, t: Tree): Tree
    requires HasGrandparent(c) && t.Node?
  {
    Join(c.up.side, c.other, c.link, c.key, c.red, Child(t, c.up.side))
  }

  function InnerCtx(c: Ctx, t: Tree): Ctx
    requires HasGrandparent(c) && t.Node?
  {
    In(c.up.side, c.up, t.link, t.key, t.red, Child(t, Opp(c.up.side)))
  }

  lemma SubjectDone(c: Ctx, t: Tree, total: int)
    requires Subject(c, t, total) && !RedAbove(c)
    ensures RedBlack(Plug(c, t), total)
  {
    RedBlackPlug(c, t, total);
  }

  /** Red parent at the root: it turns black and every path grows by one. */
  lemma RootRepairCorrect(c: Ctx, t: Tree, total: int)
    requires Subject(c, t, total) && RedAbove(c) && c.up.Top?
    ensures RedBlack(Paint(Lifted(c, t), false), total + 1)
    ensures SameContents(Plug(c, t), Paint(Lifted(c, t), false))
  {
    assert RedBlackCtx(c.up, Height(t), total);
    assert Plug(c, t) == Lifted(c, t);
  }

  lemma UncleRepairCorrect(c: Ctx, t: Tree, total: int)
    requires Subject(c, t, total) && RedAbove(c) && c.up.In? && IsRed(c.up.other)
    ensures Subject(c.up.up, UncleRepair(c, t), total)
  {
    var t', g, h := UncleRepair(c, t), c.up, Height(t);
    assert RedBlackCtx(g, h, total);
    assert RedBlackCtx(g.up, h + 1, total);
    assert RedBlack(Paint(g.other, false), h + 1);
    assert RedBlack(Paint(Lifted(c, t), false), h + 1);
    HeightUnique(t', h + 1);
  }

  lemma UncleRepairContents(c: Ctx, t: Tree)
    requires HasGrandparent(c)
    ensures SameContents(Plug(c, t), Plug(c.up.up, UncleRepair(c, t)))
  {
    var g, p := c.up, Paint(Lifted(c, t), false);
    var atUncle := In(Opp(g.side), g.up, g.link, g.key, g.red, p);
    PaintContents(g, Lifted(c, t), false);
    assert Plug(g, p) == Plug(atUncle, g.other);
    PaintContents(atUncle, g.other, false);
    PaintContents(g.up, Lifted(atUncle, Paint(g.other, false)), true);
  }

  lemma InnerCorrect(c: Ctx, t: Tree, total: int)
    requires Subject(c, t, total) && RedAbove(c) && c.up.In? && c.side != c.up.side
    ensures Subject(InnerCtx(c, t), InnerTree(c, t), total)
    ensures Lifted(InnerCtx(c, t), InnerTree(c, t)) == Rotated(c.side, Lifted(c, t))
    ensures SameContents(Plug(c, t), Plug(InnerCtx(c, t), InnerTree(c, t)))
  {
    var t', g := InnerTree(c, t), c.up;
    assert RedBlackCtx(g, Height(t), total);
    assert RedBlack(t', Height(t));
    HeightUnique(t', Height(t));
    RotatedContents(c.side, Lifted(c, t));
    SameContentsPlug(g, Lifted(c, t), Rotated(c.side, Lifted(c, t)));
  }

  /** Outer grandchild: the parent takes the place and the colour of the grandparent. */
  lemma OuterCorrect(c: Ctx, t: Tree, total: int)
    requires Subject(c, t, total) && RedAbove(c) && c.up.In?
    requires c.side == c.up.side && !IsRed(c.up.other)
    ensures RedBlack(Plug(c.up.up, Promoted(c.side, Family(c, t))), total)
    ensures SameContents(Plug(c, t), Plug(c.up.up, Promoted(c.side, Family(c, t))))
  {
    var t', g, h := Promoted(c.side, Family(c, t)), c.up, Height(t);
    assert RedBlackCtx(g, h, total);
    assert RedBlackCtx(g.up, h + 1, total);
    assert RedBlack(Child(t', Opp(c.side)), h);
    HeightUnique(t', h + 1);
    RedBlackPlug(g.up, t', total);
    PromotedContents(c.side, Family(c, t));
    SameContentsPlug(g.up, Family(c, t), t');
  }

  // ----- the repairs in memory -------------------------------------------------------------

  /** A step of the repair loop: an equivalent position that is still a subject of height `total`. */
  ghost predicate Steps(c: Ctx, t: Tree, c': Ctx, t': Tree, total: int) {
    Subject(c', t', total) && SameContents(Plug(c, t), Plug(c', t'))
  }

  method UncleStep(tree: RbRoot, parent: Link, grandparent: Link, uncle: Link, ghost c: Ctx, ghost t: Tree)
    requires Holds(tree, Plug(c, t)) && Subject(c, t, tree.blackHeight) && RedAbove(c) && c.up.In?
    requires parent == c.link && grandparent == c.up.link && IsRed(c.up.other) && uncle == c.up.other.link
    modifies parent`keyAndColor, uncle`keyAndColor, grandparent`keyAndColor
    ensures Holds(tree, Plug(c.up.up, UncleRepair(c, t)))
    ensures Steps(c, t, c.up.up, UncleRepair(c, t), tree.blackHeight)
  {
    UncleRepairCorrect(c, t, tree.blackHeight);
    UncleRepairContents(c, t);
    ghost var g, p := c.up, Lifted(c, t);
    PaintAt(tree, parent, false, g, p);
    p := Paint(p, false);
    ghost var atUncle := In(Opp(g.side), g.up, g.link, g.key, g.red, p);
    assert Lifted(g, p) == Lifted(atUncle, g.other);
    PaintAt(tree, uncle, false, atUncle, g.other);
    PaintAt(tree, grandparent, true, g.up, Lifted(atUncle, Paint(g.other, false)));
  }

  method InnerStep(tree: RbRoot, node: Link, parent: Link, side: Side, ghost c: Ctx, ghost t: Tree)
    requires Holds(tree, Plug(c, t)) && Subject(c, t, tree.blackHeight) && RedAbove(c) && c.up.In?
    requires node == t.link && parent == c.link && side == c.side && c.side != c.up.side
    modifies tree`root, Links(Plug(c, t))
    ensures Holds(tree, Plug(InnerCtx(c, t), InnerTree(c, t)))
    ensures Steps(c, t, InnerCtx(c, t), InnerTree(c, t), tree.blackHeight)
  {
    InnerCorrect(c, t, tree.blackHeight);
    RotateUp(tree, parent, node, side, c.up, Lifted(c, t));
  }

  method OuterStep(tree: RbRoot, parent: Link, grandparent: Link, side: Side, ghost c: Ctx, ghost t: Tree)
    returns (ghost whole: Tree)
    requires Holds(tree, Plug(c, t)) && Subject(c, t, tree.blackHeight) && RedAbove(c) && c.up.In?
    requires c.side == c.up.side && !IsRed(c.up.other)
    requires parent == c.link && grandparent == c.up.link && side == c.side
    modifies tree`root, Links(Plug(c, t))
    ensures Holds(tree, whole) && RedBlack(whole, tree.blackHeight)
    ensures SameContents(Plug(c, t), whole)
  {
    OuterCorrect(c, t, tree.blackHeight);
    assert Plug(c, t) == Plug(c.up, Lifted(c, t)) == Plug(c.up.up, Family(c, t));
    Promote(tree, grandparent, parent, side, c.up.up, Family(c, t));
    return Plug(c.up.up, Promoted(c.side, Family(c, t)));
  }

  method RootStep(tree: RbRoot, parent: Link, ghost c: Ctx, ghost t: Tree) returns (ghost whole: Tree)
    requires Holds(tree, Plug(c, t)) && Subject(c, t, tree.blackHeight) && RedAbove(c) && c.up.Top?
    requires parent == c.link
    modifies tree`blackHeight, parent`keyAndColor
    ensures Holds(tree, whole) && RedBlack(whole, tree.blackHeight)
    ensures SameContents(Plug(c, t), whole) && LinkOf(whole) == parent
  {
    RootRepairCorrect(c, t, tree.blackHeight);
    PaintAt(tree, parent, false, c.up, Lifted(c, t));
    whole := Paint(Lifted(c, t), false);
    assert Plug(Top, whole) == whole;
    tree.blackHeight := tree.blackHeight + 1;
  }

  /** What the code reads to tell the cases apart. */
  lemma Relatives(tree: RbRoot, c: Ctx, t: Tree)
    requires Holds(tree, Plug(c, t)) && t.Node? && HasGrandparent(c)
    ensures (c.link.left == t.link) == c.side.Lt? && (c.up.link.left == c.link) == c.up.side.Lt?
    ensures Toward(c.up.link, Opp(c.up.side)) == LinkOf(c.up.other)
    ensures c.up.other.Node? ==> c.up.other.link.IsRed() == c.up.other.red
  {
    var g, p := c.up, Lifted(c, t);
    At(tree, c, t);
    At(tree, g, p);
    assert LinkOf(c.other) in Links(c.other) + {null} && LinkOf(g.other) in Links(g.other) + {null};
    At(tree, In(Opp(g.side), g.up, g.link, g.key, g.red, p), g.other);
  }

  /** The position is right below the root. */
  predicate Shallow(c: Ctx) { c.In? && c.up.Top? }

  lemma ShallowRoot(c: Ctx, t: Tree)
    ensures Shallow(c) ==> LinkOf(Plug(c, t)) == CtxLink(c)
  {
  }

  predicate IsInner(c: Ctx) { HasGrandparent(c) && c.side != c.up.side }

  /** Repair the tree after a red leaf was attached. */
  method InsertRebalance(tree: RbRoot, initial: Link, ghost c0: Ctx, ghost t0: Tree) returns (ghost whole: Tree)
    requires Holds(tree, Plug(c0, t0)) && Subject(c0, t0, tree.blackHeight) && initial == t0.link
    modifies tree`root, tree`blackHeight, Links(Plug(c0, t0))
    ensures Holds(tree, whole) && RedBlack(whole, tree.blackHeight)
    ensures SameContents(Plug(c0, t0), whole) && (Shallow(c0) ==> LinkOf(whole) == CtxLink(c0))
  {
    var node: Link := initial;
    ghost var c, t := c0, t0;
    while node.parent != null && node.parent.IsRed()
      invariant Holds(tree, Plug(c, t)) && node == LinkOf(t)
      invariant Steps(c0, t0, c, t, tree.blackHeight) && (Shallow(c0) ==> c == c0)
      decreases Depth(c), if IsInner(c) then 1 else 0
    {
      var parent := node.parent;
      var grandparent := parent.parent;
      assert RedAbove(c) && parent == c.link && grandparent == CtxLink(c.up) by {
        At(tree, c, t);
      }
      LinksPlug(c, t);
      if grandparent == null {
        whole := RootStep(tree, parent, c, t);
        return;
      }
      assert Depth(c) == 2 + Depth(c.up.up);
      Relatives(tree, c, t);
      var nodeSide := if parent.left == node then Lt else Rt;
      var parentSide := if grandparent.left == parent then Lt else Rt;
      var uncle := Toward(grandparent, Opp(parentSide));
      if uncle != null && uncle.IsRed() {
        UncleStep(tree, parent, grandparent, uncle, c, t);
        node, c, t := grandparent, c.up.up, UncleRepair(c, t);
      } else if nodeSide != parentSide {
        InnerStep(tree, node, parent, nodeSide, c, t);
        node, c, t := parent, InnerCtx(c, t), InnerTree(c, t);
      } else {
        whole := OuterStep(tree, parent, grandparent, nodeSide, c, t);
        return;
      }
    }
    At(tree, c, t);
    SubjectDone(c, t, tree.blackHeight);
    ShallowRoot(c, t);
    return Plug(c, t);
  }

  // ----- the leaf position -----------------------------------------------------------------

  function NewLeaf(x: Link, key: nat): Tree { Node(Nil, x, key, true, Nil) }

  lemma RecAttached(c: Ctx, x: Link, key: nat, y: Link)
    requires DistinctCtx(c) && x !in CtxLinks(c) && y in CtxLinks(c) + {x}
    ensures y in Links(Plug(c, NewLeaf(x, key)))
    ensures y == x ==> RecOf(Plug(c, NewLeaf(x, key)), null, y) == Rec(Pack(key, true), null, null, CtxLink(c))
    ensures y != x ==> y in Links(Plug(c, Nil))
    ensures y != x ==> RecOf(Plug(c, NewLeaf(x, key)), null, y) ==
                       var r := RecOf(Plug(c, Nil), null, y); if y == CtxLink(c) then SetChild(r, c.side, x) else r
  {
    RecPlug(c, NewLeaf(x, key), y);
    if y != x {
      RecPlug(c, Nil, y);
    }
  }

  /** Store a new link in the empty position `c`. */
  method Attach(tree: RbRoot, x: Link, parent: Link?, s: Side, ghost c: Ctx, ghost key: nat)
    requires Holds(tree, Plug(c, Nil)) && x !in CtxLinks(c)
    requires x.keyAndColor == Pack(key, true) && x.left == null && x.right == null
    requires parent == CtxLink(c) && (c.In? ==> s == c.side)
    modifies tree`root, x`parent, CtxLinks(c)
    ensures Holds(tree, Plug(c, NewLeaf(x, key)))
  {
    At(tree, c, Nil);
    LinksPlug(c, Nil);
    LinksPlug(c, NewLeaf(x, key));
    DistinctPlug(c, NewLeaf(x, key));
    RootOfPlug(c, Nil, NewLeaf(x, key));
    forall y | y in CtxLinks(c) + {x} { RecAttached(c, x, key, y); }
    x.parent := parent;
    if parent == null {
      tree.root := x;
    } else if s.Lt? {
      parent.left := x;
    } else {
      parent.right := x;
    }
  }

  datatype Status = Success | Duplicate | Error

  /** Walk down to a null pointer, or stop at a match. */
  method FindLeaf(tree: RbRoot, insertKey: nat, cmp: Comparator)
    returns (found: bool, parent: Link?, side: Side, ghost c: Ctx, ghost at: nat)
    requires tree.Valid()
    ensures !found ==>
      && Plug(c, Nil) == tree.shape && parent == CtxLink(c) && (c.In? ==> side == c.side)
      && Fits(cmp, insertKey, InOrder(tree.shape), Low(c), Low(c))
    ensures found ==> at < |InOrder(tree.shape)| && Verdict(cmp, insertKey, InOrder(tree.shape)[at]) == 0
  {
    ghost var w, t, s := tree.shape, tree.shape, InOrder(tree.shape);
    c, at, parent, side := Top, 0, null, Lt;
    var curr := tree.root;
    SizeInOrder(t);
    while curr != null
      invariant Holds(tree, w) && Plug(c, t) == w
      invariant curr == LinkOf(t) && parent == CtxLink(c) && (c.In? ==> side == c.side)
      invariant Fits(cmp, insertKey, s, Low(c), High(c, t))
      decreases t
    {
      At(tree, c, t);
      FitsDescend(cmp, insertKey, c, t);
      var v := Verdict(cmp, insertKey, Entry(curr, curr.Key()));
      if v == 0 {
        return true, parent, side, c, Mid(c, t);
      }
      parent, side := curr, if v > 0 then Rt else Lt;
      curr := Toward(curr, side);
      c, t := Descend(c, t, side), Child(t, side);
    }
    return false, parent, side, c, 0;
  }

  /** Same entries with one more at index `i`. */
  ghost predicate InsertedAt(s: seq<Entry>, s': seq<Entry>, i: nat, e: Entry) {
    i <= |s| && s' == s[..i] + [e] + s[i..]
  }

  lemma SortedInsert(cmp: Comparator, s: seq<Entry>, s': seq<Entry>, i: nat, e: Entry)
    requires Sorted(s) && InsertedAt(s, s', i, e) && Fits(cmp, e.key, s, i, i)
    ensures Sorted(s')
  {
    assert forall k :: 0 <= k < |s'| ==> s'[k] == if k < i then s[k] else if k == i then e else s[k - 1];
  }

  lemma AttachedLeaf(c: Ctx, x: Link, key: nat, total: int)
    requires RedBlack(Plug(c, Nil), total)
    ensures Subject(c, NewLeaf(x, key), total)
    ensures InsertedAt(InOrder(Plug(c, Nil)), InOrder(Plug(c, NewLeaf(x, key))), Low(c), Entry(x, key))
    ensures Links(Plug(c, NewLeaf(x, key))) == Links(Plug(c, Nil)) + {x}
  {
    RedBlackPlug(c, Nil, total);
    InOrderPlug(c, Nil);
    InOrderPlug(c, NewLeaf(x, key));
    assert InOrder(NewLeaf(x, key)) == [Entry(x, key)];
    SizeCtx(c);
    LinksPlug(c, Nil);
    LinksPlug(c, NewLeaf(x, key));
  }

  /** Store the link in the position found and repair the tree. */
  method InsertLeaf(tree: RbRoot, x: Link, parent: Link?, s: Side, ghost c: Ctx, ghost key: nat, ghost cmp: Comparator)
    requires tree.Valid() && Plug(c, Nil) == tree.shape && x !in Links(tree.shape)
    requires x.keyAndColor == Pack(key, true) && x.left == null && x.right == null
    requires parent == CtxLink(c) && (c.In? ==> s == c.side)
    requires Fits(cmp, key, InOrder(tree.shape), Low(c), Low(c))
    modifies tree, Links(tree.shape), x
    ensures tree.Valid()
    ensures InsertedAt(InOrder(old(tree.shape)), InOrder(tree.shape), Low(c), Entry(x, key))
    ensures Links(tree.shape) == Links(old(tree.shape)) + {x} && (Shallow(c) ==> tree.root == parent)
  {
    ghost var w, w' := tree.shape, Plug(c, NewLeaf(x, key));
    AttachedLeaf(c, x, key, tree.blackHeight);
    SortedInsert(cmp, InOrder(w), InOrder(w'), Low(c), Entry(x, key));
    LinksPlug(c, Nil);
    Attach(tree, x, parent, s, c, key);
    tree.shape := InsertRebalance(tree, x, c, NewLeaf(x, key));
  }

  /** In a tree of one link every free position is right below it. */
  lemma {:induction false} BelowOnly(c: Ctx, w: Tree)
    requires Plug(c, Nil) == w
    ensures |InOrder(w)| == 1 ==> Shallow(c) && CtxLink(c) == LinkOf(w)
  {
    SizePlug(c, Nil);
    if |InOrder(w)| == 1 {
      assert c.In?;
      if c.up.In? {
        SizePlug(c.up, Lifted(c, Nil));
        SizePlug(c.up.up, Lifted(c.up, Lifted(c, Nil)));
      }
    }
  }

  /** Insert `x` with the given key.
      - A link that is in use is refused and nothing changes.
      - A match found on the way down leaves the tree alone and zeroes the link.
      - Otherwise the tree is valid again and holds one more entry at index `at`.
      With a comparator that guides, a match is found exactly when there is one, and the new entry
      separates those below it from those above it. */
  method InsertValue(tree: RbRoot, value: Word, x: Link, cmp: Comparator)
    returns (status: Status, ghost at: nat)
    requires tree.Valid()
    modifies tree, Links(tree.shape), x
    ensures tree.Valid()
    ensures status.Error? <==>
            old(tree.root == x || x.parent != null || x.left != null || x.right != null)
    ensures status.Error? ==> tree.shape == old(tree.shape) && Fields(x) == old(Fields(x))
    ensures var s, key := InOrder(old(tree.shape)), value % KEY_LIMIT;
      && (status.Success? ==>
           && InsertedAt(s, InOrder(tree.shape), at, Entry(x, key))
           && Links(tree.shape) == Links(old(tree.shape)) + {x}
           && Fits(cmp, key, s, at, at))
      && (status.Duplicate? ==>
           && tree.shape == old(tree.shape) && tree.blackHeight == old(tree.blackHeight) && x.Zeroed()
           && at < |s| && Verdict(cmp, key, s[at]) == 0)
      && (Guides(cmp, key, s) && !status.Error? ==>
           (status.Duplicate? <==> exists i :: 0 <= i < |s| && Verdict(cmp, key, s[i]) == 0))
      && (status.Success? && |s| == 1 ==> tree.root == old(tree.root))
  {
    if tree.root == x || x.parent != null || x.left != null || x.right != null {
      return Error, 0;
    }
    ghost var w, key := tree.shape, value % KEY_LIMIT;
    assert x !in Links(w) by {
      if x in Links(w) {
        MemberAttached(tree, x);
      }
    }
    assert allocated(Links(w));
    InitializeNodeValue(x, value);
    var found, parent, side; ghost var c;
    found, parent, side, c, at := FindLeaf(tree, x.Key(), cmp);
    if found {
      x.keyAndColor, x.left, x.right, x.parent := 0, null, null, null;
      return Duplicate, at;
    }
    BelowOnly(c, w);
    InsertLeaf(tree, x, parent, side, c, key, cmp);
    return Success, Low(c);
  }
}
