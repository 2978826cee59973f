/** Extraction: trade places with a neighbour until the link is a leaf, repair the heights as if
    it were gone, then unlink it. */
module RbDelete {
  import opened RbShape
  import opened RbHeap
  import opened RbRename
  import opened RbBalance

  ghost function RemoveAt(s: seq<Entry>, i: nat): seq<Entry>
    requires i < |s|
  {
    s[..i] + s[i + 1..]
  }

  /** The entries of the tree without the root of the subtree at a position. */
  ghost function Rest(c: Ctx, t: Tree): seq<Entry>
    requires t.Node?
  {
    Middle(c, t);
    RemoveAt(InOrder(Plug(c, t)), Mid(c, t))
  }

  // ----- moving the link to a leaf ---------------------------------------------------------

  /** An only child is a red leaf. */
  lemma OnlyChild(t: Tree, h: int)
    requires RedBlack(t, h) && t.Node?
    ensures t.left.Nil? && t.right.Node? ==> t.right.red && t.right.left.Nil? && t.right.right.Nil?
    ensures t.right.Nil? && t.left.Node? ==> t.left.red && t.left.left.Nil? && t.left.right.Nil?
  {
    if t.left.Nil? && t.right.Node? {
      NoBlackInside(t.right);
    }
    if t.right.Nil? && t.left.Node? {
      NoBlackInside(t.left);
    }
  }

  lemma NoBlackInside(t: Tree)
    requires RedBlack(t, 0)
    ensures t.Node? ==> t.red && t.left.Nil? && t.right.Nil?
  {
    if t.Node? {
      NoNegativeHeight(t.left);
      BlackRootCounts(t.left);
      BlackRootCounts(t.right);
    }
  }

  lemma NoNegativeHeight(t: Tree)
    ensures !RedBlack(t, -1)
  {
    if RedBlack(t, -1) {
      HeightUnique(t, -1);
    }
  }

  lemma BlackRootCounts(t: Tree)
    ensures RedBlack(t, 0) && t.Node? ==> t.red
  {
    if t.Node? {
      NoNegativeHeight(t.left);
    }
  }

  lemma SwapNeighbours(w: Swap, s: seq<Entry>, s': seq<Entry>, i: nat, j: nat)
    requires |s| == |s'| && i < |s| && j < |s| && (j == i + 1 || i == j + 1)
    requires s[i] == Entry(w.x, w.kx) && s[j] == Entry(w.y, w.ky)
    requires forall a, b :: 0 <= a < b < |s| ==> s[a].link != s[b].link
    requires forall k :: 0 <= k < |s| ==> s'[k] == OtherEntry(w, s[k])
    ensures RemoveAt(s', j) == RemoveAt(s, i)
  {
    var r, r' := RemoveAt(s, i), RemoveAt(s', j);
    forall k | 0 <= k < |r| ensures r'[k] == r[k] {
      var a, b := if k < i then k else k + 1, if k < j then k else k + 1;
      assert r[k] == s[a] && r'[k] == s'[b];
      assert a != i && b != j;
    }
  }

  /** Trading places with the neighbour in the order does not change the order of the others. */
  lemma SwapKeepsRest(w: Swap, c: Ctx, t: Tree, d: Ctx, u: Tree)
    requires t.Node? && u.Node? && Distinct(Plug(c, t)) && Plug(d, u) == Plug(c, t)
    requires w == Swap(t.link, t.key, u.link, u.key)
    requires Mid(d, u) == Mid(c, t) + 1 || Mid(c, t) == Mid(d, u) + 1
    ensures Plug(SwappedCtx(w, d), Swapped(w, u)) == Swapped(w, Plug(c, t))
    ensures Rest(SwappedCtx(w, d), Swapped(w, u)) == Rest(c, t)
  {
    var c', t' := SwappedCtx(w, d), Swapped(w, u);
    SwappedPlug(w, d, u);
    Middle(c, t);
    Middle(d, u);
    Middle(c', t');
    InOrderLinks(Plug(c, t));
    SwappedInOrder(w, Plug(c, t));
    SwappedMid(w, d, u);
    SwapNeighbours(w, InOrder(Plug(c, t)), InOrder(Plug(c', t')), Mid(c, t), Mid(d, u));
  }

  lemma SwappedMid(w: Swap, c: Ctx, t: Tree)
    requires t.Node?
    ensures Mid(SwappedCtx(w, c), Swapped(w, t)) == Mid(c, t)
  {
    SwappedLow(w, c);
    SwappedSize(w, t.left);
  }

  lemma {:induction false} SwappedSize(w: Swap, t: Tree)
    ensures Size(Swapped(w, t)) == Size(t)
  {
    if t.Node? {
      SwappedSize(w, t.left);
      SwappedSize(w, t.right);
    }
  }

  lemma {:induction false} SwappedLow(w: Swap, c: Ctx)
    ensures Low(SwappedCtx(w, c)) == Low(c)
  {
    if c.In? {
      SwappedLow(w, c.up);
      SwappedSize(w, c.other);
    }
  }

  /** The link to trade places with: the last one of the left subtree. */
  method LastOfLeft(tree: RbRoot, x: Link, ghost c: Ctx, ghost t: Tree)
    returns (target: Link, ghost d: Ctx, ghost u: Tree)
    requires Holds(tree, Plug(c, t)) && t.Node? && x == t.link && t.left.Node?
    ensures Plug(d, u) == Plug(c, t) && u.Node? && target == u.link && u.right.Nil?
    ensures Mid(c, t) == Mid(d, u) + 1
    ensures u.link in Links(t.left) && u.link != t.link
    ensures Size(u) <= Size(t.left) && (IsLeaf(t.left) ==> u == t.left)
    ensures Holds(tree, Plug(c, t))
  {
    ghost var w := Plug(c, t);
    Middle(c, t);
    At(tree, c, t);
    target, d, u := x.left, Descend(c, t, Lt), t.left;
    At(tree, d, u);
    while target.right != null
      invariant u.Node? && target == u.link && target.right == LinkOf(u.right)
      invariant Holds(tree, w) && Plug(d, u) == w && High(d, u) == Mid(c, t)
      invariant Links(u) <= Links(t.left) && Size(u) <= Size(t.left) && (IsLeaf(t.left) ==> u == t.left)
      decreases u
    {
      Middle(d, u);
      target, d, u := target.right, Descend(d, u, Rt), u.right;
      At(tree, d, u);
    }
    Middle(d, u);
  }

  /** Force the link into a leaf position; at most two exchanges are needed. */
  method MakeLeaf(tree: RbRoot, x: Link, ghost c0: Ctx, ghost t0: Tree, ghost total: int)
    returns (ghost c: Ctx, ghost t: Tree, ghost swaps: nat)
    requires Holds(tree, Plug(c0, t0)) && RedBlack(Plug(c0, t0), total) && t0.Node? && x == t0.link
    modifies tree`root, Links(Plug(c0, t0))
    ensures Holds(tree, Plug(c, t)) && RedBlack(Plug(c, t), total) && IsLeaf(t) && x == t.link
    ensures Links(Plug(c, t)) == Links(Plug(c0, t0)) && Rest(c, t) == Rest(c0, t0)
    ensures swaps <= 2
  {
    c, t, swaps := c0, t0, 0;
    At(tree, c, t);
    while x.left != null || x.right != null
      invariant Holds(tree, Plug(c, t)) && RedBlack(Plug(c, t), total) && t.Node? && x == t.link
      invariant x.left == LinkOf(t.left) && x.right == LinkOf(t.right)
      invariant Links(Plug(c, t)) == Links(Plug(c0, t0)) && Rest(c, t) == Rest(c0, t0)
      invariant swaps <= 2 && (swaps == 1 ==> t.right.Nil?) && (swaps == 2 ==> IsLeaf(t))
      decreases Size(t)
    {
      c, t := MoveDown(tree, x, c, t, total);
      swaps := swaps + 1;
      At(tree, c, t);
    }
  }

  /** One exchange: with the last of the left subtree, or with the only child on the right. */
  method MoveDown(tree: RbRoot, x: Link, ghost c: Ctx, ghost t: Tree, ghost total: int)
    returns (ghost c': Ctx, ghost t': Tree)
    requires Holds(tree, Plug(c, t)) && RedBlack(Plug(c, t), total) && t.Node? && x == t.link && !IsLeaf(t)
    modifies tree`root, Links(Plug(c, t))
    ensures Holds(tree, Plug(c', t')) && RedBlack(Plug(c', t'), total) && t'.Node? && x == t'.link
    ensures Links(Plug(c', t')) == Links(Plug(c, t)) && Rest(c', t') == Rest(c, t)
    ensures Size(t') < Size(t)
    ensures t'.right.Nil? && (t.left.Nil? || t.right.Nil? ==> IsLeaf(t'))
  {
    ghost var d, u;
    At(tree, c, t);
    RedBlackPlug(c, t, total);
    OnlyChild(t, Height(t));
    var target := x.left;
    if target != null {
      target, d, u := LastOfLeft(tree, x, c, t);
    } else {
      target, d, u := x.right, Descend(c, t, Rt), t.right;
      Middle(c, t);
    }
    c', t' := Exchange(tree, x, target, c, t, d, u, total);
  }

  method Exchange(tree: RbRoot, x: Link, y: Link, ghost c: Ctx, ghost t: Tree, ghost d: Ctx, ghost u: Tree,
                  ghost total: int)
    returns (ghost c': Ctx, ghost t': Tree)
    requires Holds(tree, Plug(c, t)) && RedBlack(Plug(c, t), total) && t.Node? && u.Node?
    requires x == t.link && y == u.link && y in Links(t) && y != x
    requires Plug(d, u) == Plug(c, t) && (Mid(d, u) == Mid(c, t) + 1 || Mid(c, t) == Mid(d, u) + 1)
    modifies tree`root, Links(Plug(c, t))
    ensures Holds(tree, Plug(c', t')) && RedBlack(Plug(c', t'), total) && t'.Node? && x == t'.link
    ensures Links(Plug(c', t')) == Links(Plug(c, t)) && Rest(c', t') == Rest(c, t)
    ensures Size(t') == Size(u)
    ensures t'.left.Nil? == u.left.Nil? && t'.right.Nil? == u.right.Nil?
  {
    ghost var w := Swap(t.link, t.key, u.link, u.key);
    SwapKeepsRest(w, c, t, d, u);
    SwappedRedBlack(w, Plug(c, t), total);
    SwappedSize(w, u);
    ExchangePlaces(tree, x, y, w, c, t, d, u);
    c', t' := SwappedCtx(w, d), Swapped(w, u);
  }

  // ----- unlinking -------------------------------------------------------------------------

  lemma {:induction false} LocateLeaf(t: Tree, x: Link, c: Ctx)
    requires Distinct(t) && LeafIn(t, x) && x in Links(t)
    ensures IsLeaf(Locate(t, x, c).1)
    decreases t
  {
    if t.link != x {
      if x in Links(t.left) {
        EraseAbsent(t.right, x);
        LocateLeaf(t.left, x, In(Lt, c, t.link, t.key, t.red, t.right));
      } else {
        EraseAbsent(t.left, x);
        LocateLeaf(t.right, x, In(Rt, c, t.link, t.key, t.red, t.left));
      }
    }
  }

  lemma RestUnique(c: Ctx, t: Tree, c': Ctx, t': Tree)
    requires t.Node? && t'.Node? && t.link == t'.link && Distinct(Plug(c, t))
    requires InOrder(Plug(c, t)) == InOrder(Plug(c', t'))
    ensures Rest(c, t) == Rest(c', t')
  {
    Middle(c, t);
    Middle(c', t');
    InOrderLinks(Plug(c, t));
    assert Mid(c, t) == Mid(c', t');
  }

  lemma RestOfLeaf(c: Ctx, t: Tree)
    requires IsLeaf(t)
    ensures InOrder(Plug(c, Nil)) == Rest(c, t)
    ensures Links(Plug(c, t)) == Links(Plug(c, Nil)) + {t.link}
  {
    InOrderPlug(c, Nil);
    InOrderPlug(c, t);
    LinksPlug(c, Nil);
    LinksPlug(c, t);
    Middle(c, t);
    SizeCtx(c);
    assert InOrder(t) == [Entry(t.link, t.key)];
  }

  lemma RecUnlinked(c: Ctx, t: Tree, y: Link)
    requires Separate(c, t) && IsLeaf(t) && y in CtxLinks(c)
    ensures y in Links(Plug(c, Nil)) && y in Links(Plug(c, t))
    ensures RecOf(Plug(c, Nil), null, y) ==
            var r := RecOf(Plug(c, t), null, y); if y == CtxLink(c) then SetChild(r, c.side, null) else r
  {
    RecPlug(c, Nil, y);
    RecPlug(c, t, y);
  }

  lemma UnlinkedHolds(tree: RbRoot, c: Ctx, t: Tree)
    requires Holds(tree, Plug(c, t)) && IsLeaf(t)
    ensures var w := Plug(c, Nil);
      && Distinct(w) && Links(w) == CtxLinks(c) && LinkOf(w) == (if c.Top? then null else tree.root)
      && t.link !in CtxLinks(c) && (c.In? ==> (c.link.left == t.link) == c.side.Lt?)
      && forall y :: y in Links(w) ==>
           RecOf(w, null, y) == if y == CtxLink(c) then SetChild(Fields(y), c.side, null) else Fields(y)
  {
    At(tree, c, t);
    LinksPlug(c, Nil);
    LinksPlug(c, t);
    DistinctPlug(c, Nil);
    RootOfPlug(c, t, Nil);
    forall y | y in CtxLinks(c) ensures y in Links(Plug(c, Nil)) &&
      RecOf(Plug(c, Nil), null, y) == if y == CtxLink(c) then SetChild(Fields(y), c.side, null) else Fields(y)
    {
      RecUnlinked(c, t, y);
    }
    assert c.In? ==> LinkOf(c.other) in Links(c.other) + {null};
  }

  /** Clear the reference to the leaf and zero its link. */
  method Unlink(tree: RbRoot, x: Link, ghost c: Ctx, ghost t: Tree)
    requires Holds(tree, Plug(c, t)) && IsLeaf(t) && x == t.link
    modifies tree`root, x, CtxLinks(c)
    ensures Holds(tree, Plug(c, Nil)) && x.Zeroed()
  {
    At(tree, c, t);
    UnlinkedHolds(tree, c, t);
    if x.parent == null {
      tree.root := null;
    } else if x.parent.left == x {
      x.parent.left := null;
    } else {
      x.parent.right := null;
    }
    x.keyAndColor, x.left, x.right, x.parent := 0, null, null, null;
  }

  /** Remove a member: the order loses exactly its entry, the tree is valid again and the link is zeroed. */
  method ExtractNode(tree: RbRoot, x: Link) returns (found: bool, ghost at: nat)
    requires tree.Valid()
    requires x.parent != null || x.left != null || x.right != null || tree.root == x ==> x in Links(tree.shape)
    modifies tree, Links(tree.shape), x
    ensures tree.Valid()
    ensures found == (x in Links(old(tree.shape)))
    ensures !found ==> tree.shape == old(tree.shape) && Fields(x) == old(Fields(x))
    ensures found ==> x.Zeroed() && Links(tree.shape) == Links(old(tree.shape)) - {x}
    ensures found ==> var s := InOrder(old(tree.shape));
      at < |s| && s[at].link == x && InOrder(tree.shape) == RemoveAt(s, at)
  {
    if tree.root != x && x.parent == null && x.left == null && x.right == null {
      assert x !in Links(tree.shape) by {
        if x in Links(tree.shape) {
          MemberAttached(tree, x);
        }
      }
      return false, 0;
    }
    ghost var (c0, t0) := Locate(tree.shape, x, Top);
    LocateFinds(tree.shape, x, Top);
    Middle(c0, t0);
    found, at := true, Mid(c0, t0);
    Extract(tree, x, c0, t0);
  }

  method Extract(tree: RbRoot, x: Link, ghost c0: Ctx, ghost t0: Tree)
    requires tree.Valid() && Plug(c0, t0) == tree.shape && t0.Node? && x == t0.link
    modifies tree, Links(tree.shape)
    ensures tree.Valid() && x.Zeroed()
    ensures Links(tree.shape) == Links(old(tree.shape)) - {x}
    ensures InOrder(tree.shape) == Rest(c0, t0)
  {
    Middle(c0, t0);
    SortedRemoveAt(InOrder(Plug(c0, t0)), Mid(c0, t0));
    ghost var c, t, swaps := MakeLeaf(tree, x, c0, t0, tree.blackHeight);
    tree.shape := ExtractLeaf(tree, x, c, t);
  }

  method ExtractLeaf(tree: RbRoot, x: Link, ghost c: Ctx, ghost t: Tree) returns (ghost w': Tree)
    requires Holds(tree, Plug(c, t)) && RedBlack(Plug(c, t), tree.blackHeight) && IsLeaf(t) && x == t.link
    modifies tree`root, tree`blackHeight, Links(Plug(c, t))
    ensures Holds(tree, w') && RedBlack(w', tree.blackHeight) && x.Zeroed()
    ensures InOrder(w') == Rest(c, t) && Links(w') == Links(Plug(c, t)) - {x}
  {
    ghost var w := DeleteRebalance(tree, x, c, t);
    ghost var d, u := FinishedLeaf(tree, w, x, c, t);
    Unlink(tree, x, d, u);
    w' := Plug(d, Nil);
  }

  lemma SortedRemoveAt(s: seq<Entry>, i: nat)
    requires i < |s| && Sorted(s)
    ensures Sorted(RemoveAt(s, i))
  {
    var r := RemoveAt(s, i);
    assert forall k :: 0 <= k < |r| ==> r[k] == if k < i then s[k] else s[k + 1];
  }

  /** After the repair, cutting the leaf off leaves a red-black tree with the other entries. */
  lemma FinishedLeaf(tree: RbRoot, w: Tree, x: Link, c: Ctx, t: Tree) returns (d: Ctx, u: Tree)
    requires t.Node? && x == t.link && Finished(tree, w, x, Plug(c, t))
    ensures Plug(d, u) == w && IsLeaf(u) && x == u.link
    ensures RedBlack(Plug(d, Nil), tree.blackHeight) && InOrder(Plug(d, Nil)) == Rest(c, t)
    ensures x in Links(w) && Links(Plug(d, Nil)) == CtxLinks(d) == Links(w) - {x}
  {
    LeafInLinks(w, x);
    LocateFinds(w, x, Top);
    LocateLeaf(w, x, Top);
    var position := Locate(w, x, Top);
    d, u := position.0, position.1;
    RestUnique(c, t, d, u);
    RestOfLeaf(d, u);
    DistinctPlug(d, u);
    EraseSubject(d, u, x);
    LinksPlug(d, Nil);
  }
}
