/** Repair of the black heights before a black leaf is unlinked. */
module RbBalance {
  import opened RbShape
  import opened RbHeap

  predicate IsLeaf(t: Tree) { t.Node? && t.left.Nil? && t.right.Nil? }

  /** The doomed link `x` is a leaf of `t`. */
  ghost predicate LeafIn(t: Tree, x: Link) {
    t.Node? && if t.link == x then IsLeaf(t) else LeafIn(t.left, x) || LeafIn(t.right, x)
  }

  /** `t` as it will be without the doomed leaf. */
  function Erase(t: Tree, x: Link): Tree {
    if t.Nil? || t.link == x then Nil
    else Node(Erase(t.left, x), t.link, t.key, t.red, Erase(t.right, x))
  }

  lemma {:induction false} EraseAbsent(t: Tree, x: Link)
    requires x !in Links(t)
    ensures Erase(t, x) == t && !LeafIn(t, x)
  {
    if t.Node? {
      EraseAbsent(t.left, x);
      EraseAbsent(t.right, x);
    }
  }

  lemma {:induction false} LeafInLinks(t: Tree, x: Link)
    requires LeafIn(t, x)
    ensures x in Links(t)
  {
    if t.link != x {
      if LeafIn(t.left, x) {
        LeafInLinks(t.left, x);
      } else {
        LeafInLinks(t.right, x);
      }
    }
  }

  /** Erasing below a context that does not hold the link. */
  lemma {:induction false} ErasePlug(c: Ctx, t: Tree, x: Link)
    requires x !in CtxLinks(c) && LeafIn(t, x)
    ensures Erase(Plug(c, t), x) == Plug(c, Erase(t, x)) && LeafIn(Plug(c, t), x)
    decreases c
  {
    if c.In? {
      EraseAbsent(c.other, x);
      ErasePlug(c.up, Lifted(c, t), x);
    }
  }

  // ----- the cases as rewrites of a position -------------------------------------------------

  /** Without the leaf the subject is one black node short of what its context expects. */
  ghost predicate Short(c: Ctx, e: Tree, total: int) {
    && RedBlack(e, Height(e)) && !IsRed(e)
    && RedBlackCtx(c, Height(e) + 1, total)
  }

  /** Black sibling with a red outer child; the inner child is black.  The red outer child may itself
      have a red child: that is the state between the two rotations. */
  ghost predicate FarRed(c: Ctx, e: Tree, total: int) {
    && c.In? && c.other.Node? && !c.other.red
    && RedBlack(e, Height(e)) && !IsRed(e)
    && var near, far, h := Child(c.other, c.side), Child(c.other, Opp(c.side)), Height(e);
       && RedBlack(near, h) && !IsRed(near)
       && IsRed(far) && RedBlack(far.left, h) && RedBlack(far.right, h)
       && (c.red ==> !RedAbove(c.up))
       && RedBlackCtx(c.up, if c.red then h + 1 else h + 2, total)
  }

  /** A short subject below the root has a sibling. */
  lemma SiblingExists(c: Ctx, e: Tree, total: int)
    requires c.In? && (Short(c, e, total) || FarRed(c, e, total))
    ensures c.other.Node?
  {
  }

  lemma RootCase(e: Tree, total: int)
    requires Short(Top, e, total)
    ensures RedBlack(e, total - 1)
  {
  }

  /** Red sibling: it moves above the parent; the subject then has a red parent and a black sibling. */
  function RedSiblingCtx(c: Ctx): Ctx
    requires c.In? && c.other.Node?
  {
    In(c.side, In(c.side, c.up, c.other.link, c.other.key, c.red, Child(c.other, Opp(c.side))),
       c.link, c.key, c.other.red, Child(c.other, c.side))
  }

  lemma RedSiblingCase(c: Ctx, t: Tree, e: Tree, total: int)
    requires c.In? && Short(c, e, total) && IsRed(c.other)
    ensures Short(RedSiblingCtx(c), e, total) && RedSiblingCtx(c).red && !c.red
    ensures Plug(RedSiblingCtx(c), t) == Plug(c.up, Promoted(Opp(c.side), Lifted(c, t)))
  {
    var c', h := RedSiblingCtx(c), Height(e);
    assert RedBlackCtx(c.up, h + 2, total);
    assert RedBlackCtx(c'.up, h + 1, total);
    assert Plug(c', t) == Plug(c'.up, Lifted(c', t)) == Plug(c.up, Lifted(c'.up, Lifted(c', t)));
  }

  /** Red inner nephew: it moves above the sibling. */
  function NearRedCtx(c: Ctx): Ctx
    requires c.In? && c.other.Node? && Child(c.other, c.side).Node?
  {
    c.(other := Promoted(c.side, c.other))
  }

  lemma NearRedCase(c: Ctx, e: Tree, total: int)
    requires c.In? && Short(c, e, total) && c.other.Node? && !c.other.red && IsRed(Child(c.other, c.side))
    ensures FarRed(NearRedCtx(c), e, total)
  {
    var h, near := Height(e), Child(c.other, c.side);
    assert RedBlack(near, h) && RedBlack(Child(c.other, Opp(c.side)), h);
    assert RedBlack(Child(near, c.side), h) && RedBlack(Child(near, Opp(c.side)), h);
  }

  lemma NotNearRed(c: Ctx, e: Tree, total: int)
    requires c.In? && Short(c, e, total) && c.other.Node? && !c.other.red
    requires !IsRed(Child(c.other, c.side)) && IsRed(Child(c.other, Opp(c.side)))
    ensures FarRed(c, e, total)
  {
    assert RedBlack(Child(c.other, Opp(c.side)), Height(e));
  }

  /** Red outer nephew: the sibling takes the place and colour of the parent, the nephew turns black. */
  function FarRedTree(c: Ctx, t: Tree): Tree
    requires c.In? && c.other.Node?
  {
    Join(c.side, Join(c.side, t, c.link, c.key, c.other.red, Child(c.other, c.side)),
         c.other.link, c.other.key, c.red, Paint(Child(c.other, Opp(c.side)), false))
  }

  lemma FarRedCase(c: Ctx, e: Tree, total: int)
    requires FarRed(c, e, total)
    ensures RedBlack(Plug(c.up, FarRedTree(c, e)), total)
  {
    var h, far, r := Height(e), Child(c.other, Opp(c.side)), FarRedTree(c, e);
    assert RedBlack(Paint(far, false), h + 1);
    assert RedBlack(Child(r, c.side), h + 1);
    HeightUnique(r, if c.red then h + 1 else h + 2);
    RedBlackPlug(c.up, r, total);
  }

  /** Black sibling and nephews: the sibling turns red.  A red parent turns black and all is well;
      a black one becomes the next subject. */
  function SiblingRedTree(c: Ctx, t: Tree): Tree
    requires c.In?
  {
    Join(c.side, t, c.link, c.key, false, Paint(c.other, true))
  }

  lemma SiblingRedCase(c: Ctx, e: Tree, total: int)
    requires c.In? && Short(c, e, total) && c.other.Node? && !c.other.red
    requires !IsRed(c.other.left) && !IsRed(c.other.right)
    ensures c.red ==> RedBlack(Plug(c.up, SiblingRedTree(c, e)), total)
    ensures !c.red ==> Short(c.up, SiblingRedTree(c, e), total)
  {
    var h, r := Height(e), SiblingRedTree(c, e);
    assert RedBlack(Paint(c.other, true), h);
    assert RedBlack(r, h + 1);
    HeightUnique(r, h + 1);
    RedBlackPlug(c.up, r, total);
  }

  // ----- the cases in memory ---------------------------------------------------------------

  /** Promote the sibling above the parent. */
  method SiblingUp(tree: RbRoot, parent: Link, sibling: Link, side: Side, ghost c: Ctx, ghost t: Tree)
    requires Holds(tree, Plug(c, t)) && c.In? && c.other.Node?
    requires parent == c.link && sibling == c.other.link && side == c.side
    modifies tree`root, Links(Plug(c, t))
    ensures Holds(tree, Plug(RedSiblingCtx(c), t)) && SameContents(Plug(c, t), Plug(RedSiblingCtx(c), t))
  {
    ghost var p, c' := Lifted(c, t), RedSiblingCtx(c);
    assert Plug(c', t) == Plug(c'.up, Lifted(c', t)) == Plug(c.up, Promoted(Opp(c.side), p));
    PromotedContents(Opp(c.side), p);
    SameContentsPlug(c.up, p, Promoted(Opp(c.side), p));
    Promote(tree, parent, sibling, Opp(side), c.up, p);
  }

  method NearRedStep(tree: RbRoot, sibling: Link, nephew: Link, side: Side, ghost c: Ctx, ghost t: Tree)
    requires Holds(tree, Plug(c, t)) && c.In? && c.other.Node? && Child(c.other, c.side).Node?
    requires sibling == c.other.link && nephew == Child(c.other, c.side).link && side == c.side
    modifies tree`root, Links(Plug(c, t))
    ensures Holds(tree, Plug(NearRedCtx(c), t)) && SameContents(Plug(c, t), Plug(NearRedCtx(c), t))
  {
    ghost var d := In(Opp(c.side), c.up, c.link, c.key, c.red, t);
    assert Lifted(c, t) == Lifted(d, c.other);
    assert Lifted(NearRedCtx(c), t) == Lifted(d, Promoted(c.side, c.other));
    PromotedContents(c.side, c.other);
    SameContentsPlug(d, c.other, Promoted(c.side, c.other));
    Promote(tree, sibling, nephew, side, d, c.other);
  }

  method FarRedStep(tree: RbRoot, parent: Link, sibling: Link, nephew: Link, side: Side, ghost c: Ctx, ghost t: Tree)
    requires Holds(tree, Plug(c, t)) && c.In? && c.other.Node? && Child(c.other, Opp(c.side)).Node?
    requires parent == c.link && sibling == c.other.link && nephew == Child(c.other, Opp(c.side)).link && side == c.side
    modifies tree`root, Links(Plug(c, t))
    ensures Holds(tree, Plug(c.up, FarRedTree(c, t))) && SameContents(Plug(c, t), Plug(c.up, FarRedTree(c, t)))
  {
    ghost var c', far := RedSiblingCtx(c), Child(c.other, Opp(c.side));
    ghost var d := In(Opp(c.side), c.up, c.other.link, c.other.key, c.red, Lifted(c', t));
    assert Plug(c', t) == Plug(c'.up, Lifted(c', t));
    assert Lifted(c'.up, Lifted(c', t)) == Lifted(d, far);
    assert FarRedTree(c, t) == Lifted(d, Paint(far, false));
    SiblingUp(tree, parent, sibling, side, c, t);
    LinksPlug(d, far);
    PaintContents(d, far, false);
    PaintAt(tree, nephew, false, d, far);
  }

  method SiblingRedStep(tree: RbRoot, parent: Link, sibling: Link, ghost c: Ctx, ghost t: Tree)
    requires Holds(tree, Plug(c, t)) && c.In? && c.other.Node? && parent == c.link && sibling == c.other.link
    modifies parent`keyAndColor, sibling`keyAndColor
    ensures Holds(tree, Plug(c.up, SiblingRedTree(c, t))) && SameContents(Plug(c, t), Plug(c.up, SiblingRedTree(c, t)))
  {
    ghost var p := Lifted(c, t);
    PaintContents(c.up, p, false);
    At(tree, c.up, p);
    if parent.IsRed() {
      PaintAt(tree, parent, false, c.up, p);
    }
    ghost var d := In(Opp(c.side), c.up, c.link, c.key, false, t);
    assert Paint(p, false) == Lifted(d, c.other) && SiblingRedTree(c, t) == Lifted(d, Paint(c.other, true));
    PaintContents(d, c.other, true);
    PaintAt(tree, sibling, true, d, c.other);
  }

  predicate RedLink(n: Link?)
    reads n
  {
    n != null && n.IsRed()
  }

  /** What the code reads to tell the cases apart. */
  lemma Relatives(tree: RbRoot, c: Ctx, t: Tree)
    requires Holds(tree, Plug(c, t)) && t.Node? && c.In? && c.other.Node?
    ensures t.link.parent == c.link && (c.link.left == t.link) == c.side.Lt?
    ensures c.link.IsRed() == c.red
    ensures Toward(c.link, Opp(c.side)) == c.other.link && c.other.link.IsRed() == c.other.red
    ensures var near, far := Child(c.other, c.side), Child(c.other, Opp(c.side));
      && Toward(c.other.link, c.side) == LinkOf(near) && RedLink(LinkOf(near)) == IsRed(near)
      && Toward(c.other.link, Opp(c.side)) == LinkOf(far) && RedLink(LinkOf(far)) == IsRed(far)
  {
    var d := In(Opp(c.side), c.up, c.link, c.key, c.red, t);
    assert Plug(d, c.other) == Plug(c, t);
    At(tree, c, t);
    At(tree, d, c.other);
    var near, far := Child(c.other, c.side), Child(c.other, Opp(c.side));
    assert Plug(Descend(d, c.other, c.side), near) == Plug(c, t);
    assert Plug(Descend(d, c.other, Opp(c.side)), far) == Plug(c, t);
    At(tree, Descend(d, c.other, c.side), near);
    At(tree, Descend(d, c.other, Opp(c.side)), far);
    assert c.other.link in Links(c.other);
  }

  /** State of the loop: the subject is short, possibly with the outer nephew made ready. */
  ghost predicate Pending(c: Ctx, t: Tree, x: Link, total: int, ready: bool) {
    && LeafIn(t, x)
    && if ready then FarRed(c, Erase(t, x), total) else Short(c, Erase(t, x), total)
  }

  /** The repair is finished: without the doomed leaf the whole tree is red-black. */
  ghost predicate Finished(tree: RbRoot, w: Tree, x: Link, w0: Tree)
    reads tree`root, tree`blackHeight, Links(w)
  {
    Holds(tree, w) && LeafIn(w, x) && RedBlack(Erase(w, x), tree.blackHeight) && SameContents(w0, w)
  }

  ghost function Climbs(c: Ctx): nat { if RedAbove(c) then 0 else Depth(c) + 1 }

  lemma EraseSubject(c: Ctx, t: Tree, x: Link)
    requires Separate(c, t) && LeafIn(t, x)
    ensures x !in CtxLinks(c) && Erase(Plug(c, t), x) == Plug(c, Erase(t, x)) && LeafIn(Plug(c, t), x)
    ensures c.In? ==> Erase(c.other, x) == c.other && c.link != x && x !in Links(c.other)
  {
    LeafInLinks(t, x);
    ErasePlug(c, t, x);
    if c.In? {
      EraseAbsent(c.other, x);
    }
  }

  lemma EraseFarRed(c: Ctx, t: Tree, x: Link)
    requires Separate(c, t) && LeafIn(t, x) && c.In? && c.other.Node?
    ensures Erase(FarRedTree(c, t), x) == FarRedTree(c, Erase(t, x)) && LeafIn(FarRedTree(c, t), x)
  {
    EraseSubject(c, t, x);
    assert Erase(Paint(Child(c.other, Opp(c.side)), false), x) == Paint(Child(c.other, Opp(c.side)), false);
    var low := Join(c.side, t, c.link, c.key, c.other.red, Child(c.other, c.side));
    assert LeafIn(low, x);
  }

  lemma EraseSiblingRed(c: Ctx, t: Tree, x: Link)
    requires Separate(c, t) && LeafIn(t, x) && c.In?
    ensures Erase(SiblingRedTree(c, t), x) == SiblingRedTree(c, Erase(t, x)) && LeafIn(SiblingRedTree(c, t), x)
  {
    EraseSubject(c, t, x);
    assert Erase(Paint(c.other, true), x) == Paint(c.other, true);
  }

  method FarRedTurn(tree: RbRoot, parent: Link, sibling: Link, nephew: Link, side: Side,
                    ghost c: Ctx, ghost t: Tree, ghost x: Link)
    returns (ghost w: Tree)
    requires Holds(tree, Plug(c, t)) && Pending(c, t, x, tree.blackHeight, true)
    requires parent == c.link && sibling == c.other.link && nephew == Child(c.other, Opp(c.side)).link && side == c.side
    modifies tree`root, Links(Plug(c, t))
    ensures Finished(tree, w, x, Plug(c, t))
  {
    DistinctPlug(c, t);
    EraseSubject(c, t, x);
    EraseFarRed(c, t, x);
    ErasePlug(c.up, FarRedTree(c, t), x);
    FarRedCase(c, Erase(t, x), tree.blackHeight);
    FarRedStep(tree, parent, sibling, nephew, side, c, t);
    w := Plug(c.up, FarRedTree(c, t));
  }

  method RedParentTurn(tree: RbRoot, parent: Link, sibling: Link, ghost c: Ctx, ghost t: Tree, ghost x: Link)
    returns (ghost w: Tree)
    requires Holds(tree, Plug(c, t)) && Pending(c, t, x, tree.blackHeight, false) && RedAbove(c)
    requires c.other.Node? && !c.other.red && !IsRed(c.other.left) && !IsRed(c.other.right)
    requires parent == c.link && sibling == c.other.link
    modifies parent`keyAndColor, sibling`keyAndColor
    ensures Finished(tree, w, x, Plug(c, t))
  {
    DistinctPlug(c, t);
    EraseSubject(c, t, x);
    EraseSiblingRed(c, t, x);
    ErasePlug(c.up, SiblingRedTree(c, t), x);
    SiblingRedCase(c, Erase(t, x), tree.blackHeight);
    SiblingRedStep(tree, parent, sibling, c, t);
    w := Plug(c.up, SiblingRedTree(c, t));
  }

  method ClimbTurn(tree: RbRoot, parent: Link, sibling: Link, ghost c: Ctx, ghost t: Tree, ghost x: Link)
    requires Holds(tree, Plug(c, t)) && Pending(c, t, x, tree.blackHeight, false) && c.In? && !c.red
    requires c.other.Node? && !c.other.red && !IsRed(c.other.left) && !IsRed(c.other.right)
    requires parent == c.link && sibling == c.other.link
    modifies parent`keyAndColor, sibling`keyAndColor
    ensures Holds(tree, Plug(c.up, SiblingRedTree(c, t)))
    ensures Pending(c.up, SiblingRedTree(c, t), x, tree.blackHeight, false)
    ensures SameContents(Plug(c, t), Plug(c.up, SiblingRedTree(c, t)))
  {
    DistinctPlug(c, t);
    EraseSiblingRed(c, t, x);
    SiblingRedCase(c, Erase(t, x), tree.blackHeight);
    SiblingRedStep(tree, parent, sibling, c, t);
  }

  method RedSiblingTurn(tree: RbRoot, parent: Link, sibling: Link, side: Side, ghost c: Ctx, ghost t: Tree,
                        ghost x: Link)
    requires Holds(tree, Plug(c, t)) && Pending(c, t, x, tree.blackHeight, false) && c.In? && IsRed(c.other)
    requires parent == c.link && sibling == c.other.link && side == c.side
    modifies tree`root, Links(Plug(c, t))
    ensures Holds(tree, Plug(RedSiblingCtx(c), t)) && Pending(RedSiblingCtx(c), t, x, tree.blackHeight, false)
    ensures SameContents(Plug(c, t), Plug(RedSiblingCtx(c), t)) && RedAbove(RedSiblingCtx(c)) && !RedAbove(c)
  {
    RedSiblingCase(c, t, Erase(t, x), tree.blackHeight);
    SiblingUp(tree, parent, sibling, side, c, t);
  }

  method NearRedTurn(tree: RbRoot, sibling: Link, nephew: Link, side: Side, ghost c: Ctx, ghost t: Tree, ghost x: Link)
    requires Holds(tree, Plug(c, t)) && Pending(c, t, x, tree.blackHeight, false) && c.In?
    requires c.other.Node? && !c.other.red && IsRed(Child(c.other, c.side))
    requires sibling == c.other.link && nephew == Child(c.other, c.side).link && side == c.side
    modifies tree`root, Links(Plug(c, t))
    ensures Holds(tree, Plug(NearRedCtx(c), t)) && Pending(NearRedCtx(c), t, x, tree.blackHeight, true)
    ensures SameContents(Plug(c, t), Plug(NearRedCtx(c), t))
  {
    NearRedCase(c, Erase(t, x), tree.blackHeight);
    NearRedStep(tree, sibling, nephew, side, c, t);
  }

  /** One turn of the repair loop, for a subject below the root.  It either finishes the repair or
      yields a position that has fewer turns ahead of it. */
  method DeleteTurn(tree: RbRoot, node: Link, ghost c: Ctx, ghost t: Tree, ghost x: Link, ghost ready: bool)
    returns (done: bool, next: Link, ghost c': Ctx, ghost t': Tree, ghost ready': bool, ghost w: Tree)
    requires Holds(tree, Plug(c, t)) && c.In? && node == LinkOf(t) && Pending(c, t, x, tree.blackHeight, ready)
    modifies tree`root, Links(Plug(c, t))
    ensures done ==> Finished(tree, w, x, Plug(c, t))
    ensures !done ==>
      && Holds(tree, Plug(c', t')) && next == LinkOf(t') && Pending(c', t', x, tree.blackHeight, ready')
      && SameContents(Plug(c, t), Plug(c', t'))
      && (Climbs(c') < Climbs(c) || (Climbs(c') == Climbs(c) && !ready && ready'))
  {
    SiblingExists(c, Erase(t, x), tree.blackHeight);
    Relatives(tree, c, t);
    LinksPlug(c, t);
    done, next, c', t', ready', w := false, node, c, t, ready, t;
    var parent := node.parent;
    var side := if parent.left == node then Lt else Rt;
    var sibling := Toward(parent, Opp(side));
    var close, distant := Toward(sibling, side), Toward(sibling, Opp(side));
    if sibling.IsRed() {
      RedSiblingTurn(tree, parent, sibling, side, c, t, x);
      c' := RedSiblingCtx(c);
    } else if RedLink(close) {
      NearRedTurn(tree, sibling, close, side, c, t, x);
      c', ready' := NearRedCtx(c), true;
    } else if RedLink(distant) {
      if !ready { NotNearRed(c, Erase(t, x), tree.blackHeight); }
      w := FarRedTurn(tree, parent, sibling, distant, side, c, t, x);
      done := true;
    } else if parent.IsRed() {
      w := RedParentTurn(tree, parent, sibling, c, t, x);
      done := true;
    } else {
      ClimbTurn(tree, parent, sibling, c, t, x);
      next, c', t' := parent, c.up, SiblingRedTree(c, t);
    }
  }

  /** Repair the heights in anticipation of the removal of leaf `x`. */
  method DeleteRebalance(tree: RbRoot, x: Link, ghost c0: Ctx, ghost t0: Tree) returns (ghost w: Tree)
    requires Holds(tree, Plug(c0, t0)) && RedBlack(Plug(c0, t0), tree.blackHeight) && IsLeaf(t0) && x == t0.link
    modifies tree`root, tree`blackHeight, Links(Plug(c0, t0))
    ensures Finished(tree, w, x, Plug(c0, t0))
  {
    At(tree, c0, t0);
    RedBlackPlug(c0, t0, tree.blackHeight);
    if x.IsRed() {
      EraseSubject(c0, t0, x);
      RedBlackPlug(c0, Nil, tree.blackHeight);
      return Plug(c0, t0);
    }
    w := ClimbOut(tree, x, c0, t0);
  }

  /** The loop: every turn finishes, gets ready to finish, or climbs. */
  method ClimbOut(tree: RbRoot, x: Link, ghost c0: Ctx, ghost t0: Tree) returns (ghost w: Tree)
    requires Holds(tree, Plug(c0, t0)) && IsLeaf(t0) && x == t0.link && x.parent == CtxLink(c0)
    requires Pending(c0, t0, x, tree.blackHeight, false)
    modifies tree`root, tree`blackHeight, Links(Plug(c0, t0))
    ensures Finished(tree, w, x, Plug(c0, t0))
  {
    var node: Link := x;
    ghost var c, t, ready := c0, t0, false;
    while node.parent != null
      invariant Holds(tree, Plug(c, t)) && node == LinkOf(t) && node.parent == CtxLink(c)
      invariant Pending(c, t, x, tree.blackHeight, ready)
      invariant SameContents(Plug(c0, t0), Plug(c, t))
      decreases Climbs(c), if ready then 0 else 1
    {
      var done;
      done, node, c, t, ready, w := DeleteTurn(tree, node, c, t, x, ready);
      if done {
        return;
      }
      At(tree, c, t);
    }
    RootCase(Erase(t, x), tree.blackHeight);
    tree.blackHeight := tree.blackHeight - 1;
    w := t;
  }
}
