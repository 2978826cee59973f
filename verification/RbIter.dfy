/** Iterators.  Forward and backward movement are mirror images, so both are stated for a direction:
    `Rt` moves to the next entry, `Lt` to the previous one. */
module RbIter {
  import opened RbShape
  import opened RbHeap
  import opened RbBalance
  import RbDelete

  // ----- indices seen from one end -----------------------------------------------------------

  /** Entry number `i` in the given direction. */
  ghost function Nth(dir: Side, s: seq<Entry>, i: nat): Entry
    requires i < |s|
  {
    if dir.Rt? then s[i] else s[|s| - 1 - i]
  }

  /** How many entries come before the subtree at a position. */
  ghost function LowD(dir: Side, c: Ctx): nat { if dir.Rt? then Low(c) else Rear(c) }

  ghost function HighD(dir: Side, c: Ctx, t: Tree): nat { LowD(dir, c) + Size(t) }

  ghost function MidD(dir: Side, c: Ctx, t: Tree): nat
    requires t.Node?
  {
    LowD(dir, c) + Size(Child(t, Opp(dir)))
  }

  lemma MiddleD(dir: Side, c: Ctx, t: Tree)
    requires t.Node?
    ensures var s, m := InOrder(Plug(c, t)), MidD(dir, c, t);
      m < HighD(dir, c, t) <= |s| && Nth(dir, s, m) == Entry(t.link, t.key)
  {
    Middle(c, t);
    SizePlug(c, t);
  }

  lemma DescendD(dir: Side, c: Ctx, t: Tree)
    requires t.Node?
    ensures var d, u := Descend(c, t, Opp(dir)), Child(t, Opp(dir));
      Plug(d, u) == Plug(c, t) && LowD(dir, d) == LowD(dir, c) && HighD(dir, d, u) == MidD(dir, c, t)
    ensures var d, u := Descend(c, t, dir), Child(t, dir);
      Plug(d, u) == Plug(c, t) && LowD(dir, d) == MidD(dir, c, t) + 1 && HighD(dir, d, u) == HighD(dir, c, t)
  {
  }

  /** The same one level up. */
  lemma LiftD(dir: Side, c: Ctx, t: Tree)
    requires c.In?
    ensures Plug(c.up, Lifted(c, t)) == Plug(c, t)
    ensures c.side == dir ==> HighD(dir, c.up, Lifted(c, t)) == HighD(dir, c, t) && LowD(dir, c) > 0 &&
                              MidD(dir, c.up, Lifted(c, t)) == LowD(dir, c) - 1
    ensures c.side != dir ==> MidD(dir, c.up, Lifted(c, t)) == HighD(dir, c, t)
  {
  }

  lemma TotalD(dir: Side, t: Tree)
    ensures HighD(dir, Top, t) == |InOrder(t)|
  {
    SizeInOrder(t);
  }

  /** Locate an entry by its index. */
  lemma PositionOf(tree: RbRoot, dir: Side, x: Link, i: nat) returns (c: Ctx, t: Tree)
    requires tree.Valid() && i < |InOrder(tree.shape)| && Nth(dir, InOrder(tree.shape), i).link == x
    ensures Plug(c, t) == tree.shape && t.Node? && t.link == x && MidD(dir, c, t) == i
  {
    var s := InOrder(tree.shape);
    InOrderLinks(tree.shape);
    LocateFinds(tree.shape, x, Top);
    var position := Locate(tree.shape, x, Top);
    c, t := position.0, position.1;
    MiddleD(dir, c, t);
    var m := MidD(dir, c, t);
    assert Nth(dir, s, m).link == x;
  }

  method Neighbour(tree: RbRoot, start: Link?, dir: Side, ghost i: nat) returns (next: Link?)
    requires tree.Valid()
    requires start != null ==> i < |InOrder(tree.shape)| && Nth(dir, InOrder(tree.shape), i).link == start
    ensures tree.Valid()
    ensures start == null ==> next == null
    ensures start != null ==>
      var s := InOrder(tree.shape);
      next == if i + 1 < |s| then Nth(dir, s, i + 1).link else null
  {
    if start == null {
      return null;
    }
    ghost var c, t := PositionOf(tree, dir, start, i);
    At(tree, c, t);
    MiddleD(dir, c, t);
    if Toward(start, dir) != null {
      next := FirstBelow(tree, start, dir, c, t);
    } else {
      next := FirstAbove(tree, start, dir, c, t);
    }
  }

  /** Descend: the first entry of the subtree on the far side. */
  method FirstBelow(tree: RbRoot, x: Link, dir: Side, ghost c: Ctx, ghost t: Tree) returns (next: Link)
    requires tree.Valid() && Plug(c, t) == tree.shape && t.Node? && x == t.link && Child(t, dir).Node?
    ensures tree.Valid() && MidD(dir, c, t) + 1 < |InOrder(tree.shape)|
    ensures next == Nth(dir, InOrder(tree.shape), MidD(dir, c, t) + 1).link
  {
    ghost var w := tree.shape;
    At(tree, c, t);
    MiddleD(dir, c, t);
    DescendD(dir, c, t);
    ghost var d, u := Descend(c, t, dir), Child(t, dir);
    next := Toward(x, dir);
    At(tree, d, u);
    while Toward(next, Opp(dir)) != null
      invariant Holds(tree, w) && Plug(d, u) == w && u.Node? && next == u.link
      invariant Toward(next, Opp(dir)) == LinkOf(Child(u, Opp(dir)))
      invariant LowD(dir, d) == MidD(dir, c, t) + 1
      decreases u
    {
      DescendD(dir, d, u);
      next := Toward(next, Opp(dir));
      d, u := Descend(d, u, Opp(dir)), Child(u, Opp(dir));
      At(tree, d, u);
    }
    MiddleD(dir, d, u);
  }

  /** Ascend until arriving from the near side. */
  method FirstAbove(tree: RbRoot, x: Link, dir: Side, ghost c: Ctx, ghost t: Tree) returns (next: Link?)
    requires tree.Valid() && Plug(c, t) == tree.shape && t.Node? && x == t.link && Child(t, dir).Nil?
    ensures tree.Valid()
    ensures var s, i := InOrder(tree.shape), MidD(dir, c, t);
      next == if i + 1 < |s| then Nth(dir, s, i + 1).link else null
  {
    ghost var w, s := tree.shape, InOrder(tree.shape);
    ghost var d, u := c, t;
    var last: Link := x;
    next := last.parent;
    At(tree, d, u);
    DescendD(dir, c, t);
    while next != null && Toward(next, Opp(dir)) != last
      invariant Holds(tree, w) && Plug(d, u) == w && u.Node? && last == u.link && next == CtxLink(d)
      invariant d.In? ==> (Toward(next, Opp(dir)) == last) == (d.side != dir)
      invariant HighD(dir, d, u) == MidD(dir, c, t) + 1
      decreases Depth(d)
    {
      LiftD(dir, d, u);
      last := next;
      d, u := d.up, Lifted(d, u);
      At(tree, d, u);
      next := last.parent;
    }
    if next == null {
      TotalD(dir, u);
    } else {
      LiftD(dir, d, u);
      MiddleD(dir, d.up, Lifted(d, u));
    }
  }

  // ----- positioning at a bound --------------------------------------------------------------

  /** The key comes before the bound in the given direction. */
  predicate ShortOf(dir: Side, key: nat, bound: nat) { if dir.Rt? then key < bound else key > bound }

  /** `f` is the number of entries before the bound: entry `f` is the first that reaches it. */
  ghost predicate IsFirst(dir: Side, s: seq<Entry>, bound: nat, f: nat) {
    && f <= |s|
    && (forall i :: 0 <= i < f ==> ShortOf(dir, Nth(dir, s, i).key, bound))
    && (forall i :: f <= i < |s| ==> !ShortOf(dir, Nth(dir, s, i).key, bound))
  }

  lemma FirstExists(dir: Side, s: seq<Entry>, bound: nat) returns (f: nat)
    requires Sorted(s)
    ensures IsFirst(dir, s, bound, f)
  {
    f := 0;
    while f < |s| && ShortOf(dir, Nth(dir, s, f).key, bound)
      invariant f <= |s| && forall i :: 0 <= i < f ==> ShortOf(dir, Nth(dir, s, i).key, bound)
    {
      f := f + 1;
    }
  }

  ghost predicate Within(dir: Side, c: Ctx, t: Tree, f: nat) { LowD(dir, c) <= f <= HighD(dir, c, t) }

  /** The side of a link on which the bound lies. */
  function BoundSide(dir: Side, key: nat, bound: nat): Side {
    if ShortOf(dir, key, bound) then dir else Opp(dir)
  }

  lemma NarrowFirst(dir: Side, c: Ctx, t: Tree, bound: nat, f: nat)
    requires t.Node? && IsFirst(dir, InOrder(Plug(c, t)), bound, f)
    ensures ShortOf(dir, t.key, bound) <==> MidD(dir, c, t) < f
    ensures Within(dir, c, t, f) ==>
      var side := BoundSide(dir, t.key, bound); Within(dir, Descend(c, t, side), Child(t, side), f)
  {
    MiddleD(dir, c, t);
    DescendD(dir, c, t);
  }

  /** What the closest-match descent returns: a match, or a link without a child on the side of the bound. */
  ghost predicate Closest(dir: Side, t: Tree, bound: nat) {
    t.Node? && (t.key == bound || Child(t, BoundSide(dir, t.key, bound)).Nil?)
  }

  method FindClosest(tree: RbRoot, start: Link, dir: Side, bound: nat, ghost c0: Ctx, ghost t0: Tree, ghost f: nat)
    returns (found: Link, ghost c: Ctx, ghost t: Tree)
    requires Holds(tree, Plug(c0, t0)) && t0.Node? && start == t0.link
    requires IsFirst(dir, InOrder(Plug(c0, t0)), bound, f)
    ensures Holds(tree, Plug(c0, t0)) && Plug(c, t) == Plug(c0, t0) && found == LinkOf(t) && Closest(dir, t, bound)
    ensures Within(dir, c0, t0, f) ==> Within(dir, c, t, f)
    ensures Size(t) <= Size(t0) && (IsLeaf(t0) ==> c == c0 && t == t0)
  {
    ghost var w := Plug(c0, t0);
    found, c, t := start, c0, t0;
    At(tree, c, t);
    while found.Key() != bound && Toward(found, BoundSide(dir, found.Key(), bound)) != null
      invariant Holds(tree, w) && Plug(c, t) == w && t.Node? && found == t.link && found.Key() == t.key
      invariant found.left == LinkOf(t.left) && found.right == LinkOf(t.right)
      invariant Within(dir, c0, t0, f) ==> Within(dir, c, t, f)
      invariant Size(t) <= Size(t0) && (IsLeaf(t0) ==> c == c0 && t == t0)
      decreases t
    {
      NarrowFirst(dir, c, t, bound, f);
      var side := BoundSide(dir, found.Key(), bound);
      found := Toward(found, side);
      c, t := Descend(c, t, side), Child(t, side);
      At(tree, c, t);
    }
  }

  /** A link with a child on the near side only. */
  ghost predicate Lopsided(dir: Side, r: Rec) {
    if dir.Rt? then r.left != null && r.right == null else r.right != null && r.left == null
  }

  /** Entry `i` of the tree is lopsided. */
  ghost predicate LopsidedAt(dir: Side, w: Tree, i: nat)
    requires i < |InOrder(w)|
  {
    InOrderLinks(w);
    Lopsided(dir, RecOf(w, null, Nth(dir, InOrder(w), i).link))
  }

  /** The predecessor of the first entry of a subtree has a child on the far side: the subtree is below it. */
  lemma {:induction false} PredecessorAbove(dir: Side, c: Ctx, t: Tree)
    requires Distinct(Plug(c, t)) && t.Node? && LowD(dir, c) > 0
    ensures LowD(dir, c) <= |InOrder(Plug(c, t))|
    ensures !LopsidedAt(dir, Plug(c, t), LowD(dir, c) - 1)
    decreases c
  {
    LiftD(dir, c, t);
    if c.side == dir {
      MiddleD(dir, c.up, Lifted(c, t));
      DistinctPlug(c.up, Lifted(c, t));
      RecPlug(c.up, Lifted(c, t), c.link);
    } else {
      PredecessorAbove(dir, c.up, Lifted(c, t));
    }
  }

  /** Where the descent for a bound stands: around entry `f`, or at the only child of entry `f - 1`. */
  ghost predicate Approach(dir: Side, c: Ctx, t: Tree, bound: nat, f: nat)
    requires t.Node? && f <= |InOrder(Plug(c, t))|
  {
    if Within(dir, c, t, f) then Closest(dir, t, bound)
    else IsLeaf(t) && MidD(dir, c, t) + 2 == f && LopsidedAt(dir, Plug(c, t), f - 1)
  }

  /** Continuing on the near side keeps the approach. */
  lemma ApproachStep(dir: Side, c: Ctx, t: Tree, bound: nat, f: nat, total: int)
    requires Distinct(Plug(c, t)) && RedBlack(Plug(c, t), total) && IsFirst(dir, InOrder(Plug(c, t)), bound, f)
    requires t.Node? && Approach(dir, c, t, bound, f) && Child(t, Opp(dir)).Node?
    ensures var d, u := Descend(c, t, Opp(dir)), Child(t, Opp(dir));
      Within(dir, d, u, f) || (IsLeaf(u) && Approach(dir, d, u, bound, f))
  {
    NarrowFirst(dir, c, t, bound, f);
    DescendD(dir, c, t);
    if MidD(dir, c, t) + 1 == f {
      RedBlackPlug(c, t, total);
      RbDelete.OnlyChild(t, Height(t));
      MiddleD(dir, c, t);
      DistinctPlug(c, t);
      RecPlug(c, t, t.link);
    }
  }

  /** At the end of the descent: which entry the link is, and whether entry `f - 1` is lopsided. */
  lemma ApproachEnd(dir: Side, c: Ctx, t: Tree, bound: nat, f: nat)
    requires Distinct(Plug(c, t)) && IsFirst(dir, InOrder(Plug(c, t)), bound, f)
    requires t.Node? && Approach(dir, c, t, bound, f) && Child(t, Opp(dir)).Nil?
    ensures var s, m := InOrder(Plug(c, t)), MidD(dir, c, t);
      && m < |s| && Nth(dir, s, m) == Entry(t.link, t.key) && (ShortOf(dir, t.key, bound) <==> m < f)
      && if f > 0 && LopsidedAt(dir, Plug(c, t), f - 1) then m + 2 == f
         else m == f || (m + 1 == f && ShortOf(dir, t.key, bound))
  {
    NarrowFirst(dir, c, t, bound, f);
    MiddleD(dir, c, t);
    DescendD(dir, c, t);
    DistinctPlug(c, t);
    RecPlug(c, t, t.link);
    if MidD(dir, c, t) == f && f > 0 {
      PredecessorAbove(dir, c, t);
    }
  }

  /** The two nested descents of the search for a bound. */
  method Descent(tree: RbRoot, root: Link, bound: nat, dir: Side, ghost f: nat)
    returns (at: Link, ghost c: Ctx, ghost t: Tree)
    requires tree.Valid() && root == tree.root && IsFirst(dir, InOrder(tree.shape), bound, f)
    ensures tree.Valid() && Plug(c, t) == tree.shape && t.Node? && at == t.link
    ensures Child(t, Opp(dir)).Nil? && f <= |InOrder(Plug(c, t))| && Approach(dir, c, t, bound, f)
  {
    ghost var w := tree.shape;
    c, t := Top, w;
    TotalD(dir, t);
    at, c, t := FindClosest(tree, root, dir, bound, c, t, f);
    At(tree, c, t);
    while Toward(at, Opp(dir)) != null
      invariant tree.Valid() && tree.shape == w && Plug(c, t) == w && t.Node? && at == t.link
      invariant at.left == LinkOf(t.left) && at.right == LinkOf(t.right)
      invariant Approach(dir, c, t, bound, f)
      decreases Size(t)
    {
      ApproachStep(dir, c, t, bound, f, tree.blackHeight);
      at, c, t := FindClosest(tree, Toward(at, Opp(dir)), dir, bound, Descend(c, t, Opp(dir)), Child(t, Opp(dir)), f);
      At(tree, c, t);
    }
  }

  /** Position at the first entry that reaches the bound (`Rt`: the least key >= bound, `Lt`: the
      greatest key <= bound).  The entry before it is returned instead exactly when that entry has a
      child on the near side and none on the far side. */
  method GotoBound(tree: RbRoot, bound: nat, dir: Side) returns (position: Link?, ghost f: nat)
    requires tree.Valid()
    ensures tree.Valid() && IsFirst(dir, InOrder(tree.shape), bound, f)
    ensures var s := InOrder(tree.shape);
      position == if f > 0 && LopsidedAt(dir, tree.shape, f - 1) then Nth(dir, s, f - 1).link
                  else if f < |s| then Nth(dir, s, f).link
                  else null
  {
    f := FirstExists(dir, InOrder(tree.shape), bound);
    if tree.root == null {
      return null, f;
    }
    ghost var c, t;
    position, c, t := Descent(tree, tree.root, bound, dir, f);
    ApproachEnd(dir, c, t, bound, f);
    At(tree, c, t);
    if ShortOf(dir, position.Key(), bound) {
      position := Neighbour(tree, position, dir, MidD(dir, c, t));
    }
  }

  /** Nothing is before the bound zero, so there the position is exact. */
  lemma ExactAtZero(s: seq<Entry>, f: nat)
    requires IsFirst(Rt, s, 0, f)
    ensures f == 0
  {
    assert f > 0 ==> ShortOf(Rt, Nth(Rt, s, 0).key, 0);
  }
}
