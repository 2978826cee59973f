/** Search, and how deep a tree can be. */
module RbSearch {
  import opened RbShape
  import opened RbHeap

  ghost function Pow2(n: nat): nat { if n == 0 then 1 else 2 * Pow2(n - 1) }

  /** A tree of black height `h` holds at least 2^h - 1 entries. */
  lemma {:induction false} ManyEntries(t: Tree, h: nat)
    requires RedBlack(t, h)
    ensures Size(t) + 1 >= Pow2(h)
    decreases t
  {
    if t.Node? {
      var below := if t.red then h else h - 1;
      HeightUnique(t.left, below);
      ManyEntries(t.left, below);
      ManyEntries(t.right, below);
    }
  }

  /** `steps` links were visited above this position: at most one red for each black, and one more. */
  ghost predicate Walked(c: Ctx, t: Tree, total: int, steps: nat) {
    && RedBlack(t, Height(t)) && (RedAbove(c) ==> !IsRed(t))
    && steps <= 2 * (total - Height(t)) + if RedAbove(c) then 1 else 0
  }

  lemma WalkOn(c: Ctx, t: Tree, side: Side, total: int, steps: nat)
    requires t.Node? && Walked(c, t, total, steps)
    ensures Walked(Descend(c, t, side), Child(t, side), total, steps + 1)
  {
    HeightUnique(Child(t, side), if t.red then Height(t) else Height(t) - 1);
  }

  /** Follow the comparison down the tree.  A match is returned only if it is one; with a comparator
      that guides it is found whenever it exists.  The walk visits at most 2 * blackHeight + 1 links. */
  method Search(tree: RbRoot, key: nat, cmp: Comparator) returns (found: Link?, ghost at: nat, ghost steps: nat)
    requires tree.Valid()
    ensures found != null ==>
      at < |InOrder(tree.shape)| && InOrder(tree.shape)[at].link == found
        && Verdict(cmp, key, InOrder(tree.shape)[at]) == 0
    ensures found == null && Guides(cmp, key, InOrder(tree.shape)) ==>
      forall i :: 0 <= i < |InOrder(tree.shape)| ==> Verdict(cmp, key, InOrder(tree.shape)[i]) != 0
    ensures steps <= 2 * tree.blackHeight + 1
  {
    ghost var w, t, s, c := tree.shape, tree.shape, InOrder(tree.shape), Top;
    var curr := tree.root;
    at, steps := 0, 0;
    HeightUnique(t, tree.blackHeight);
    SizeInOrder(t);
    while curr != null
      invariant Holds(tree, w) && Plug(c, t) == w && curr == LinkOf(t)
      invariant Fits(cmp, key, s, Low(c), High(c, t))
      invariant Walked(c, t, tree.blackHeight, steps)
      decreases t
    {
      At(tree, c, t);
      FitsDescend(cmp, key, c, t);
      WalkOn(c, t, Lt, tree.blackHeight, steps);
      WalkOn(c, t, Rt, tree.blackHeight, steps);
      steps := steps + 1;
      var v := Verdict(cmp, key, Entry(curr, curr.Key()));
      if v == 0 {
        return curr, Mid(c, t), steps;
      }
      var side := if v > 0 then Rt else Lt;
      curr := Toward(curr, side);
      c, t := Descend(c, t, side), Child(t, side);
    }
    return null, 0, steps;
  }

  // ----- membership ----------------------------------------------------------------------------------

  /** The tree that the link is in, if any. */
  ghost predicate Home(x: Link, home: RbRoot?)
    reads x, home, if home == null then {} else Links(home.shape)
  {
    if home == null then x.parent == null else home.Valid() && x in Links(home.shape)
  }

  /** Follow the parents up to the root. */
  method TopOf(x: Link, ghost home: RbRoot?) returns (top: Link)
    requires Home(x, home)
    ensures Home(x, home) && top == if home == null then x else home.root
  {
    top := x;
    ghost var c, t := Top, Nil;
    if home != null {
      LocateFinds(home.shape, x, Top);
      var position := Locate(home.shape, x, Top);
      c, t := position.0, position.1;
      At(home, c, t);
    }
    while top.parent != null
      invariant Home(x, home)
      invariant home == null ==> top == x
      invariant home != null ==> Holds(home, home.shape) && Plug(c, t) == home.shape
      invariant home != null ==> t.Node? && top == t.link && top.parent == CtxLink(c)
      decreases Depth(c)
    {
      c, t := c.up, Lifted(c, t);
      top := top.parent;
      At(home, c, t);
    }
    if home != null {
      At(home, c, t);
    }
  }

  /** A link is a member of a tree exactly if it leads up to its root: also if it may be in another tree. */
  method NodeIsMember(tree: RbRoot, x: Link, ghost home: RbRoot?) returns (yes: bool)
    requires tree.Valid() && Home(x, home) && (home == null ==> x !in Links(tree.shape))
    requires home != null && home != tree ==> Links(home.shape) !! Links(tree.shape)
    ensures tree.Valid() && Home(x, home) && yes == (x in Links(tree.shape))
  {
    RootIsMember(tree);
    if home != null {
      RootIsMember(home);
    }
    assert allocated(Links(tree.shape));
    var top := TopOf(x, home);
    yes := top == tree.root;
  }
}
