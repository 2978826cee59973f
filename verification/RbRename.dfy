/** Two links trade places in the tree; colours stay with the places, keys go with the links. */
module RbRename {
  import opened RbShape
  import opened RbHeap

  datatype Swap = Swap(x: Link, kx: nat, y: Link, ky: nat)

  function Other(w: Swap, z: Link?): Link? {
    if z == w.x then w.y else if z == w.y then w.x else z
  }

  function OtherLink(w: Swap, z: Link): Link {
    if z == w.x then w.y else if z == w.y then w.x else z
  }

  function OtherEntry(w: Swap, e: Entry): Entry {
    if e.link == w.x then Entry(w.y, w.ky) else if e.link == w.y then Entry(w.x, w.kx) else e
  }

  function Swapped(w: Swap, t: Tree): Tree {
    if t.Nil? then Nil
    else
      var e := OtherEntry(w, Entry(t.link, t.key));
      Node(Swapped(w, t.left), e.link, e.key, t.red, Swapped(w, t.right))
  }

  function SwappedCtx(w: Swap, c: Ctx): Ctx {
    if c.Top? then Top
    else
      var e := OtherEntry(w, Entry(c.link, c.key));
      In(c.side, SwappedCtx(w, c.up), e.link, e.key, c.red, Swapped(w, c.other))
  }

  /** The fields expected at the place of `z` after the exchange, given those before. */
  ghost function SwappedRec(w: Swap, z: Link, r: Rec): Rec {
    var word := if z == w.x then Pack(w.ky, r.keyAndColor % 2 == 1)
                else if z == w.y then Pack(w.kx, r.keyAndColor % 2 == 1)
                else r.keyAndColor;
    Rec(word, Other(w, r.left), Other(w, r.right), Other(w, r.parent))
  }

  lemma {:induction false} SwappedPlug(w: Swap, c: Ctx, t: Tree)
    ensures Swapped(w, Plug(c, t)) == Plug(SwappedCtx(w, c), Swapped(w, t))
    decreases c
  {
    if c.In? {
      SwappedPlug(w, c.up, Lifted(c, t));
    }
  }

  lemma {:induction false} SwappedRedBlack(w: Swap, t: Tree, h: int)
    ensures RedBlack(Swapped(w, t), h) <==> RedBlack(t, h)
    decreases t
  {
    if t.Node? {
      var below := if t.red then h else h - 1;
      SwappedRedBlack(w, t.left, below);
      SwappedRedBlack(w, t.right, below);
    }
  }

  lemma {:induction false} SwappedLinks(w: Swap, t: Tree)
    ensures forall z :: z in Links(Swapped(w, t)) <==> OtherLink(w, z) in Links(t)
  {
    if t.Node? {
      SwappedLinks(w, t.left);
      SwappedLinks(w, t.right);
    }
  }

  lemma {:induction false} SwappedDistinct(w: Swap, t: Tree)
    requires Distinct(t)
    ensures Distinct(Swapped(w, t))
  {
    if t.Node? {
      SwappedDistinct(w, t.left);
      SwappedDistinct(w, t.right);
      SwappedLinks(w, t.left);
      SwappedLinks(w, t.right);
      forall z | z in Links(Swapped(w, t.left)) ensures z !in Links(Swapped(w, t.right)) {
        assert OtherLink(w, z) in Links(t.left);
      }
    }
  }

  lemma {:induction false} SwappedInOrder(w: Swap, t: Tree)
    ensures |InOrder(Swapped(w, t))| == |InOrder(t)|
    ensures forall i :: 0 <= i < |InOrder(t)| ==> InOrder(Swapped(w, t))[i] == OtherEntry(w, InOrder(t)[i])
  {
    if t.Node? {
      SwappedInOrder(w, t.left);
      SwappedInOrder(w, t.right);
    }
  }

  lemma {:induction false} RecSwapped(w: Swap, t: Tree, p: Link?, z: Link)
    requires Distinct(t) && z in Links(t)
    ensures OtherLink(w, z) in Links(Swapped(w, t))
    ensures RecOf(Swapped(w, t), Other(w, p), OtherLink(w, z)) == SwappedRec(w, z, RecOf(t, p, z))
    decreases t
  {
    SwappedLinks(w, t);
    if z != t.link {
      SwappedLinks(w, t.left);
      SwappedDistinct(w, t);
      if z in Links(t.left) {
        RecSwapped(w, t.left, t.link, z);
      } else {
        RecSwapped(w, t.right, t.link, z);
      }
    }
  }

  // ----- in memory -------------------------------------------------------------------------

  /** The reference to `x` in its parent `p`, or in the tree, becomes a reference to `y`. */
  method ReplaceRef(tree: RbRoot, p: Link?, x: Link, y: Link)
    modifies tree`root, Only(p)`left, Only(p)`right
    ensures tree.root == if p == null then y else old(tree.root)
    ensures p != null ==> p.left == (if old(p.left) == x then y else old(p.left))
    ensures p != null ==> p.right == (if old(p.left) == x then old(p.right) else y)
  {
    if p == null {
      tree.root := y;
    } else if p.left == x {
      p.left := y;
    } else {
      p.right := y;
    }
  }

  ghost function Only(n: Link?): set<Link> { if n == null then {} else {n} }

  /** `l` and `r` become the children of `p`. */
  method Adopt(p: Link, l: Link?, r: Link?)
    modifies p`left, p`right, Only(l)`parent, Only(r)`parent
    ensures p.left == l && p.right == r
    ensures (l != null ==> l.parent == p) && (r != null ==> r.parent == p)
  {
    p.left := l;
    if l != null {
      l.parent := p;
    }
    p.right := r;
    if r != null {
      r.parent := p;
    }
  }

  method SwapParentAndChild(tree: RbRoot, parent: Link, child: Link, s: Side,
                            grandparent: Link?, left: Link?, right: Link?, sibling: Link?, ghost all: set<Link>)
    requires parent in all && child in all && parent != child
    requires grandparent == parent.parent && left == child.left && right == child.right
    requires Toward(parent, s) == child && Toward(parent, Opp(s)) == sibling
    requires grandparent != null ==> grandparent in all && grandparent !in {parent, child, left, right, sibling}
    requires left != null ==> left in all && left !in {parent, child, right, sibling}
    requires right != null ==> right in all && right !in {parent, child, sibling}
    requires sibling != null ==> sibling in all && sibling !in {parent, child}
    modifies tree`root, all`left, all`right, all`parent
    ensures tree.root == if grandparent == null then child else old(tree.root)
    ensures parent.left == left && parent.right == right && parent.parent == child
    ensures Toward(child, s) == parent && Toward(child, Opp(s)) == sibling && child.parent == grandparent
    ensures forall z :: z in all && z !in {parent, child} ==>
      && z.left == (if z == grandparent && old(z.left) == parent then child else old(z.left))
      && z.right == (if z == grandparent && old(z.left) != parent then child else old(z.right))
      && z.parent == (if z in {left, right} then parent else if z == sibling then child else old(z.parent))
  {
    assert allocated(all);
    ReplaceRef(tree, grandparent, parent, child);
    child.parent := grandparent;
    Adopt(parent, left, right);
    if s.Lt? {
      Adopt(child, parent, sibling);
    } else {
      Adopt(child, sibling, parent);
    }
  }

  method ExchangeRefs(tree: RbRoot, x: Link, y: Link, px: Link?, py: Link)
    requires x != y && px !in {x, y, py} && py !in {x, y}
    modifies tree`root, Only(px)`left, Only(px)`right, py`left, py`right, x`parent, y`parent
    ensures tree.root == if px == null then y else old(tree.root)
    ensures px != null ==> px.left == (if old(px.left) == x then y else old(px.left))
    ensures px != null ==> px.right == (if old(px.left) == x then old(px.right) else y)
    ensures py.left == (if old(py.left) == y then x else old(py.left))
    ensures py.right == (if old(py.left) == y then old(py.right) else x)
    ensures x.parent == py && y.parent == px
  {
    ReplaceRef(tree, px, x, y);
    ReplaceRef(tree, py, y, x);
    x.parent, y.parent := py, px;
  }

  /** Exchange `x` with `y`, which stands below it but is not its child. */
  method SwapDistantNodes(tree: RbRoot, x: Link, y: Link, px: Link?, py: Link,
                          xl: Link?, xr: Link?, yl: Link?, yr: Link?, ghost all: set<Link>)
    requires x in all && y in all && x != y
    requires px == x.parent && xl == x.left && xr == x.right && py == y.parent && yl == y.left && yr == y.right
    requires px != null ==> px in all && px !in {x, y, py, xl, xr, yl, yr}
    requires py in all && py !in {x, y, yl, yr}
    requires xl != null ==> xl in all && xl !in {x, y, xr, yl, yr}
    requires xr != null ==> xr in all && xr !in {x, y, yl, yr}
    requires yl != null ==> yl in all && yl !in {x, y, yr}
    requires yr != null ==> yr in all && yr !in {x, y}
    modifies tree`root, all`left, all`right, all`parent
    ensures tree.root == if px == null then y else old(tree.root)
    ensures x.left == yl && x.right == yr && x.parent == py
    ensures y.left == xl && y.right == xr && y.parent == px
    ensures forall z :: z in all && z !in {x, y} ==>
      && z.left == (if z == px && old(z.left) == x then y else if z == py && old(z.left) == y then x else old(z.left))
      && z.right == (if z == px && old(z.left) != x then y else if z == py && old(z.left) != y then x else old(z.right))
      && z.parent == (if z in {yl, yr} then x else if z in {xl, xr} then y else old(z.parent))
  {
    assert allocated(all);
    ExchangeRefs(tree, x, y, px, py);
    Adopt(x, yl, yr);
    Adopt(y, xl, xr);
  }

  // ----- the exchange of a tree ------------------------------------------------------------

  /** Everything the memory must satisfy to hold the exchanged tree. */
  ghost predicate HoldsSwapped(w: Swap, tree: RbRoot, t: Tree)
    reads tree`root, Links(t)
    requires w.x in Links(t) && w.y in Links(t)
  {
    && tree.root == Other(w, LinkOf(t))
    && forall z :: z in Links(t) ==> Fields(OtherLink(w, z)) == SwappedRec(w, z, RecOf(t, null, z))
  }

  lemma HoldsSwappedTree(w: Swap, tree: RbRoot, t: Tree)
    requires w.x in Links(t) && w.y in Links(t) && Distinct(t) && HoldsSwapped(w, tree, t)
    ensures Holds(tree, Swapped(w, t)) && Links(Swapped(w, t)) == Links(t)
  {
    SwappedDistinct(w, t);
    SwappedLinks(w, t);
    var after := Links(Swapped(w, t));
    forall z: Link | z in after ensures z in Links(t) {
      assert OtherLink(w, z) in Links(t);
    }
    forall z: Link | z in Links(t) ensures z in after {
      assert OtherLink(w, z) in Links(t);
    }
    assert after == Links(t);
    forall z | z in Links(Swapped(w, t)) ensures Fields(z) == RecOf(Swapped(w, t), null, z) {
      RecSwapped(w, t, null, OtherLink(w, z));
    }
  }

  // ----- pointers of a tree go both ways ---------------------------------------------------

  lemma {:induction false} ChildPointsBack(t: Tree, p: Link?, z: Link, n: Link)
    requires Distinct(t) && z in Links(t) && p !in Links(t)
    requires RecOf(t, p, z).left == n || RecOf(t, p, z).right == n
    ensures n in Links(t) && n != z && RecOf(t, p, n).parent == z
    ensures RecOf(t, p, z).left != RecOf(t, p, z).right
    decreases t
  {
    assert LinkOf(t.left) in Links(t.left) + {null} && LinkOf(t.right) in Links(t.right) + {null};
    if z != t.link {
      if z in Links(t.left) {
        ChildPointsBack(t.left, t.link, z, n);
      } else {
        ChildPointsBack(t.right, t.link, z, n);
      }
    }
  }

  lemma {:induction false} ParentPointsBack(t: Tree, p: Link?, z: Link)
    requires Distinct(t) && z in Links(t) && p !in Links(t)
    ensures z == t.link ==> RecOf(t, p, z).parent == p
    ensures z != t.link ==> var n := RecOf(t, p, z).parent;
      n in Links(t) && n != z && (RecOf(t, p, n).left == z || RecOf(t, p, n).right == z)
    decreases t
  {
    if z != t.link {
      if z in Links(t.left) {
        ParentPointsBack(t.left, t.link, z);
      } else {
        ParentPointsBack(t.right, t.link, z);
      }
    }
  }

  /** Which links refer to `n`: its parent and its children. */
  lemma Referrers(tree: RbRoot, t: Tree, n: Link)
    requires Holds(tree, t) && n in Links(t)
    ensures forall z :: z in Links(t) && (z.left == n || z.right == n) ==> n.parent == z && z.left != z.right
    ensures forall z :: z in Links(t) && z.parent == n ==> n.left == z || n.right == z
    ensures n.parent == null <==> tree.root == n
    ensures n.parent != null ==> n.parent in Links(t) && (n.parent.left == n || n.parent.right == n)
    ensures n.left != null ==> n.left in Links(t) && n.left.parent == n && n.left != n
    ensures n.right != null ==> n.right in Links(t) && n.right.parent == n && n.right != n
    ensures n.left != null ==> n.left != n.right
  {
    forall z | z in Links(t) && (z.left == n || z.right == n) ensures n.parent == z && z.left != z.right {
      ChildPointsBack(t, null, z, n);
    }
    forall z | z in Links(t) && z.parent == n ensures n.left == z || n.right == z {
      ParentPointsBack(t, null, z);
    }
    ParentPointsBack(t, null, n);
    if n.left != null {
      ChildPointsBack(t, null, n, n.left);
    }
    if n.right != null {
      ChildPointsBack(t, null, n, n.right);
    }
  }

  /** The links around `x` and a link `y` below it. */
  lemma Neighbours(tree: RbRoot, c: Ctx, tx: Tree, d: Ctx, u: Tree)
    requires Holds(tree, Plug(c, tx)) && Plug(d, u) == Plug(c, tx) && tx.Node? && u.Node?
    requires u.link in Links(tx) && u.link != tx.link
    ensures var x, y, all := tx.link, u.link, Links(Plug(c, tx));
      && x in all && y in all && y.parent != null
      && (x.parent != null ==> x.parent !in {x, y, y.parent, x.left, x.right, y.left, y.right})
      && y.parent !in {y, y.left, y.right}
  {
    At(tree, c, tx);
    At(tree, d, u);
    LinksPlug(c, tx);
    LinksPlug(d, u);
    var x, y := tx.link, u.link;
    RecPlug(c, tx, y);
    ParentPointsBack(tx, CtxLink(c), y);
    assert LinkOf(tx.left) in Links(tx.left) + {null} && LinkOf(tx.right) in Links(tx.right) + {null};
    assert LinkOf(u.left) in Links(u.left) + {null} && LinkOf(u.right) in Links(u.right) + {null};
    if y.left != null {
      ChildPointsBack(tx, CtxLink(c), y, y.left);
    }
    if y.right != null {
      ChildPointsBack(tx, CtxLink(c), y, y.right);
    }
  }

  // ----- the whole exchange ----------------------------------------------------------------

  /** Only its parent and its children refer to `n`. */
  ghost predicate OnlyRelatives(tree: RbRoot, n: Link, all: set<Link>)
    reads tree`root, n, all
  {
    && (forall z :: z in all && (z.left == n || z.right == n) ==> n.parent == z && z.left != z.right)
    && (forall z :: z in all && z.parent == n ==> n.left == z || n.right == z)
    && (n.parent == null <==> tree.root == n)
  }

  /** `y` stands below `x`, and the links around them are told apart. */
  ghost predicate Exchangeable(tree: RbRoot, x: Link, y: Link, all: set<Link>)
    reads tree`root, x, y, all
  {
    var px, xl, xr, py, yl, yr := x.parent, x.left, x.right, y.parent, y.left, y.right;
    && x in all && y in all && x != y
    && OnlyRelatives(tree, x, all) && OnlyRelatives(tree, y, all)
    && (px != null ==> px in all && px !in {x, y, py, xl, xr, yl, yr} && (px.left == x || px.right == x))
    && py in all && py !in {y, yl, yr} && (py.left == y || py.right == y)
    && (xl != null ==> xl in all && xl !in {x, xr, yl, yr} && xl.parent == x)
    && (xr != null ==> xr in all && xr !in {x, yl, yr} && xr.parent == x)
    && (yl != null ==> yl in all && yl !in {x, y, yr} && yl.parent == y)
    && (yr != null ==> yr in all && yr !in {x, y} && yr.parent == y)
  }

  method ExchangeAdjacent(tree: RbRoot, x: Link, y: Link, s: Side, ghost w: Swap, ghost all: set<Link>)
    requires w.x == x && w.y == y && Exchangeable(tree, x, y, all)
    requires Toward(x, s) == y && y.parent == x
    modifies tree`root, all`left, all`right, all`parent
    ensures tree.root == Other(w, old(tree.root))
    ensures forall z :: z in all ==> var o := OtherLink(w, z);
      o.left == Other(w, old(z.left)) && o.right == Other(w, old(z.right)) && o.parent == Other(w, old(z.parent))
  {
    SwapParentAndChild(tree, x, y, s, x.parent, y.left, y.right, Toward(x, Opp(s)), all);
  }

  method ExchangeDistant(tree: RbRoot, x: Link, y: Link, py: Link, ghost w: Swap, ghost all: set<Link>)
    requires w.x == x && w.y == y && Exchangeable(tree, x, y, all)
    requires y.parent == py && py != x
    modifies tree`root, all`left, all`right, all`parent
    ensures tree.root == Other(w, old(tree.root))
    ensures forall z :: z in all ==> var o := OtherLink(w, z);
      o.left == Other(w, old(z.left)) && o.right == Other(w, old(z.right)) && o.parent == Other(w, old(z.parent))
  {
    SwapDistantNodes(tree, x, y, x.parent, py, x.left, x.right, y.left, y.right, all);
  }

  method ExchangePointers(tree: RbRoot, x: Link, y: Link, ghost w: Swap, ghost all: set<Link>)
    requires w.x == x && w.y == y && Exchangeable(tree, x, y, all)
    modifies tree`root, all`left, all`right, all`parent
    ensures tree.root == Other(w, old(tree.root))
    ensures forall z :: z in all ==> var o := OtherLink(w, z);
      o.left == Other(w, old(z.left)) && o.right == Other(w, old(z.right)) && o.parent == Other(w, old(z.parent))
  {
    if y.parent == x {
      ExchangeAdjacent(tree, x, y, if x.left == y then Lt else Rt, w, all);
    } else {
      ExchangeDistant(tree, x, y, y.parent, w, all);
    }
  }

  /** Exchange the links, then their colours, so that each place keeps its colour. */
  method ExchangeLinks(tree: RbRoot, x: Link, y: Link, ghost w: Swap, ghost all: set<Link>)
    requires w == Swap(x, x.Key(), y, y.Key()) && Exchangeable(tree, x, y, all)
    modifies tree`root, all
    ensures tree.root == Other(w, old(tree.root))
    ensures forall z :: z in all ==> var o := OtherLink(w, z);
      o.left == Other(w, old(z.left)) && o.right == Other(w, old(z.right)) && o.parent == Other(w, old(z.parent))
    ensures x.keyAndColor == Pack(w.kx, old(y.IsRed())) && y.keyAndColor == Pack(w.ky, old(x.IsRed()))
    ensures forall z :: z in all - {x, y} ==> z.keyAndColor == old(z.keyAndColor)
  {
    assert allocated(all);
    ExchangePointers(tree, x, y, w, all);
    SwapColors(x, y);
  }

  lemma CanExchange(tree: RbRoot, c: Ctx, tx: Tree, d: Ctx, u: Tree)
    requires Holds(tree, Plug(c, tx)) && Plug(d, u) == Plug(c, tx) && tx.Node? && u.Node?
    requires u.link in Links(tx) && u.link != tx.link
    ensures Exchangeable(tree, tx.link, u.link, Links(Plug(c, tx)))
    ensures tx.link.Key() == tx.key && u.link.Key() == u.key
  {
    Neighbours(tree, c, tx, d, u);
    Referrers(tree, Plug(c, tx), tx.link);
    Referrers(tree, Plug(c, tx), u.link);
    At(tree, c, tx);
    At(tree, d, u);
  }

  method ExchangePlaces(tree: RbRoot, x: Link, y: Link, ghost w: Swap, ghost c: Ctx, ghost tx: Tree, ghost d: Ctx,
                        ghost u: Tree)
    requires Holds(tree, Plug(c, tx)) && Plug(d, u) == Plug(c, tx) && tx.Node? && u.Node?
    requires u.link in Links(tx) && u.link != tx.link
    requires w == Swap(tx.link, tx.key, u.link, u.key) && x == w.x && y == w.y
    modifies tree`root, Links(Plug(c, tx))
    ensures Holds(tree, Swapped(w, Plug(c, tx))) && Links(Swapped(w, Plug(c, tx))) == Links(Plug(c, tx))
  {
    CanExchange(tree, c, tx, d, u);
    ExchangeLinks(tree, x, y, w, Links(Plug(c, tx)));
    HoldsSwappedTree(w, tree, Plug(c, tx));
  }
}
