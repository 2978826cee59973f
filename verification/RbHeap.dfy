/** The tree in memory: the fields of every link are as a `Tree` value says.

    `RecOf` reads the expected fields of a link off the value, so that a change of a few fields
    in memory is a pointwise statement; the structure is dealt with on values. */
module RbHeap {
  import opened RbShape

  datatype Rec = Rec(keyAndColor: nat, left: Link?, right: Link?, parent: Link?)

  class RbRoot {
    var root: Link?
    var blackHeight: int
    ghost var shape: Tree

    constructor ()
      ensures root == null && blackHeight == 0 && shape == Nil
    {
      root, blackHeight, shape := null, 0, Nil;
    }

    /** The pointers represent `shape`, which is a sorted red-black tree of height `blackHeight`. */
    ghost predicate Valid()
      reads this, Links(shape)
    {
      && Holds(this, shape)
      && RedBlack(shape, blackHeight)
      && Sorted(InOrder(shape))
    }
  }

  /** The stored word: the colour is the low bit. */
  function Pack(key: nat, red: bool): (w: nat)
    ensures w / 2 == key && (w % 2 == 1) == red
  {
    2 * key + if red then 1 else 0
  }

  ghost function Fields(x: Link): Rec
    reads x
  {
    Rec(x.keyAndColor, x.left, x.right, x.parent)
  }

  /** The fields link `x` must have in the subtree `t` whose root has parent `p`. */
  ghost function RecOf(t: Tree, p: Link?, x: Link): Rec
    requires x in Links(t)
  {
    if x == t.link then Rec(Pack(t.key, t.red), LinkOf(t.left), LinkOf(t.right), p)
    else if x in Links(t.left) then RecOf(t.left, t.link, x)
    else RecOf(t.right, t.link, x)
  }

  /** The same for a context whose hole holds `n`. */
  ghost function CtxRecOf(c: Ctx, n: Link?, x: Link): Rec
    requires x in CtxLinks(c)
  {
    if x == c.link then
      if c.side.Lt? then Rec(Pack(c.key, c.red), n, LinkOf(c.other), CtxLink(c.up))
      else Rec(Pack(c.key, c.red), LinkOf(c.other), n, CtxLink(c.up))
    else if x in Links(c.other) then RecOf(c.other, c.link, x)
    else CtxRecOf(c.up, c.link, x)
  }

  ghost predicate Holds(tree: RbRoot, w: Tree)
    reads tree`root, Links(w)
  {
    && Distinct(w) && tree.root == LinkOf(w)
    && forall x :: x in Links(w) ==> Fields(x) == RecOf(w, null, x)
  }

  lemma {:induction false} RecPlug(c: Ctx, t: Tree, x: Link)
    requires Separate(c, t) && x in CtxLinks(c) + Links(t)
    ensures x in Links(Plug(c, t))
    ensures RecOf(Plug(c, t), null, x) ==
            if x in Links(t) then RecOf(t, CtxLink(c), x) else CtxRecOf(c, LinkOf(t), x)
    decreases c
  {
    if c.In? {
      RecPlug(c.up, Lifted(c, t), x);
    }
  }

  /** What memory says about the links around a position. */
  lemma At(tree: RbRoot, c: Ctx, t: Tree)
    requires Holds(tree, Plug(c, t))
    ensures Separate(c, t)
    ensures c.Top? ==> tree.root == LinkOf(t)
    ensures t.Node? ==> Fields(t.link) == Rec(Pack(t.key, t.red), LinkOf(t.left), LinkOf(t.right), CtxLink(c))
    ensures c.In? ==> Fields(c.link) == CtxRecOf(c, LinkOf(t), c.link)
    ensures t.Node? ==> t.link.Key() == t.key && t.link.IsRed() == t.red
    ensures c.In? ==> c.link.Key() == c.key && c.link.IsRed() == c.red
  {
    DistinctPlug(c, t);
    LinksPlug(c, t);
    if t.Node? {
      RecPlug(c, t, t.link);
    }
    if c.In? {
      RecPlug(c, t, c.link);
    }
  }

  function Toward(x: Link, s: Side): Link?
    reads x
  {
    if s.Lt? then x.left else x.right
  }

  // ----- primitive updates ---------------------------------------------------------------

  method SetBlack(x: Link)
    modifies x`keyAndColor
    ensures x.keyAndColor == Pack(old(x.Key()), false)
  {
    x.keyAndColor := x.keyAndColor - x.keyAndColor % 2;
  }

  method SetRed(x: Link)
    modifies x`keyAndColor
    ensures x.keyAndColor == Pack(old(x.Key()), true)
  {
    x.keyAndColor := x.keyAndColor - x.keyAndColor % 2 + 1;
  }

  /** Exclusive or of a word with a single low bit. */
  function XorFlag(w: Word, flag: Word): (r: Word)
    requires flag < 2
    ensures r / 2 == w / 2
    ensures r % 2 == (w + flag) % 2
  {
    if flag == 0 then w else if w % 2 == 0 then w + 1 else w - 1
  }

  method SwapColors(x: Link, y: Link)
    requires x != y
    modifies x`keyAndColor, y`keyAndColor
    ensures x.keyAndColor == Pack(old(x.Key()), old(y.IsRed()))
    ensures y.keyAndColor == Pack(old(y.Key()), old(x.IsRed()))
  {
    x.keyAndColor := XorFlag(x.keyAndColor, y.keyAndColor % 2);
    y.keyAndColor := XorFlag(y.keyAndColor, x.keyAndColor % 2);
    x.keyAndColor := XorFlag(x.keyAndColor, y.keyAndColor % 2);
  }

  /** A new link is red; the key loses its top bit to the colour. */
  method InitializeNodeValue(x: Link, value: Word)
    modifies x`keyAndColor
    ensures x.keyAndColor == Pack(value % KEY_LIMIT, true)
  {
    x.keyAndColor := (value * 2) % WORD_LIMIT + 1;
  }

  // ----- rotation --------------------------------------------------------------------------

  function SetChild(r: Rec, s: Side, n: Link?): Rec {
    if s.Lt? then r.(left := n) else r.(right := n)
  }

  /** How a rotation of `pivot` above `top` changes the fields `r` of link `x`. */
  ghost function Turned(top: Link, pivot: Link, s: Side, inner: Link?, above: Link?, x: Link, r: Rec): Rec {
    if x == top then SetChild(r, s, inner).(parent := pivot)
    else if x == pivot then SetChild(r, Opp(s), top).(parent := above)
    else if x == inner then r.(parent := top)
    else if x == above then if r.left == top then r.(left := pivot) else r.(right := pivot)
    else r
  }

  lemma RecTurned(c: Ctx, t: Tree, s: Side, x: Link)
    requires Separate(c, t) && t.Node? && Child(t, s).Node? && x in CtxLinks(c) + Links(t)
    ensures Separate(c, Rotated(s, t))
    ensures x in Links(Plug(c, t)) && x in Links(Plug(c, Rotated(s, t)))
    ensures var p := Child(t, s);
      RecOf(Plug(c, Rotated(s, t)), null, x) ==
      Turned(t.link, p.link, s, LinkOf(Child(p, Opp(s))), CtxLink(c), x, RecOf(Plug(c, t), null, x))
  {
    RotatedContents(s, t);
    RecPlug(c, t, x);
    RecPlug(c, Rotated(s, t), x);
    if x in Links(t) {
      RecRotated(t, CtxLink(c), s, x);
    } else {
      var p := Child(t, s);
      assert p.link in Links(t) && LinkOf(Child(p, Opp(s))) in Links(p) + {null};
      assert x == c.link ==> LinkOf(c.other) in Links(c.other) + {null};
    }
  }

  lemma RecRotated(t: Tree, above: Link?, s: Side, x: Link)
    requires Distinct(t) && t.Node? && Child(t, s).Node? && x in Links(t) && above !in Links(t)
    ensures x in Links(Rotated(s, t))
    ensures var p := Child(t, s);
      RecOf(Rotated(s, t), above, x) ==
      Turned(t.link, p.link, s, LinkOf(Child(p, Opp(s))), above, x, RecOf(t, above, x))
  {
    RotatedContents(s, t);
    var p := Child(t, s);
    var a, b, d := Child(p, s), Child(p, Opp(s)), Child(t, Opp(s));
    var low := Child(Rotated(s, t), Opp(s));
    assert Distinct(p) && Distinct(low);
    if x in Links(a) {
      assert RecOf(t, above, x) == RecOf(p, t.link, x) == RecOf(a, p.link, x);
    } else if x in Links(b) {
      assert RecOf(t, above, x) == RecOf(p, t.link, x) == RecOf(b, p.link, x);
      assert RecOf(Rotated(s, t), above, x) == RecOf(low, p.link, x) == RecOf(b, t.link, x);
    } else if x in Links(d) {
      assert RecOf(Rotated(s, t), above, x) == RecOf(low, p.link, x) == RecOf(d, t.link, x);
    }
  }

  /** `pivot`, the child of `top` on side `s`, takes the place of `top`. */
  method RotateLinks(tree: RbRoot, top: Link, pivot: Link, s: Side, inner: Link?, above: Link?, ghost all: set<Link>)
    requires top in all && pivot in all && top != pivot
    requires Toward(top, s) == pivot && inner == Toward(pivot, Opp(s)) && above == top.parent
    requires above != top && above != pivot
    requires inner != null ==> inner in all && inner != top && inner != pivot && inner != above
    requires if above == null then tree.root == top else above in all && (above.left == top || above.right == top)
    modifies tree`root, all
    ensures forall x :: x in all ==> Fields(x) == Turned(top, pivot, s, inner, above, x, old(Fields(x)))
    ensures tree.root == if above == null then pivot else old(tree.root)
  {
    if above == null {
      tree.root := pivot;
    } else if above.left == top {
      above.left := pivot;
    } else {
      above.right := pivot;
    }
    pivot.parent := above;

    if s.Lt? {
      top.left := inner;
    } else {
      top.right := inner;
    }
    if inner != null {
      inner.parent := top;
    }

    if s.Lt? {
      pivot.right := top;
    } else {
      pivot.left := top;
    }
    top.parent := pivot;
  }

  /** The same, at a position of the tree. */
  method RotateUp(tree: RbRoot, top: Link, pivot: Link, s: Side, ghost c: Ctx, ghost t: Tree)
    requires Holds(tree, Plug(c, t))
    requires t.Node? && top == t.link && Child(t, s).Node? && pivot == Child(t, s).link
    modifies tree`root, Links(Plug(c, t))
    ensures Holds(tree, Plug(c, Rotated(s, t)))
  {
    Around(tree, c, t, s);
    RotatedHolds(tree, c, t, s);
    RotateLinks(tree, top, pivot, s, Toward(pivot, Opp(s)), top.parent, Links(Plug(c, t)));
  }

  /** The links a rotation touches are distinct members of the tree. */
  lemma Around(tree: RbRoot, c: Ctx, t: Tree, s: Side)
    requires Holds(tree, Plug(c, t)) && t.Node? && Child(t, s).Node?
    ensures var top, pivot, all := t.link, Child(t, s).link, Links(Plug(c, t));
      var inner, above := LinkOf(Child(Child(t, s), Opp(s))), CtxLink(c);
      && top in all && pivot in all && top != pivot
      && Toward(top, s) == pivot && inner == Toward(pivot, Opp(s)) && above == top.parent
      && above != top && above != pivot
      && (inner != null ==> inner in all && inner != top && inner != pivot && inner != above)
      && if above == null then tree.root == top else above in all && (above.left == top || above.right == top)
  {
    At(tree, c, t);
    LinksPlug(c, t);
    var p := Child(t, s);
    RecPlug(c, t, p.link);
    assert Distinct(p) && LinkOf(Child(p, Opp(s))) in Links(p) + {null};
  }

  lemma RotatedHolds(tree: RbRoot, c: Ctx, t: Tree, s: Side)
    requires Holds(tree, Plug(c, t)) && t.Node? && Child(t, s).Node?
    ensures var w, w', p := Plug(c, t), Plug(c, Rotated(s, t)), Child(t, s);
      && Distinct(w') && Links(w') == Links(w)
      && LinkOf(w') == (if c.Top? then p.link else LinkOf(w))
      && forall x :: x in Links(w) ==>
           RecOf(w', null, x) == Turned(t.link, p.link, s, LinkOf(Child(p, Opp(s))), CtxLink(c), x, Fields(x))
  {
    var w, w', p := Plug(c, t), Plug(c, Rotated(s, t)), Child(t, s);
    LinksPlug(c, t);
    DistinctPlug(c, t);
    RotatedContents(s, t);
    SameContentsPlug(c, t, Rotated(s, t));
    RootOfPlug(c, t, Rotated(s, t));
    forall x | x in Links(w) ensures x in Links(w') && RecOf(w', null, x) ==
        Turned(t.link, p.link, s, LinkOf(Child(p, Opp(s))), CtxLink(c), x, Fields(x))
    {
      RecTurned(c, t, s, x);
    }
  }

  lemma {:induction false} RootOfPlug(c: Ctx, t: Tree, t': Tree)
    ensures LinkOf(Plug(c, t')) == if c.Top? then LinkOf(t') else LinkOf(Plug(c, t))
    decreases c
  {
    if c.In? {
      RootOfPlug(c.up, Lifted(c, t), Lifted(c, t'));
    }
  }

  // ----- recolouring -----------------------------------------------------------------------

  lemma PaintContents(c: Ctx, t: Tree, red: bool)
    ensures SameContents(Plug(c, t), Plug(c, Paint(t, red)))
  {
    SameContentsPlug(c, t, Paint(t, red));
  }

  /** Painting a link changes nothing but its word. */
  lemma RecPaint(c: Ctx, t: Tree, red: bool, x: Link)
    requires Separate(c, t) && t.Node? && x in Links(Plug(c, t))
    ensures x in Links(Plug(c, Paint(t, red)))
    ensures var r := RecOf(Plug(c, t), null, x);
      RecOf(Plug(c, Paint(t, red)), null, x) == if x == t.link then r.(keyAndColor := Pack(t.key, red)) else r
  {
    LinksPlug(c, t);
    PaintContents(c, t, red);
    RecPlug(c, t, x);
    RecPlug(c, Paint(t, red), x);
  }

  method PaintAt(tree: RbRoot, x: Link, red: bool, ghost c: Ctx, ghost t: Tree)
    requires Holds(tree, Plug(c, t)) && t.Node? && x == t.link
    modifies x`keyAndColor
    ensures Holds(tree, Plug(c, Paint(t, red)))
  {
    At(tree, c, t);
    PaintContents(c, t, red);
    RootOfPlug(c, t, Paint(t, red));
    forall y | y in Links(Plug(c, t)) { RecPaint(c, t, red, y); }
    assert allocated(Links(Plug(c, t)));
    if red {
      SetRed(x);
    } else {
      SetBlack(x);
    }
  }

  /** How trading colours between `top` and `pivot` changes the word of `x`. */
  ghost function Traded(top: Link, pivot: Link, topWord: nat, pivotWord: nat, x: Link, r: Rec): Rec {
    if x == top then r.(keyAndColor := topWord) else if x == pivot then r.(keyAndColor := pivotWord) else r
  }

  lemma RecPromoted(t: Tree, above: Link?, s: Side, x: Link)
    requires Distinct(t) && t.Node? && Child(t, s).Node? && x in Links(t)
    ensures x in Links(Rotated(s, t)) && x in Links(Promoted(s, t))
    ensures var p := Child(t, s);
      RecOf(Promoted(s, t), above, x) ==
      Traded(t.link, p.link, Pack(t.key, p.red), Pack(p.key, t.red), x, RecOf(Rotated(s, t), above, x))
  {
    RotatedContents(s, t);
    PromotedContents(s, t);
    var low, low' := Child(Rotated(s, t), Opp(s)), Child(Promoted(s, t), Opp(s));
    if x in Links(low) {
      assert RecOf(Rotated(s, t), above, x) == RecOf(low, Child(t, s).link, x);
      assert RecOf(Promoted(s, t), above, x) == RecOf(low', Child(t, s).link, x);
    }
  }

  lemma RecTraded(c: Ctx, t: Tree, s: Side, x: Link)
    requires Separate(c, t) && t.Node? && Child(t, s).Node? && x in CtxLinks(c) + Links(t)
    ensures x in Links(Plug(c, Rotated(s, t))) && x in Links(Plug(c, Promoted(s, t)))
    ensures var p := Child(t, s);
      RecOf(Plug(c, Promoted(s, t)), null, x) ==
      Traded(t.link, p.link, Pack(t.key, p.red), Pack(p.key, t.red), x, RecOf(Plug(c, Rotated(s, t)), null, x))
  {
    RotatedContents(s, t);
    PromotedContents(s, t);
    RecPlug(c, Rotated(s, t), x);
    RecPlug(c, Promoted(s, t), x);
    if x in Links(t) {
      RecPromoted(t, CtxLink(c), s, x);
    } else {
      assert t.link in Links(t) && Child(t, s).link in Links(t);
    }
  }

  lemma PromotedHolds(c: Ctx, t: Tree, s: Side)
    requires Separate(c, t) && t.Node? && Child(t, s).Node?
    ensures var w, w', p := Plug(c, Rotated(s, t)), Plug(c, Promoted(s, t)), Child(t, s);
      && Distinct(w') && Links(w') == Links(w) && LinkOf(w') == LinkOf(w)
      && t.link in Links(w) && p.link in Links(w) && t.link != p.link
      && RecOf(w, null, t.link).keyAndColor == Pack(t.key, t.red)
      && RecOf(w, null, p.link).keyAndColor == Pack(p.key, p.red)
      && forall x :: x in Links(w) ==>
           RecOf(w', null, x) == Traded(t.link, p.link, Pack(t.key, p.red), Pack(p.key, t.red), x, RecOf(w, null, x))
  {
    var w, w', p := Plug(c, Rotated(s, t)), Plug(c, Promoted(s, t)), Child(t, s);
    RotatedContents(s, t);
    PromotedContents(s, t);
    LinksPlug(c, Rotated(s, t));
    LinksPlug(c, Promoted(s, t));
    DistinctPlug(c, Promoted(s, t));
    RootOfPlug(c, Rotated(s, t), Promoted(s, t));
    forall x | x in Links(w) ensures x in Links(w') && RecOf(w', null, x) ==
           Traded(t.link, p.link, Pack(t.key, p.red), Pack(p.key, t.red), x, RecOf(w, null, x))
    {
      RecTraded(c, t, s, x);
    }
    RecPlug(c, Rotated(s, t), t.link);
    RecPlug(c, Rotated(s, t), p.link);
  }

  method TradeColors(tree: RbRoot, top: Link, pivot: Link, ghost w: Tree, ghost w': Tree,
                     ghost topWord: nat, ghost pivotWord: nat)
    requires Holds(tree, w) && Distinct(w') && Links(w') == Links(w) && LinkOf(w') == LinkOf(w)
    requires top in Links(w) && pivot in Links(w) && top != pivot
    requires topWord == Pack(top.Key(), pivot.IsRed()) && pivotWord == Pack(pivot.Key(), top.IsRed())
    requires forall x :: x in Links(w) ==>
      RecOf(w', null, x) == Traded(top, pivot, topWord, pivotWord, x, RecOf(w, null, x))
    modifies top`keyAndColor, pivot`keyAndColor
    ensures Holds(tree, w')
  {
    assert allocated(Links(w));
    SwapColors(top, pivot);
  }

  /** A rotation after which each of the two places keeps its colour. */
  method Promote(tree: RbRoot, top: Link, pivot: Link, s: Side, ghost c: Ctx, ghost t: Tree)
    requires Holds(tree, Plug(c, t))
    requires t.Node? && top == t.link && Child(t, s).Node? && pivot == Child(t, s).link
    modifies tree`root, Links(Plug(c, t))
    ensures Holds(tree, Plug(c, Promoted(s, t)))
  {
    DistinctPlug(c, t);
    RotatedHolds(tree, c, t, s);
    RotateUp(tree, top, pivot, s, c, t);
    PromotedHolds(c, t, s);
    TradeColors(tree, top, pivot, Plug(c, Rotated(s, t)), Plug(c, Promoted(s, t)),
                Pack(t.key, Child(t, s).red), Pack(Child(t, s).key, t.red));
  }

  /** A member that is not the root has a parent. */
  lemma MemberAttached(tree: RbRoot, x: Link)
    requires Holds(tree, tree.shape) && x in Links(tree.shape)
    ensures tree.root == x || x.parent != null
  {
    LocateFinds(tree.shape, x, Top);
    var (c, t) := Locate(tree.shape, x, Top);
    At(tree, c, t);
  }

  /** The root of a tree is one of its links. */
  lemma RootIsMember(tree: RbRoot)
    requires Holds(tree, tree.shape)
    ensures tree.root == LinkOf(tree.shape) && (tree.root != null ==> tree.root in Links(tree.shape))
  {
    At(tree, Top, tree.shape);
  }
}
