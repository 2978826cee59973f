/** The red-black tree as a value: trees, one-hole contexts, and what a valid tree is.

    A `Tree` records, for every position, which link sits there, its key and its colour, so the
    pointer structure in memory is a function of it (see `RbHeap`).  Every position of a tree
    is a pair (context, subtree); rebalancing rewrites such pairs. */
module RbShape {

  const WORD_LIMIT: nat := 0x1_0000_0000_0000_0000
  const KEY_LIMIT: nat := 0x8000_0000_0000_0000

  type Word = n: nat | n < WORD_LIMIT witness 0

  /** An intrusive tree link.  The low bit of `keyAndColor` is the colour, the rest the key. */
  class Link {
    var keyAndColor: Word
    var left: Link?
    var right: Link?
    var parent: Link?

    constructor ()
      ensures keyAndColor == 0 && left == null && right == null && parent == null
    {
      keyAndColor, left, right, parent := 0, null, null, null;
    }

    function Key(): nat
      reads this
    {
      keyAndColor / 2
    }

    predicate IsRed()
      reads this
    {
      keyAndColor % 2 == 1
    }

    predicate Zeroed()
      reads this
    {
      keyAndColor == 0 && left == null && right == null && parent == null
    }
  }

  datatype Side = Lt | Rt

  datatype Tree = Nil | Node(left: Tree, link: Link, key: nat, red: bool, right: Tree)

  /** `In(s, up, x, ..., other)`: the hole is the child of `x` on side `s`, `other` is its sibling. */
  datatype Ctx = Top | In(side: Side, up: Ctx, link: Link, key: nat, red: bool, other: Tree)

  datatype Entry = Entry(link: Link, key: nat)

  function Opp(s: Side): Side { if s.Lt? then Rt else Lt }

  function Join(s: Side, near: Tree, x: Link, k: nat, red: bool, far: Tree): Tree {
    if s.Lt? then Node(near, x, k, red, far) else Node(far, x, k, red, near)
  }

  function Child(t: Tree, s: Side): Tree
    requires t.Node?
  {
    if s.Lt? then t.left else t.right
  }

  ghost function Plug(c: Ctx, t: Tree): Tree
    decreases c
  {
    match c
    case Top => t
    case In(_, up, _, _, _, _) => Plug(up, Lifted(c, t))
  }

  /** One step up: the subtree rooted at the parent of the hole. */
  function Lifted(c: Ctx, t: Tree): Tree
    requires c.In?
  {
    Join(c.side, t, c.link, c.key, c.red, c.other)
  }

  ghost function Depth(c: Ctx): nat {
    if c.Top? then 0 else 1 + Depth(c.up)
  }

  // ----- links ---------------------------------------------------------------------------

  ghost function LinkOf(t: Tree): (n: Link?)
    ensures n == null <==> t.Nil?
  {
    if t.Nil? then null else t.link
  }

  ghost function CtxLink(c: Ctx): (n: Link?)
    ensures n == null <==> c.Top?
  {
    if c.Top? then null else c.link
  }

  ghost function Links(t: Tree): set<Link> {
    if t.Nil? then {} else Links(t.left) + {t.link} + Links(t.right)
  }

  ghost function CtxLinks(c: Ctx): set<Link> {
    if c.Top? then {} else CtxLinks(c.up) + {c.link} + Links(c.other)
  }

  ghost predicate Distinct(t: Tree) {
    t.Node? ==>
      && Distinct(t.left) && Distinct(t.right)
      && t.link !in Links(t.left) && t.link !in Links(t.right)
      && Links(t.left) !! Links(t.right)
  }

  ghost predicate DistinctCtx(c: Ctx) {
    c.In? ==>
      && DistinctCtx(c.up) && Distinct(c.other)
      && c.link !in CtxLinks(c.up) && c.link !in Links(c.other)
      && CtxLinks(c.up) !! Links(c.other)
  }

  ghost predicate Separate(c: Ctx, t: Tree) {
    DistinctCtx(c) && Distinct(t) && CtxLinks(c) !! Links(t)
  }

  // ----- order ---------------------------------------------------------------------------

  ghost function InOrder(t: Tree): seq<Entry> {
    if t.Nil? then [] else InOrder(t.left) + [Entry(t.link, t.key)] + InOrder(t.right)
  }

  ghost function Before(c: Ctx): seq<Entry> {
    match c
    case Top => []
    case In(Lt, up, _, _, _, _) => Before(up)
    case In(Rt, up, x, k, _, o) => Before(up) + InOrder(o) + [Entry(x, k)]
  }

  ghost function After(c: Ctx): seq<Entry> {
    match c
    case Top => []
    case In(Lt, up, x, k, _, o) => [Entry(x, k)] + InOrder(o) + After(up)
    case In(Rt, up, _, _, _, _) => After(up)
  }

  /** Non-strict: equal keys may be rotated to either side of each other. */
  ghost predicate Sorted(s: seq<Entry>) {
    forall i, j :: 0 <= i < j < |s| ==> s[i].key <= s[j].key
  }

  // ----- colour and balance --------------------------------------------------------------

  predicate IsRed(t: Tree) { t.Node? && t.red }

  predicate RedAbove(c: Ctx) { c.In? && c.red }

  /** No red node has a red child and every path to a null holds exactly `h` black nodes.
      The root itself may be red. */
  ghost predicate RedBlack(t: Tree, h: int) {
    match t
    case Nil => h == 0
    case Node(l, _, _, red, r) =>
      var below := if red then h else h - 1;
      RedBlack(l, below) && RedBlack(r, below) && (red ==> !IsRed(l) && !IsRed(r))
  }

  /** `c` becomes a red-black tree of height `total` when its hole gets one of height `h`. */
  ghost predicate RedBlackCtx(c: Ctx, h: int, total: int) {
    match c
    case Top => h == total
    case In(_, up, _, _, red, o) =>
      && RedBlack(o, h)
      && (red ==> !IsRed(o) && !RedAbove(up))
      && RedBlackCtx(up, if red then h else h + 1, total)
  }

  function Paint(t: Tree, red: bool): Tree {
    if t.Nil? then t else t.(red := red)
  }

  // ----- a position in a tree ------------------------------------------------------------

  lemma {:induction false} LinksPlug(c: Ctx, t: Tree)
    ensures Links(Plug(c, t)) == CtxLinks(c) + Links(t)
    decreases c
  {
    if c.In? {
      LinksPlug(c.up, Lifted(c, t));
    }
  }

  lemma {:induction false} DistinctPlug(c: Ctx, t: Tree)
    ensures Distinct(Plug(c, t)) <==> Separate(c, t)
    decreases c
  {
    if c.In? {
      DistinctPlug(c.up, Lifted(c, t));
    }
  }

  lemma {:induction false} InOrderPlug(c: Ctx, t: Tree)
    ensures InOrder(Plug(c, t)) == Before(c) + InOrder(t) + After(c)
    decreases c
  {
    if c.In? {
      InOrderPlug(c.up, Lifted(c, t));
      if c.side.Lt? {
        Regroup(Before(c.up), InOrder(t), Entry(c.link, c.key), InOrder(c.other), After(c.up));
      } else {
        Regroup(Before(c.up), InOrder(c.other), Entry(c.link, c.key), InOrder(t), After(c.up));
      }
    } else {
      assert [] + InOrder(t) + [] == InOrder(t);
    }
  }

  lemma {:induction false} Regroup(before: seq<Entry>, l: seq<Entry>, e: Entry, r: seq<Entry>, after: seq<Entry>)
    ensures before + (l + [e] + r) + after == before + l + ([e] + r + after) == (before + l + [e]) + r + after
  {
  }

  function Descend(c: Ctx, t: Tree, s: Side): Ctx
    requires t.Node?
  {
    In(s, c, t.link, t.key, t.red, Child(t, Opp(s)))
  }

  ghost function Size(t: Tree): nat { if t.Nil? then 0 else Size(t.left) + 1 + Size(t.right) }

  /** How many entries stand to the left, and to the right, of a position. */
  ghost function Low(c: Ctx): nat {
    if c.Top? then 0 else if c.side.Lt? then Low(c.up) else Low(c.up) + Size(c.other) + 1
  }

  ghost function Rear(c: Ctx): nat {
    if c.Top? then 0 else if c.side.Rt? then Rear(c.up) else Rear(c.up) + Size(c.other) + 1
  }

  /** Index of the first entry after the subtree, and of its root. */
  ghost function High(c: Ctx, t: Tree): nat { Low(c) + Size(t) }

  ghost function Mid(c: Ctx, t: Tree): nat
    requires t.Node?
  {
    Low(c) + Size(t.left)
  }

  lemma {:induction false} SizeInOrder(t: Tree)
    ensures |InOrder(t)| == Size(t)
  {
    if t.Node? {
      SizeInOrder(t.left);
      SizeInOrder(t.right);
    }
  }

  lemma {:induction false} SizeCtx(c: Ctx)
    ensures |Before(c)| == Low(c) && |After(c)| == Rear(c)
  {
    if c.In? {
      SizeCtx(c.up);
      SizeInOrder(c.other);
    }
  }

  lemma SizePlug(c: Ctx, t: Tree)
    ensures |InOrder(Plug(c, t))| == Low(c) + Size(t) + Rear(c)
  {
    InOrderPlug(c, t);
    SizeInOrder(t);
    SizeCtx(c);
  }

  /** The entry of a subtree's root stands between those of its children. */
  lemma Middle(c: Ctx, t: Tree)
    requires t.Node?
    ensures var s := InOrder(Plug(c, t)); Mid(c, t) < High(c, t) <= |s| && s[Mid(c, t)] == Entry(t.link, t.key)
  {
    InOrderPlug(c, t);
    SizeInOrder(t);
    SizeInOrder(t.left);
    SizeCtx(c);
  }

  /** No link occurs twice in the order, and the links of the order are those of the tree. */
  lemma {:induction false} InOrderLinks(t: Tree)
    ensures forall i :: 0 <= i < |InOrder(t)| ==> InOrder(t)[i].link in Links(t)
    ensures Distinct(t) ==> forall i, j :: 0 <= i < j < |InOrder(t)| ==> InOrder(t)[i].link != InOrder(t)[j].link
  {
    if t.Node? {
      InOrderLinks(t.left);
      InOrderLinks(t.right);
      var l, r, s := InOrder(t.left), InOrder(t.right), InOrder(t);
      assert forall i :: 0 <= i < |s| ==>
        s[i] == if i < |l| then l[i] else if i == |l| then Entry(t.link, t.key) else r[i - |l| - 1];
    }
  }

  /** Two trees with the same links in the same order, wherever they stand. */
  ghost predicate SameContents(t: Tree, t': Tree) {
    InOrder(t) == InOrder(t') && Links(t) == Links(t') && (Distinct(t) <==> Distinct(t'))
  }

  lemma SameContentsPlug(c: Ctx, t: Tree, t': Tree)
    requires SameContents(t, t')
    ensures SameContents(Plug(c, t), Plug(c, t'))
  {
    InOrderPlug(c, t);
    InOrderPlug(c, t');
    LinksPlug(c, t);
    LinksPlug(c, t');
    DistinctPlug(c, t);
    DistinctPlug(c, t');
  }

  /** The child on side `s` moves above its parent, keeping both colours. */
  function Rotated(s: Side, t: Tree): Tree
    requires t.Node? && Child(t, s).Node?
  {
    var p := Child(t, s);
    Join(s, Child(p, s), p.link, p.key, p.red, Join(s, Child(p, Opp(s)), t.link, t.key, t.red, Child(t, Opp(s))))
  }

  /** The same, but the two links also trade colours, so each place keeps its colour. */
  function Promoted(s: Side, t: Tree): Tree
    requires t.Node? && Child(t, s).Node?
  {
    var p := Child(t, s);
    Join(s, Child(p, s), p.link, p.key, t.red, Join(s, Child(p, Opp(s)), t.link, t.key, p.red, Child(t, Opp(s))))
  }

  lemma PromotedContents(s: Side, t: Tree)
    requires t.Node? && Child(t, s).Node?
    ensures SameContents(t, Promoted(s, t))
  {
    RotatedContents(s, t);
    var r, p := Rotated(s, t), Promoted(s, t);
    assert InOrder(Child(r, Opp(s))) == InOrder(Child(p, Opp(s)));
    assert Links(Child(r, Opp(s))) == Links(Child(p, Opp(s)));
  }

  lemma RotatedContents(s: Side, t: Tree)
    requires t.Node? && Child(t, s).Node?
    ensures SameContents(t, Rotated(s, t))
  {
    var p := Child(t, s);
    var a, b, d := Child(p, s), Child(p, Opp(s)), Child(t, Opp(s));
    var low := Join(s, b, t.link, t.key, t.red, d);
    if s.Lt? {
      assert InOrder(t) == InOrder(a) + [Entry(p.link, p.key)] + InOrder(low);
    } else {
      assert InOrder(t) == InOrder(low) + [Entry(p.link, p.key)] + InOrder(a);
    }
  }

  /** The height a subtree has, read off its leftmost path. */
  ghost function Height(t: Tree): nat {
    if t.Nil? then 0 else Height(t.left) + if t.red then 0 else 1
  }

  lemma {:induction false} HeightUnique(t: Tree, h: int)
    requires RedBlack(t, h)
    ensures h == Height(t)
  {
    if t.Node? {
      HeightUnique(t.left, if t.red then h else h - 1);
    }
  }

  /** A tree is red-black exactly when the context and the subtree at any of its positions are
      and no red edge joins them. */
  lemma {:induction false} RedBlackPlug(c: Ctx, t: Tree, total: int)
    ensures RedBlack(Plug(c, t), total) <==>
            RedBlack(t, Height(t)) && RedBlackCtx(c, Height(t), total) && !(RedAbove(c) && IsRed(t))
    decreases c
  {
    match c
    case Top =>
      if RedBlack(t, total) { HeightUnique(t, total); }
    case In(_, up, _, _, red, _) =>
      var whole := Lifted(c, t);
      RedBlackPlug(up, whole, total);
      var below := if red then Height(whole) else Height(whole) - 1;
      if RedBlack(whole, Height(whole)) {
        HeightUnique(t, below);
      }
      if RedBlack(t, Height(t)) && RedBlackCtx(c, Height(t), total) && !(RedAbove(c) && IsRed(t)) {
        var h := if red then Height(t) else Height(t) + 1;
        assert RedBlack(whole, h);
        HeightUnique(whole, h);
      }
  }

  /** The position of link `x`: the context around it. */
  ghost function Locate(t: Tree, x: Link, c: Ctx): (Ctx, Tree)
    requires x in Links(t)
    decreases t
  {
    if t.link == x then (c, t)
    else if x in Links(t.left) then Locate(t.left, x, In(Lt, c, t.link, t.key, t.red, t.right))
    else Locate(t.right, x, In(Rt, c, t.link, t.key, t.red, t.left))
  }

  lemma {:induction false} LocateFinds(t: Tree, x: Link, c: Ctx)
    requires x in Links(t)
    ensures var (c', t') := Locate(t, x, c); t'.Node? && t'.link == x && Plug(c', t') == Plug(c, t)
    decreases t
  {
    if t.link != x {
      if x in Links(t.left) {
        LocateFinds(t.left, x, In(Lt, c, t.link, t.key, t.red, t.right));
      } else {
        LocateFinds(t.right, x, In(Rt, c, t.link, t.key, t.red, t.left));
      }
    }
  }

  // ----- comparison ------------------------------------------------------------------------

  /** A secondary comparison for links with equal keys; its reference object is fixed. */
  datatype Comparator = KeyOnly | Secondary(compare: Link -> int)

  function CompareKey(key1: int, key2: int): int {
    if key1 == key2 then 0 else if key1 > key2 then 1 else -1
  }

  /** Positive: the searched object belongs to the right of `e`; zero: `e` matches it. */
  function Verdict(cmp: Comparator, key: nat, e: Entry): int {
    var r := CompareKey(key, e.key);
    if r == 0 && cmp.Secondary? then cmp.compare(e.link) else r
  }

  /** The comparator agrees with the order of the tree: verdicts only fall along it. */
  ghost predicate Guides(cmp: Comparator, key: nat, s: seq<Entry>) {
    forall i, j :: 0 <= i < j < |s| ==>
      && (Verdict(cmp, key, s[j]) > 0 ==> Verdict(cmp, key, s[i]) > 0)
      && (Verdict(cmp, key, s[i]) < 0 ==> Verdict(cmp, key, s[j]) < 0)
  }

  /** Entries up to `lo` may stand before an entry with this key, entries from `hi` on after it;
      with a comparator that guides, they must. */
  ghost predicate Fits(cmp: Comparator, key: nat, s: seq<Entry>, lo: nat, hi: nat) {
    && lo <= hi <= |s|
    && (forall k :: 0 <= k < lo ==> s[k].key <= key)
    && (forall k :: hi <= k < |s| ==> key <= s[k].key)
    && (Guides(cmp, key, s) ==>
          && (forall k :: 0 <= k < lo ==> Verdict(cmp, key, s[k]) > 0)
          && (forall k :: hi <= k < |s| ==> Verdict(cmp, key, s[k]) < 0))
  }

  /** Comparing with entry `m` discards it and one side. */
  lemma FitsStep(cmp: Comparator, key: nat, s: seq<Entry>, lo: nat, m: nat, hi: nat)
    requires Sorted(s) && Fits(cmp, key, s, lo, hi) && lo <= m < hi
    ensures Verdict(cmp, key, s[m]) > 0 ==> Fits(cmp, key, s, m + 1, hi)
    ensures Verdict(cmp, key, s[m]) < 0 ==> Fits(cmp, key, s, lo, m)
  {
  }

  /** The same at a position of the tree. */
  lemma FitsDescend(cmp: Comparator, key: nat, c: Ctx, t: Tree)
    requires t.Node? && Sorted(InOrder(Plug(c, t))) && Fits(cmp, key, InOrder(Plug(c, t)), Low(c), High(c, t))
    ensures var s, m, v := InOrder(Plug(c, t)), Mid(c, t), Verdict(cmp, key, Entry(t.link, t.key));
      && m < |s| && s[m] == Entry(t.link, t.key)
      && (v > 0 ==> Fits(cmp, key, s, Low(Descend(c, t, Rt)), High(Descend(c, t, Rt), t.right)))
      && (v < 0 ==> Fits(cmp, key, s, Low(Descend(c, t, Lt)), High(Descend(c, t, Lt), t.left)))
    ensures Plug(Descend(c, t, Lt), t.left) == Plug(Descend(c, t, Rt), t.right) == Plug(c, t)
  {
    Middle(c, t);
    FitsStep(cmp, key, InOrder(Plug(c, t)), Low(c), Mid(c, t), High(c, t));
  }
}
