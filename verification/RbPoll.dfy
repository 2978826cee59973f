/** Draining an index of timers: walk backwards from the bound and extract every link passed. */
module RbPoll {
  import opened RbShape
  import opened RbHeap
  import opened RbIter
  import RbDelete

  /** How many entries a poll takes: those that are due, and one more exactly when the search for the
      bound stops one entry late. */
  ghost function Taken(w: Tree, f: nat): (k: nat)
    requires f <= |InOrder(w)|
    ensures |InOrder(w)| - f <= k <= |InOrder(w)|
  {
    if f > 0 && LopsidedAt(Lt, w, f - 1) then |InOrder(w)| - f + 1 else |InOrder(w)| - f
  }

  /** The links that are not in the tree any more are free. */
  ghost predicate Freed(all: set<Link>, t: Tree)
    reads all
  {
    forall x :: x in all && x !in Links(t) ==> x.Zeroed()
  }

  ghost function LatestFirst(s: seq<Entry>): seq<Link> {
    if s == [] then [] else LatestFirst(s[1..]) + [s[0].link]
  }

  /** The loop of the poll: the iterator moves before the link it stood on is extracted, so it stays valid.
      Every due entry is taken, latest first, and its link is free afterwards; the rest stays in its order. */
  method Drain(tree: RbRoot, now: nat) returns (taken: seq<Link>, ghost f: nat)
    requires tree.Valid()
    modifies tree, Links(tree.shape)
    ensures tree.Valid() && Links(tree.shape) <= Links(old(tree.shape))
    ensures Freed(Links(old(tree.shape)), tree.shape)
    ensures var s := InOrder(old(tree.shape));
      && IsFirst(Lt, s, now, f)
      && var k := Taken(old(tree.shape), f);
         && InOrder(tree.shape) == s[k..] && taken == LatestFirst(s[..k])
         && (forall i :: 0 <= i < |s| && s[i].key <= now ==> i < k)
  {
    var position;
    position, f := GotoBound(tree, now, Lt);
    taken := DrainFrom(tree, position, Taken(tree.shape, f));
  }

  lemma DrainStep(s: seq<Entry>, m: nat, k: nat)
    requires 0 < m <= k <= |s|
    ensures var cur := s[..m] + s[k..];
      && cur[m - 1] == s[m - 1] && (m > 1 ==> cur[m - 2] == s[m - 2])
      && cur[..m - 1] + cur[m..] == s[..m - 1] + s[k..]
    ensures LatestFirst(s[m - 1..k]) == LatestFirst(s[m..k]) + [s[m - 1].link]
  {
    assert s[m - 1..k][1..] == s[m..k];
  }

  method DrainFrom(tree: RbRoot, start: Link?, ghost k: nat) returns (taken: seq<Link>)
    requires tree.Valid() && k <= |InOrder(tree.shape)|
    requires start == if k == 0 then null else InOrder(tree.shape)[k - 1].link
    modifies tree, Links(tree.shape)
    ensures tree.Valid() && Links(tree.shape) <= Links(old(tree.shape))
    ensures Freed(Links(old(tree.shape)), tree.shape)
    ensures var s := InOrder(old(tree.shape));
      InOrder(tree.shape) == s[k..] && taken == LatestFirst(s[..k])
  {
    ghost var s, all := InOrder(tree.shape), Links(tree.shape);
    var position := start;
    ghost var m: nat := k;
    taken := [];
    assert s[..k] + s[k..] == s;
    while position != null
      invariant tree.Valid() && Links(tree.shape) <= all
      invariant Freed(all, tree.shape)
      invariant m <= k && InOrder(tree.shape) == s[..m] + s[k..]
      invariant position == if m == 0 then null else s[m - 1].link
      invariant taken == LatestFirst(s[m..k])
      decreases m
    {
      var x: Link := position;
      DrainStep(s, m, k);
      position := TakeOne(tree, x, m - 1, all);
      taken, m := taken + [x], m - 1;
    }
    assert s[..0] + s[k..] == s[k..] && s[0..k] == s[..k];
  }

  /** Step back from the link, then extract it: the order loses exactly its entry. */
  method TakeOne(tree: RbRoot, x: Link, ghost j: nat, ghost all: set<Link>) returns (previous: Link?)
    requires Links(tree.shape) <= all && Freed(all, tree.shape)
    requires tree.Valid() && j < |InOrder(tree.shape)| && InOrder(tree.shape)[j].link == x
    modifies tree, Links(tree.shape)
    ensures tree.Valid() && Links(tree.shape) <= Links(old(tree.shape)) && Freed(all, tree.shape)
    ensures var s := InOrder(old(tree.shape));
      InOrder(tree.shape) == s[..j] + s[j + 1..] && previous == if j == 0 then null else s[j - 1].link
  {
    ghost var s := InOrder(tree.shape);
    InOrderLinks(tree.shape);
    assert allocated(all);
    assert Nth(Lt, s, |s| - 1 - j).link == x;
    previous := Neighbour(tree, x, Lt, |s| - 1 - j);
    var found; ghost var at;
    found, at := RbDelete.ExtractNode(tree, x);
    assert at == j;
  }
}
