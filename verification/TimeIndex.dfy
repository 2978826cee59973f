/** The time index of the cache: a tree with the timers of the entries. */
module TimeIndex {
  import Shape = RbShape
  import Heap = RbHeap
  import Walk = RbPoll
  import Del = RbDelete
  import Ins = RbInsert
  import M = CacheModel

  type Link = Shape.Link
  type Id = M.Id
  type Ids = map<Link, Id>

  /** The time of every entry, zero for an entry that is not in the index. */
  type Keys = map<Id, int>

  /** The index lists exactly the entries that have a time, under that time. */
  ghost predicate Indexes(keys: Keys, order: seq<Shape.Entry>, ids: Ids) {
    && (forall i :: 0 <= i < |order| ==> Lists(keys, order[i], ids))
    && (forall id :: id in keys && keys[id] != 0 ==> Holds(order, ids, id))
  }

  /** The entry has a place in the index. */
  ghost predicate Holds(order: seq<Shape.Entry>, ids: Ids, id: Id) {
    exists i :: 0 <= i < |order| && IdOf(order[i], ids) == M.Some(id)
  }

  ghost predicate Lists(keys: Keys, e: Shape.Entry, ids: Ids) {
    e.link in ids && ids[e.link] in keys && keys[ids[e.link]] == e.key && e.key != 0
  }

  ghost function IdOf(e: Shape.Entry, ids: Ids): M.Option<Id> {
    if e.link in ids then M.Some(ids[e.link]) else M.None
  }

  /** The entries of the links. */
  function Named(ids: Ids, links: seq<Link>): (r: seq<Id>)
    requires forall i :: 0 <= i < |links| ==> links[i] in ids
    ensures |r| == |links| && forall i :: 0 <= i < |links| ==> r[i] == ids[links[i]]
  {
    if links == [] then [] else [ids[links[0]]] + Named(ids, links[1..])
  }

  lemma {:induction false} LatestFirstAt(s: seq<Shape.Entry>, i: nat)
    requires i < |s|
    ensures |Walk.LatestFirst(s)| == |s| && Walk.LatestFirst(s)[i] == s[|s| - 1 - i].link
    decreases |s|
  {
    if |s| > 1 {
      LatestFirstAt(s[1..], if i < |s| - 1 then i else 0);
    } else {
      assert Walk.LatestFirst(s[1..]) == [];
    }
  }

  /** What was taken from the front of the index are links of entries. */
  lemma {:induction false} TakenNamed(keys: Keys, order: seq<Shape.Entry>, ids: Ids, k: nat)
    requires Indexes(keys, order, ids) && k <= |order|
    ensures var taken := Walk.LatestFirst(order[..k]);
      && |taken| == k
      && forall i :: 0 <= i < k ==>
           taken[i] in ids && taken[i] == order[k - 1 - i].link && Lists(keys, order[k - 1 - i], ids)
  {
    var front := order[..k];
    if k == 0 {
      assert Walk.LatestFirst(front) == [];
    } else {
      LatestFirstAt(front, 0);
    }
    forall i | 0 <= i < k
      ensures Walk.LatestFirst(front)[i] == order[k - 1 - i].link && Lists(keys, order[k - 1 - i], ids)
    {
      LatestFirstAt(front, i);
    }
  }

  /** What a poll must take: every entry whose time has come, and none without a time. */
  ghost predicate Due(keys: Keys, bound: nat, due: seq<Id>) {
    && (forall i :: 0 <= i < |due| ==> due[i] in keys && keys[due[i]] != 0)
    && (forall id :: id in keys && 0 < keys[id] <= bound ==> id in due)
  }

  /** If the front of the index holds every key up to the bound, its entries are what a poll must take. */
  lemma {:induction false} TakenIsDue(keys: Keys, order: seq<Shape.Entry>, ids: Ids, k: nat, bound: nat)
    requires Indexes(keys, order, ids) && k <= |order|
    requires forall i :: 0 <= i < |order| && order[i].key <= bound ==> i < k
    ensures var taken := Walk.LatestFirst(order[..k]);
      (forall i :: 0 <= i < |taken| ==> taken[i] in ids) && Due(keys, bound, Named(ids, taken))
  {
    TakenNamed(keys, order, ids, k);
    var taken := Walk.LatestFirst(order[..k]);
    var due := Named(ids, taken);
    forall i | 0 <= i < |due| ensures due[i] in keys && keys[due[i]] != 0 {
      assert Lists(keys, order[k - 1 - i], ids);
    }
    forall id | id in keys && 0 < keys[id] <= bound ensures id in due {
      assert Holds(order, ids, id);
      var i :| 0 <= i < |order| && IdOf(order[i], ids) == M.Some(id);
      assert Lists(keys, order[i], ids);
      assert taken[k - 1 - i] == order[i].link;
      assert due[k - 1 - i] == id;
    }
  }

  // ----- the index afterwards -----------------------------------------------------------------------

  /** The times when those of `due` have been cleared. */
  ghost function Cleared(keys: Keys, due: seq<Id>): Keys {
    map id | id in keys :: if id in due then 0 else keys[id]
  }

  ghost predicate Injective(ids: Ids) {
    forall x, y :: x in ids && y in ids && ids[x] == ids[y] ==> x == y
  }

  ghost predicate DistinctLinks(order: seq<Shape.Entry>) {
    forall i, j :: 0 <= i < j < |order| ==> order[i].link != order[j].link
  }

  /** The entries of the first `k` places, latest first. */
  ghost predicate Front(order: seq<Shape.Entry>, ids: Ids, k: nat, due: seq<Id>) {
    k <= |order| && |due| == k && forall j :: 0 <= j < k ==> IdOf(order[k - 1 - j], ids) == M.Some(due[j])
  }

  /** An entry of the index is due exactly if it is in the part that was taken. */
  lemma {:induction false} DueAreFront(keys: Keys, order: seq<Shape.Entry>, ids: Ids, k: nat, due: seq<Id>, i: nat)
    requires Indexes(keys, order, ids) && Injective(ids)
    requires DistinctLinks(order) && i < |order| && Front(order, ids, k, due)
    ensures Lists(keys, order[i], ids) && (ids[order[i].link] in due <==> i < k)
  {
    assert Lists(keys, order[i], ids);
    forall j | 0 <= j < k ensures due[j] == ids[order[i].link] <==> i == k - 1 - j {
      assert Lists(keys, order[k - 1 - j], ids);
    }
    assert i < k ==> due[k - 1 - i] == ids[order[i].link];
  }

  /** The rest of the index lists exactly the entries that still have a time. */
  lemma {:induction false} RestIndexes(keys: Keys, order: seq<Shape.Entry>, ids: Ids, k: nat, due: seq<Id>)
    requires Indexes(keys, order, ids) && Injective(ids) && DistinctLinks(order) && Front(order, ids, k, due)
    ensures Indexes(Cleared(keys, due), order[k..], ids)
  {
    var keys', rest := Cleared(keys, due), order[k..];
    forall i | 0 <= i < |rest| ensures Lists(keys', rest[i], ids) {
      DueAreFront(keys, order, ids, k, due, k + i);
    }
    forall id | id in keys' && keys'[id] != 0
      ensures Holds(rest, ids, id)
    {
      assert Holds(order, ids, id);
      var i :| 0 <= i < |order| && IdOf(order[i], ids) == M.Some(id);
      DueAreFront(keys, order, ids, k, due, i);
      assert rest[i - k] == order[i];
    }
  }

  // ----- rescheduling -----------------------------------------------------------------------------------

  /** The index lists exactly the entries that have a time, but for `id`. */
  ghost predicate IndexesBut(keys: Keys, order: seq<Shape.Entry>, ids: Ids, id: Id) {
    && (forall i :: 0 <= i < |order| ==> Lists(keys, order[i], ids) && ids[order[i].link] != id)
    && (forall x :: x in keys && x != id && keys[x] != 0 ==> Holds(order, ids, x))
  }

  lemma {:induction false} WithoutKey(keys: Keys, order: seq<Shape.Entry>, ids: Ids, id: Id)
    requires Indexes(keys, order, ids) && id in keys && keys[id] == 0
    ensures IndexesBut(keys, order, ids, id)
  {
    forall i | 0 <= i < |order| ensures Lists(keys, order[i], ids) && ids[order[i].link] != id {
      assert Lists(keys, order[i], ids);
    }
  }

  lemma {:induction false} ExtractedIndexes(keys: Keys, order: seq<Shape.Entry>, ids: Ids, at: nat, id: Id)
    requires Indexes(keys, order, ids) && Injective(ids) && DistinctLinks(order)
    requires at < |order| && IdOf(order[at], ids) == M.Some(id)
    ensures IndexesBut(keys, Del.RemoveAt(order, at), ids, id)
  {
    var rest := Del.RemoveAt(order, at);
    forall i | 0 <= i < |rest| ensures Lists(keys, rest[i], ids) && ids[rest[i].link] != id {
      var j := if i < at then i else i + 1;
      assert rest[i] == order[j] && Lists(keys, order[j], ids);
    }
    forall x | x in keys && x != id && keys[x] != 0
      ensures Holds(rest, ids, x)
    {
      assert Holds(order, ids, x);
      var j :| 0 <= j < |order| && IdOf(order[j], ids) == M.Some(x);
      assert rest[if j < at then j else j - 1] == order[j];
    }
  }

  lemma {:induction false} InsertedIndexes(keys: Keys, order: seq<Shape.Entry>, ids: Ids, id: Id, at: nat,
                                           e: Shape.Entry, order': seq<Shape.Entry>)
    requires IndexesBut(keys, order, ids, id) && id in keys && e.link in ids && ids[e.link] == id && e.key != 0
    requires Ins.InsertedAt(order, order', at, e)
    ensures Indexes(keys[id := e.key], order', ids)
  {
    var keys' := keys[id := e.key];
    forall i | 0 <= i < |order'| ensures Lists(keys', order'[i], ids) {
      if i != at {
        var j := if i < at then i else i - 1;
        assert order'[i] == order[j] && Lists(keys, order[j], ids);
      }
    }
    forall x | x in keys' && keys'[x] != 0
      ensures Holds(order', ids, x)
    {
      if x == id {
        assert IdOf(order'[at], ids) == M.Some(id);
      } else {
        assert Holds(order, ids, x);
        var j :| 0 <= j < |order| && IdOf(order[j], ids) == M.Some(x);
        assert order'[if j < at then j else j + 1] == order[j];
      }
    }
  }

  /** The link is free, or in the index. */
  ghost predicate FreeOrIn(index: Heap.RbRoot, x: Link)
    reads index, Shape.Links(index.shape), x
  {
    x in Shape.Links(index.shape) || (index.root != x && x.Zeroed())
  }

  /** The key in the link is the time of its entry. */
  lemma {:induction false} KeyOfTimer(index: Heap.RbRoot, x: Link, ids: Ids, keys: Keys)
    requires index.Valid() && Indexes(keys, Shape.InOrder(index.shape), ids) && Injective(ids)
    requires x in ids && ids[x] in keys && FreeOrIn(index, x)
    requires x in Shape.Links(index.shape) <==> keys[ids[x]] != 0
    ensures x.Key() == keys[ids[x]]
  {
    if x in Shape.Links(index.shape) {
      Shape.LocateFinds(index.shape, x, Shape.Top);
      var (c, t) := Shape.Locate(index.shape, x, Shape.Top);
      Heap.At(index, c, t);
      Shape.Middle(c, t);
      assert Lists(keys, Shape.InOrder(index.shape)[Shape.Mid(c, t)], ids);
    }
  }

  /** Take the link out of the index. */
  method Unschedule(index: Heap.RbRoot, x: Link, ghost ids: Ids, ghost keys: Keys)
    requires index.Valid() && Indexes(keys, Shape.InOrder(index.shape), ids) && Injective(ids)
    requires x in ids && x in Shape.Links(index.shape)
    modifies index, Shape.Links(index.shape)
    ensures index.Valid() && IndexesBut(keys, Shape.InOrder(index.shape), ids, ids[x])
    ensures x.Zeroed() && index.root != x && Shape.Links(index.shape) == Shape.Links(old(index.shape)) - {x}
  {
    ghost var order := Shape.InOrder(index.shape);
    Shape.InOrderLinks(index.shape);
    var found; ghost var at;
    found, at := Del.ExtractNode(index, x);
    ExtractedIndexes(keys, order, ids, at, ids[x]);
    Heap.RootIsMember(index);
  }

  /** Insert the link under a new key.  The comparison that always says "after" never finds a duplicate. */
  method Schedule(index: Heap.RbRoot, x: Link, t: nat, ghost ids: Ids, ghost keys: Keys)
    requires index.Valid() && x in ids && ids[x] in keys && IndexesBut(keys, Shape.InOrder(index.shape), ids, ids[x])
    requires x.Zeroed() && index.root != x && 0 < t < Shape.KEY_LIMIT
    modifies index, Shape.Links(index.shape), x
    ensures index.Valid() && Indexes(keys[ids[x] := t], Shape.InOrder(index.shape), ids)
    ensures Shape.Links(index.shape) == Shape.Links(old(index.shape)) + {x}
  {
    ghost var order := Shape.InOrder(index.shape);
    ghost var at;
    var status;
    assert t % Shape.KEY_LIMIT == t;
    status, at := Ins.InsertValue(index, t, x, Shape.Secondary((y: Link) => 1));
    InsertedIndexes(keys, order, ids, ids[x], at, Shape.Entry(x, t), Shape.InOrder(index.shape));
  }

  /** Reschedule an entry: unless the key stays, its link leaves its old place, if it has one, and goes to
      the place of the new key; the index lists exactly the entries with a time again. */
  method MoveTimer(index: Heap.RbRoot, x: Link, t: nat, ghost ids: Ids, ghost keys: Keys)
    requires index.Valid() && Indexes(keys, Shape.InOrder(index.shape), ids) && Injective(ids)
    requires x in ids && ids[x] in keys && FreeOrIn(index, x) && 0 < t < Shape.KEY_LIMIT
    requires x in Shape.Links(index.shape) <==> keys[ids[x]] != 0
    modifies index, Shape.Links(index.shape), x
    ensures index.Valid() && Indexes(keys[ids[x] := t], Shape.InOrder(index.shape), ids)
    ensures Shape.Links(index.shape) == Shape.Links(old(index.shape)) + {x}
  {
    KeyOfTimer(index, x, ids, keys);
    var previous := x.Key();
    if t == previous {
      assert keys[ids[x] := t] == keys;
      return;
    }
    if previous != 0 {
      Unschedule(index, x, ids, keys);
    } else {
      WithoutKey(keys, Shape.InOrder(index.shape), ids, ids[x]);
    }
    Schedule(index, x, t, ids, keys);
  }

  // ----- the index with its entries ------------------------------------------------------------------------

  /** Every entry has a link of its own, and `owner` leads back from the link to the entry. */
  ghost predicate Embedded(links: map<Id, Link>, owner: Ids) {
    && (forall id :: id in links ==> links[id] in owner && owner[links[id]] == id)
    && (forall x :: x in owner ==> owner[x] in links && links[owner[x]] == x)
  }

  /** The entries with a time are those whose links are in the tree. */
  ghost predicate Times(keys: Keys, shape: Shape.Tree, links: map<Id, Link>, owner: Ids) {
    && Embedded(links, owner) && links.Keys == keys.Keys
    && Shape.Distinct(shape) && Shape.Links(shape) <= owner.Keys && Indexes(keys, Shape.InOrder(shape), owner)
  }

  lemma {:induction false} Members(keys: Keys, shape: Shape.Tree, links: map<Id, Link>, owner: Ids, x: Link)
    requires Times(keys, shape, links, owner) && x in owner
    ensures Injective(owner) && DistinctLinks(Shape.InOrder(shape)) && owner[x] in keys
    ensures x in Shape.Links(shape) <==> keys[owner[x]] != 0
  {
    Shape.InOrderLinks(shape);
    if x in Shape.Links(shape) {
      Shape.LocateFinds(shape, x, Shape.Top);
      var (c, t) := Shape.Locate(shape, x, Shape.Top);
      Shape.Middle(c, t);
      assert Lists(keys, Shape.InOrder(shape)[Shape.Mid(c, t)], owner);
    }
    if keys[owner[x]] != 0 {
      assert Holds(Shape.InOrder(shape), owner, owner[x]);
      var i :| 0 <= i < |Shape.InOrder(shape)| && IdOf(Shape.InOrder(shape)[i], owner) == M.Some(owner[x]);
      assert Lists(keys, Shape.InOrder(shape)[i], owner);
    }
  }

  /** An entry with a time is in the tree under that time. */
  lemma {:induction false} TimerListed(keys: Keys, shape: Shape.Tree, links: map<Id, Link>, owner: Ids, id: Id)
    requires Times(keys, shape, links, owner) && id in keys && keys[id] > 0
    ensures id in links && Shape.Entry(links[id], keys[id]) in Shape.InOrder(shape)
  {
    var order := Shape.InOrder(shape);
    assert Holds(order, owner, id);
    var i :| 0 <= i < |order| && IdOf(order[i], owner) == M.Some(id);
    assert Lists(keys, order[i], owner);
    assert order[i] == Shape.Entry(links[id], keys[id]);
  }

  class Timers {
    const tree: Heap.RbRoot
    var links: map<Id, Link>
    var owner: Ids
    ghost var keys: Keys

    ghost function Repr(): set<object>
      reads this
    {
      {this, tree} + owner.Keys
    }

    ghost predicate Valid()
      reads this, Repr()
    {
      Times(keys, tree.shape, links, owner) && tree.Valid() && Walk.Freed(owner.Keys, tree.shape)
    }

    constructor ()
      ensures Valid() && keys == map[] && fresh(Repr())
    {
      tree := new Heap.RbRoot();
      links, owner, keys := map[], map[], map[];
    }

    /** A new entry has no time yet. */
    method Add(id: Id)
      requires Valid() && id !in keys
      modifies this
      ensures Valid() && keys == old(keys)[id := 0] && fresh(Repr() - old(Repr()))
    {
      var x := new Shape.Link();
      AddTimes(keys, tree.shape, links, owner, id, x);
      links, owner := links[id := x], owner[x := id];
      keys := keys[id := 0];
    }

    /** Have the entry looked at at this time. */
    method Set(id: Id, t: nat)
      requires Valid() && id in keys && 0 < t < Shape.KEY_LIMIT
      modifies Repr()
      ensures Valid() && keys == old(keys)[id := t] && Repr() == old(Repr())
    {
      var x := links[id];
      Members(keys, tree.shape, links, owner, x);
      Heap.RootIsMember(tree);
      MoveTimer(tree, x, t, owner, keys);
      keys := keys[id := t];
    }

    /** Take an entry out of the index, if it is in it, and forget it. */
    method Drop(id: Id)
      requires Valid() && id in keys
      modifies Repr()
      ensures Valid() && keys == old(keys) - {id} && Repr() <= old(Repr())
    {
      var x := links[id];
      Members(keys, tree.shape, links, owner, x);
      Detach(id, x);
      ForgetIndexes(keys, Shape.InOrder(tree.shape), owner, id, x);
      links, owner := links - {id}, owner - {x};
      keys := keys - {id};
    }

    /** Take a link out of the tree, if it is in it: its key tells. */
    method Detach(id: Id, x: Link)
      requires Valid() && x in owner && owner[x] == id && Injective(owner)
      requires id in keys && (x in Shape.Links(tree.shape) <==> keys[id] != 0)
      modifies tree, Shape.Links(tree.shape)
      ensures tree.Valid() && IndexesBut(keys, Shape.InOrder(tree.shape), owner, id)
      ensures Shape.Links(tree.shape) == Shape.Links(old(tree.shape)) - {x} && Walk.Freed(owner.Keys, tree.shape)
    {
      Heap.RootIsMember(tree);
      KeyOfTimer(tree, x, owner, keys);
      if x.Key() != 0 {
        Unschedule(tree, x, owner, keys);
      } else {
        WithoutKey(keys, Shape.InOrder(tree.shape), owner, id);
      }
    }

    /** The poll: all entries whose time has come leave the index, and are returned. */
    method Drain(bound: nat) returns (due: seq<Id>)
      requires Valid()
      modifies Repr()
      ensures Valid() && keys == Cleared(old(keys), due) && Due(old(keys), bound, due) && Repr() == old(Repr())
    {
      var taken; ghost var f;
      taken, f := Walk.Drain(tree, bound);
      ghost var k := Walk.Taken(old(tree.shape), f);
      DrainTimes(keys, old(tree.shape), tree.shape, links, owner, k, bound);
      due := Named(owner, taken);
      keys := Cleared(keys, due);
    }
  }

  lemma {:induction false} DrainTimes(keys: Keys, shape: Shape.Tree, shape': Shape.Tree, links: map<Id, Link>,
                                      owner: Ids, k: nat, bound: nat)
    requires Times(keys, shape, links, owner) && k <= |Shape.InOrder(shape)|
    requires forall i :: 0 <= i < |Shape.InOrder(shape)| && Shape.InOrder(shape)[i].key <= bound ==> i < k
    requires Shape.Distinct(shape') && Shape.Links(shape') <= Shape.Links(shape)
    requires Shape.InOrder(shape') == Shape.InOrder(shape)[k..]
    ensures var taken := Walk.LatestFirst(Shape.InOrder(shape)[..k]);
      && (forall i :: 0 <= i < |taken| ==> taken[i] in owner)
      && Due(keys, bound, Named(owner, taken)) && Times(Cleared(keys, Named(owner, taken)), shape', links, owner)
  {
    var order := Shape.InOrder(shape);
    Shape.InOrderLinks(shape);
    TakenIsDue(keys, order, owner, k, bound);
    TakenNamed(keys, order, owner, k);
    RestIndexes(keys, order, owner, k, Named(owner, Walk.LatestFirst(order[..k])));
  }

  lemma {:induction false} AddTimes(keys: Keys, shape: Shape.Tree, links: map<Id, Link>, owner: Ids, id: Id, x: Link)
    requires Times(keys, shape, links, owner) && id !in keys && x !in owner
    ensures Times(keys[id := 0], shape, links[id := x], owner[x := id])
  {
    var order := Shape.InOrder(shape);
    forall i | 0 <= i < |order| ensures Lists(keys[id := 0], order[i], owner[x := id]) {
      assert Lists(keys, order[i], owner);
    }
    forall y | y in keys && keys[y] != 0 ensures Holds(order, owner[x := id], y) {
      assert Holds(order, owner, y);
      var i :| 0 <= i < |order| && IdOf(order[i], owner) == M.Some(y);
      assert Lists(keys, order[i], owner);
      assert IdOf(order[i], owner[x := id]) == M.Some(y);
    }
  }

  lemma {:induction false} ForgetIndexes(keys: Keys, order: seq<Shape.Entry>, ids: Ids, id: Id, x: Link)
    requires IndexesBut(keys, order, ids, id) && x in ids && ids[x] == id
    ensures Indexes(keys - {id}, order, ids - {x})
  {
    forall i | 0 <= i < |order| ensures Lists(keys - {id}, order[i], ids - {x}) {
      assert Lists(keys, order[i], ids);
    }
    forall y | y in keys - {id} && keys[y] != 0
      ensures Holds(order, ids - {x}, y)
    {
      assert Holds(order, ids, y);
      var i :| 0 <= i < |order| && IdOf(order[i], ids) == M.Some(y);
      assert Lists(keys, order[i], ids);
      assert IdOf(order[i], ids - {x}) == M.Some(y);
    }
  }
}
