/** What every operation of the memory pool keeps. */
module PoolInv {
  import opened Unsigned
  import opened PoolModel

  ghost predicate NoRepeats(l: seq<Id>) { forall i, j :: 0 <= i < j < |l| ==> l[i] != l[j] }

  // ----- queues -------------------------------------------------------------------------------------

  /** The queue holds exactly the blocks of that place, each once. */
  ghost predicate QueueOk(queue: seq<Id>, place: Place, blocks: map<Id, Block>) {
    && NoRepeats(queue)
    && (forall id :: id in queue ==> id in blocks && blocks[id].place == place)
    && (forall id :: id in blocks && blocks[id].place == place ==> id in queue)
  }

  lemma QueueSame(queue: seq<Id>, place: Place, blocks: map<Id, Block>, id: Id, b: Block)
    requires id in blocks && b.place != place && blocks[id].place != place
    ensures QueueOk(queue, place, blocks) ==> QueueOk(queue, place, blocks[id := b])
  {
  }

  lemma QueuePush(queue: seq<Id>, place: Place, blocks: map<Id, Block>, id: Id, b: Block)
    requires id in blocks && b.place == place && blocks[id].place != place
    ensures QueueOk(queue, place, blocks) ==> QueueOk(queue + [id], place, blocks[id := b])
  {
  }

  lemma QueuePull(queue: seq<Id>, place: Place, blocks: map<Id, Block>, b: Block)
    requires queue != [] && b.place != place
    ensures QueueOk(queue, place, blocks) ==> QueueOk(queue[1..], place, blocks[queue[0] := b])
  {
    assert queue == [queue[0]] + queue[1..];
  }

  // ----- lists --------------------------------------------------------------------------------------

  ghost predicate MembersOk(l: seq<Id>, place: Place, blocks: map<Id, Block>) {
    NoRepeats(l) && forall x :: x in l ==> x in blocks && blocks[x].place == place
  }

  /** The lists of this block hold blocks that are there, and this block is where its place says. */
  ghost predicate ListsAt(blocks: map<Id, Block>, id: Id)
    requires id in blocks
  {
    var b := blocks[id];
    && MembersOk(b.first, Within(id, false), blocks) && MembersOk(b.second, Within(id, true), blocks)
    && (b.place.Within? ==>
      b.place.owner != id && b.place.owner in blocks && id in List(blocks[b.place.owner], b.place.second))
  }

  ghost predicate ListsOk(blocks: map<Id, Block>) {
    forall id {:trigger ListsAt(blocks, id)} :: id in blocks ==> ListsAt(blocks, id)
  }

  // ----- use and counts ---------------------------------------------------------------------------------

  ghost predicate UseOk(b: Block) {
    && (b.refcount > 0 ==> b.place == Loose && !b.doomed && b.kind != Ref)
    && (b.doomed ==> b.place == Loose && b.kind != Ref)
    && (b.place == Free ==> b == EMPTY)
    && (b.target.Some? ==> b.kind == Ref)
    && (b.first != [] ==> HasList(b.kind, false)) && (b.second != [] ==> HasList(b.kind, true))
  }

  ghost predicate UsesOk(blocks: map<Id, Block>) {
    && (forall id {:trigger UseOk(blocks[id])} :: id in blocks ==> UseOk(blocks[id]))
    && (forall id {:trigger blocks[id].target} :: id in blocks && blocks[id].target.Some? ==>
      blocks[id].target.value in blocks)
  }

  ghost function RefsTo(blocks: map<Id, Block>, id: Id): set<Id> {
    set r | r in blocks && blocks[r].target == Some(id)
  }

  /** The count of a block is the number of references held by clients and of reference blocks. */
  ghost predicate CountsOk(blocks: map<Id, Block>, light: multiset<Id>) {
    && (forall id :: id in light ==> id in blocks)
    && (forall id :: id in blocks ==> blocks[id].refcount == light[id] + |RefsTo(blocks, id)|)
  }

  ghost predicate BlocksOk(blocks: map<Id, Block>, light: multiset<Id>) {
    ListsOk(blocks) && UsesOk(blocks) && CountsOk(blocks, light)
  }

  lemma CountsKept(blocks: map<Id, Block>, blocks': map<Id, Block>, light: multiset<Id>)
    requires blocks'.Keys == blocks.Keys
    requires forall r :: r in blocks ==>
      blocks'[r].target == blocks[r].target && blocks'[r].refcount == blocks[r].refcount
    ensures CountsOk(blocks, light) ==> CountsOk(blocks', light)
  {
    forall id: Id ensures RefsTo(blocks', id) == RefsTo(blocks, id) {
      assert forall r :: r in RefsTo(blocks', id) <==> r in RefsTo(blocks, id);
    }
  }

  lemma ListsMove(blocks: map<Id, Block>, id: Id, b: Block)
    requires id in blocks && !blocks[id].place.Within? && !b.place.Within?
    requires b.first == blocks[id].first && b.second == blocks[id].second
    ensures ListsOk(blocks) ==> ListsOk(blocks[id := b])
  {
    var blocks' := blocks[id := b];
    if ListsOk(blocks) {
      forall x | x in blocks' ensures ListsAt(blocks', x) {
        assert ListsAt(blocks, x);
      }
    }
  }

  lemma UsesPut(blocks: map<Id, Block>, id: Id, b: Block)
    requires id in blocks && UseOk(b) && (b.target.Some? ==> b.target.value in blocks)
    ensures UsesOk(blocks) ==> UsesOk(blocks[id := b])
  {
  }

  /** A block that is in no list moves to another place; nothing else changes. */
  lemma MoveKeeps(blocks: map<Id, Block>, light: multiset<Id>, id: Id, b: Block)
    requires BlocksOk(blocks, light) && id in blocks && UseOk(b) && !blocks[id].place.Within? && !b.place.Within?
    requires b == blocks[id].(place := b.place, doomed := b.doomed, kind := b.kind)
    ensures BlocksOk(blocks[id := b], light)
  {
    CountsKept(blocks, blocks[id := b], light);
    ListsMove(blocks, id, b);
    UsesPut(blocks, id, b);
  }

  ghost predicate MarkOk(s: State) {
    s.threshold < COUNT_LIMIT && |s.blocks| - |s.free| <= s.watermark <= |s.blocks|
  }

  ghost predicate QueuesOk(s: State) {
    QueueOk(s.free, Free, s.blocks) && QueueOk(s.recycle, Recycled, s.blocks)
  }

  ghost predicate Inv(s: State) { QueuesOk(s) && BlocksOk(s.blocks, s.light) && MarkOk(s) }

  // ----- recycling ----------------------------------------------------------------------------------

  lemma RecycleKeeps(s: State, id: Id)
    requires Inv(s) && id in s.blocks && s.blocks[id].place == Loose && s.blocks[id].refcount == 0
    ensures Inv(Recycle(s, id))
  {
    var b := s.blocks[id].(place := Recycled, doomed := false);
    assert UseOk(s.blocks[id]);
    QueueSame(s.free, Free, s.blocks, id, b);
    QueuePush(s.recycle, Recycled, s.blocks, id, b);
    MoveKeeps(s.blocks, s.light, id, b);
    assert s.blocks[id := b].Keys == s.blocks.Keys;
  }

  /** The collector only ever meets blocks that nothing refers to. */
  lemma CollectStartKeeps(s: State)
    requires Inv(s) && s.recycle != []
    ensures s.recycle[0] in s.blocks && s.blocks[s.recycle[0]].refcount == 0 && Inv(CollectStart(s))
  {
    var id := s.recycle[0];
    var b := s.blocks[id].(place := Collecting);
    assert UseOk(s.blocks[id]);
    QueueSame(s.free, Free, s.blocks, id, b);
    QueuePull(s.recycle, Recycled, s.blocks, b);
    MoveKeeps(s.blocks, s.light, id, b);
    assert s.blocks[id := b].Keys == s.blocks.Keys;
  }

  lemma CollectEndKeeps(s: State, id: Id)
    requires Inv(s) && id in s.blocks && s.blocks[id].place == Collecting
    requires s.blocks[id].first == s.blocks[id].second == [] && s.blocks[id].target.None?
    ensures Inv(CollectEnd(s, id))
  {
    assert UseOk(s.blocks[id]);
    QueuePush(s.free, Free, s.blocks, id, EMPTY);
    QueueSame(s.recycle, Recycled, s.blocks, id, EMPTY);
    MoveKeeps(s.blocks, s.light, id, EMPTY);
    assert s.blocks[id := EMPTY].Keys == s.blocks.Keys;
  }

  // ----- allocation -----------------------------------------------------------------------------------

  lemma AllocKeeps(s: State, kind: Kind)
    requires Inv(s) && s.free != [] && kind != Undefined && kind != Ref
    ensures s.free[0] in s.blocks && Inv(Alloc(s, kind, None))
  {
    var id := s.free[0];
    var b := EMPTY.(kind := kind, place := Loose);
    assert UseOk(s.blocks[id]);
    QueuePull(s.free, Free, s.blocks, b);
    QueueSame(s.recycle, Recycled, s.blocks, id, b);
    MoveKeeps(s.blocks, s.light, id, b);
    assert s.blocks[id := b].Keys == s.blocks.Keys;
  }

  // ----- references ----------------------------------------------------------------------------------

  /** Only the count of the block and its doom change. */
  lemma RecountKeeps(blocks: map<Id, Block>, light: multiset<Id>, light': multiset<Id>, id: Id, b: Block)
    requires BlocksOk(blocks, light) && id in blocks && UseOk(b)
    requires b == blocks[id].(refcount := b.refcount, doomed := b.doomed) && blocks[id].place == Loose
    requires light' == light[id := light'[id]] && b.refcount + light[id] == blocks[id].refcount + light'[id]
    ensures BlocksOk(blocks[id := b], light')
  {
    RecountCounts(blocks, light, light', id, b);
    ListsMove(blocks, id, b);
    UsesPut(blocks, id, b);
  }

  lemma RecountCounts(blocks: map<Id, Block>, light: multiset<Id>, light': multiset<Id>, id: Id, b: Block)
    requires id in blocks && b.target == blocks[id].target
    requires light' == light[id := light'[id]] && b.refcount + light[id] == blocks[id].refcount + light'[id]
    ensures CountsOk(blocks, light) ==> CountsOk(blocks[id := b], light')
  {
    var blocks' := blocks[id := b];
    assert forall x :: RefsTo(blocks', x) == RefsTo(blocks, x);
  }

  lemma LooseQueues(s: State, id: Id, b: Block)
    requires id in s.blocks && s.blocks[id].place == b.place == Loose
    ensures QueuesOk(s) ==> QueuesOk(Put(s, id, b)) && Put(s, id, b).blocks.Keys == s.blocks.Keys
  {
  }

  lemma Recounted(s: State, id: Id, b: Block, light: multiset<Id>, s': State)
    requires s' == Put(s, id, b).(light := light) && id in s.blocks
    ensures MarkOk(s) && QueuesOk(Put(s, id, b)) && BlocksOk(s.blocks[id := b], light) ==> Inv(s')
  {
    assert s.blocks[id := b].Keys == s.blocks.Keys;
  }

  lemma RetainKeeps(s: State, id: Id)
    requires Inv(s) && id in s.blocks && s.blocks[id].place == Loose && !s.blocks[id].doomed && s.blocks[id].kind != Ref
    ensures Inv(Retain(s, id))
  {
    var b := Raised(s.blocks[id]);
    assert UseOk(s.blocks[id]);
    LooseQueues(s, id, b);
    RecountKeeps(s.blocks, s.light, s.light + multiset{id}, id, b);
    Recounted(s, id, b, s.light + multiset{id}, Retain(s, id));
  }

  /** A block that is referred to is in use and nobody has let go of it. */
  lemma Referenced(s: State, id: Id)
    requires Inv(s) && id in s.light
    ensures id in s.blocks && s.blocks[id].refcount > 0 && s.blocks[id].place == Loose
    ensures !s.blocks[id].doomed && s.blocks[id].kind != Ref
  {
    assert UseOk(s.blocks[id]);
  }

  lemma ReleaseKeeps(s: State, id: Id)
    requires Inv(s) && id in s.light
    ensures id in s.blocks && Inv(Release(s, id))
  {
    Referenced(s, id);
    var b := Dropped(s.blocks[id]);
    assert UseOk(s.blocks[id]);
    LooseQueues(s, id, b);
    RecountKeeps(s.blocks, s.light, s.light - multiset{id}, id, b);
    Recounted(s, id, b, s.light - multiset{id}, Release(s, id));
  }

  /** Two blocks change their counts or targets; neither moves out of or into a list. */
  lemma TwoListsUses(blocks: map<Id, Block>, r: Id, b: Block, t: Id, c: Block)
    requires r in blocks && t in blocks && r != t && UseOk(b) && UseOk(c)
    requires !blocks[r].place.Within? && !b.place.Within? && b.first == blocks[r].first && b.second == blocks[r].second
    requires !blocks[t].place.Within? && !c.place.Within? && c.first == blocks[t].first && c.second == blocks[t].second
    requires (b.target.Some? ==> b.target.value in blocks) && c.target.None?
    ensures ListsOk(blocks) && UsesOk(blocks) ==> ListsOk(blocks[r := b][t := c]) && UsesOk(blocks[r := b][t := c])
  {
    ListsMove(blocks, r, b);
    ListsMove(blocks[r := b], t, c);
    UsesPut(blocks, r, b);
    UsesPut(blocks[r := b], t, c);
  }

  /** The references to a block that is not involved are the same. */
  lemma RefsElse(blocks: map<Id, Block>, r: Id, b: Block, t: Id, c: Block, x: Id)
    requires r in blocks && t in blocks && r != t && x != t && c.target == blocks[t].target
    requires (blocks[r].target == Some(t) || blocks[r].target.None?) && (b.target == Some(t) || b.target.None?)
    ensures RefsTo(blocks[r := b][t := c], x) == RefsTo(blocks, x)
  {
    var blocks' := blocks[r := b][t := c];
    forall y ensures y in RefsTo(blocks', x) <==> y in RefsTo(blocks, x) {
    }
  }

  lemma RefsMore(blocks: map<Id, Block>, r: Id, b: Block, t: Id, c: Block)
    requires r in blocks && t in blocks && r != t && c.target == blocks[t].target
    requires blocks[r].target.None? && b.target == Some(t)
    ensures |RefsTo(blocks[r := b][t := c], t)| == |RefsTo(blocks, t)| + 1
  {
    var blocks' := blocks[r := b][t := c];
    forall y ensures y in RefsTo(blocks', t) <==> y in RefsTo(blocks, t) || y == r {
    }
    assert RefsTo(blocks', t) == RefsTo(blocks, t) + {r};
  }

  /** A reference block appears, and the count of its target goes up. */
  lemma CountsUp(blocks: map<Id, Block>, light: multiset<Id>, r: Id, b: Block, t: Id, c: Block)
    requires r in blocks && t in blocks && r != t && blocks[r].target.None? && b.target == Some(t)
    requires b.refcount == blocks[r].refcount && c.refcount == blocks[t].refcount + 1 && c.target == blocks[t].target
    ensures CountsOk(blocks, light) ==> CountsOk(blocks[r := b][t := c], light)
  {
    RefsMore(blocks, r, b, t, c);
    forall x | x != t ensures RefsTo(blocks[r := b][t := c], x) == RefsTo(blocks, x) {
      RefsElse(blocks, r, b, t, c, x);
    }
  }

  lemma RefsLess(blocks: map<Id, Block>, r: Id, b: Block, t: Id, c: Block)
    requires r in blocks && t in blocks && r != t && c.target == blocks[t].target
    requires blocks[r].target == Some(t) && b.target.None?
    ensures |RefsTo(blocks[r := b][t := c], t)| + 1 == |RefsTo(blocks, t)|
  {
    var blocks' := blocks[r := b][t := c];
    forall y ensures y in RefsTo(blocks, t) <==> y in RefsTo(blocks', t) || y == r {
    }
    assert RefsTo(blocks, t) == RefsTo(blocks', t) + {r};
  }

  /** A reference block lets go, and the count of its target goes down. */
  lemma CountsDown(blocks: map<Id, Block>, light: multiset<Id>, r: Id, b: Block, t: Id, c: Block)
    requires r in blocks && t in blocks && r != t && blocks[r].target == Some(t) && b.target.None?
    requires b.refcount == blocks[r].refcount && c.refcount + 1 == blocks[t].refcount && c.target == blocks[t].target
    ensures CountsOk(blocks, light) ==> CountsOk(blocks[r := b][t := c], light)
  {
    RefsLess(blocks, r, b, t, c);
    forall x | x != t ensures RefsTo(blocks[r := b][t := c], x) == RefsTo(blocks, x) {
      RefsElse(blocks, r, b, t, c, x);
    }
  }

  /** The target of a reference block is in use. */
  lemma Targeted(s: State, r: Id)
    requires Inv(s) && r in s.blocks && s.blocks[r].target.Some?
    ensures var t := s.blocks[r].target.value;
      && t in s.blocks && t != r && s.blocks[t].refcount > 0
      && s.blocks[t].place == Loose && !s.blocks[t].doomed && s.blocks[t].kind != Ref
  {
    var t := s.blocks[r].target.value;
    assert r in RefsTo(s.blocks, t);
    assert UseOk(s.blocks[t]) && UseOk(s.blocks[r]);
  }

  lemma UnlinkKeeps(s: State, r: Id)
    requires Inv(s) && r in s.blocks && s.blocks[r].place == Collecting && s.blocks[r].target.Some?
    ensures s.blocks[r].target.value in s.blocks && Inv(Unlink(s, r))
  {
    Targeted(s, r);
    var t := s.blocks[r].target.value;
    var b, c := s.blocks[r].(target := None), Dropped(s.blocks[t]);
    assert UseOk(s.blocks[r]) && UseOk(s.blocks[t]);
    TwoListsUses(s.blocks, r, b, t, c);
    CountsDown(s.blocks, s.light, r, b, t, c);
    TwoQueues(s, r, b, t, c);
  }

  /** Neither block is or gets on a queue. */
  lemma TwoQueues(s: State, r: Id, b: Block, t: Id, c: Block)
    requires r in s.blocks && t in s.blocks && r != t
    requires s.blocks[r].place == b.place && s.blocks[t].place == c.place
    ensures QueuesOk(s) && MarkOk(s) ==>
      QueuesOk(Put(Put(s, r, b), t, c)) && MarkOk(Put(Put(s, r, b), t, c))
  {
    assert s.blocks[r := b][t := c].Keys == s.blocks.Keys;
  }

  lemma MakeRefKeeps(s: State, id: Id)
    requires Inv(s) && s.free != [] && id in s.light
    ensures id in s.blocks && Inv(MakeRef(s, id))
  {
    Referenced(s, id);
    var r := s.free[0];
    var b, c := EMPTY.(kind := Ref, place := Loose, target := Some(id)), Raised(s.blocks[id]);
    assert UseOk(s.blocks[r]) && UseOk(s.blocks[id]);
    TwoListsUses(s.blocks, r, b, id, c);
    CountsUp(s.blocks, s.light, r, b, id, c);
    RefQueues(s, r, b, id, c);
  }

  lemma RefQueues(s: State, r: Id, b: Block, id: Id, c: Block)
    requires s.free != [] && r == s.free[0] && id in s.blocks && id != r
    requires b.place == Loose && s.blocks[id].place == c.place == Loose
    requires b == EMPTY.(kind := Ref, place := Loose, target := Some(id)) && c == Raised(s.blocks[id])
    ensures QueuesOk(s) && MarkOk(s) ==>
      QueuesOk(MakeRef(s, id)) && MarkOk(MakeRef(s, id)) && MakeRef(s, id).blocks == s.blocks[r := b][id := c]
        && MakeRef(s, id).light == s.light
  {
    if QueuesOk(s) && MarkOk(s) {
      QueuePull(s.free, Free, s.blocks, b);
      QueueSame(s.recycle, Recycled, s.blocks, r, b);
      QueueSame(s.free[1..], Free, s.blocks[r := b], id, c);
      QueueSame(s.recycle, Recycled, s.blocks[r := b], id, c);
      assert s.blocks[r := b][id := c].Keys == s.blocks.Keys;
    }
  }

  // ----- lists ----------------------------------------------------------------------------------------

  /** Members that did not move are still members. */
  lemma MembersKept(l: seq<Id>, place: Place, blocks: map<Id, Block>, blocks': map<Id, Block>)
    requires forall x :: x in l && x in blocks ==> x in blocks' && blocks'[x].place == blocks[x].place
    ensures MembersOk(l, place, blocks) ==> MembersOk(l, place, blocks')
  {
  }

  /** `id` moved from outside all lists to the end of list `w` of `owner`. */
  ghost predicate Attached(blocks: map<Id, Block>, blocks': map<Id, Block>, id: Id, owner: Id, w: bool) {
    && id in blocks && owner in blocks && id != owner && !blocks[id].place.Within?
    && blocks'.Keys == blocks.Keys && blocks'[id] == blocks[id].(place := Within(owner, w))
    && blocks'[owner] == WithList(blocks[owner], w, List(blocks[owner], w) + [id])
    && forall x :: x in blocks && x != id && x != owner ==> blocks'[x] == blocks[x]
  }

  lemma AttachedMembers(blocks: map<Id, Block>, blocks': map<Id, Block>, id: Id, owner: Id, w: bool, x: Id, v: bool)
    requires Attached(blocks, blocks', id, owner, w) && x in blocks
    requires MembersOk(List(blocks[x], v), Within(x, v), blocks)
    ensures MembersOk(List(blocks'[x], v), Within(x, v), blocks')
  {
    var l := List(blocks[x], v);
    assert id !in l;
    MembersKept(l, Within(x, v), blocks, blocks');
  }

  lemma AttachLists(blocks: map<Id, Block>, blocks': map<Id, Block>, id: Id, owner: Id, w: bool)
    requires ListsOk(blocks) && Attached(blocks, blocks', id, owner, w)
    ensures ListsOk(blocks')
  {
    forall x | x in blocks' ensures ListsAt(blocks', x) {
      assert ListsAt(blocks, x);
      AttachedMembers(blocks, blocks', id, owner, w, x, false);
      AttachedMembers(blocks, blocks', id, owner, w, x, true);
    }
  }

  /** A list of a block may change without harm to the rest of it. */
  lemma ListUse(b: Block, w: bool, l: seq<Id>)
    requires b.place != Free && HasList(b.kind, w)
    ensures var c := WithList(b, w, l);
      (UseOk(b) ==> UseOk(c)) && c.place == b.place && c.target == b.target && c.refcount == b.refcount
  {
  }

  lemma AttachKeeps(s: State, id: Id, owner: Id, w: bool)
    requires Inv(s) && id in s.blocks && owner in s.blocks && id != owner && HasList(s.blocks[owner].kind, w)
    requires s.blocks[id].place == Loose && s.blocks[id].refcount == 0 && !s.blocks[id].doomed
    requires s.blocks[owner].place != Free && s.blocks[owner].place != Recycled
    ensures Inv(Attach(s, id, owner, w))
  {
    var b, c := s.blocks[id].(place := Within(owner, w)), WithList(s.blocks[owner], w, List(s.blocks[owner], w) + [id]);
    assert UseOk(s.blocks[id]) && UseOk(s.blocks[owner]);
    ListUse(s.blocks[owner], w, List(s.blocks[owner], w) + [id]);
    AttachLists(s.blocks, s.blocks[id := b][owner := c], id, owner, w);
    OutsideKeeps(s, id, b, owner, c);
  }

  predicate Outside(p: Place) { p != Free && p != Recycled }

  /** Two blocks outside the queues change their place or lists, but not their targets and counts. */
  lemma OutsideKeeps(s: State, r: Id, b: Block, t: Id, c: Block)
    requires r in s.blocks && t in s.blocks && r != t
    ensures Inv(s) && ListsOk(s.blocks[r := b][t := c]) && SameUse(s.blocks[r], b) && SameUse(s.blocks[t], c) ==>
      Inv(Put(Put(s, r, b), t, c))
  {
    if Inv(s) && ListsOk(s.blocks[r := b][t := c]) && SameUse(s.blocks[r], b) && SameUse(s.blocks[t], c) {
      OutsideQueues(s, r, b, t, c);
      CountsKept(s.blocks, s.blocks[r := b][t := c], s.light);
      UsesPut(s.blocks, r, b);
      UsesPut(s.blocks[r := b], t, c);
    }
  }

  ghost predicate SameUse(b: Block, b': Block) {
    Outside(b.place) && Outside(b'.place) && UseOk(b') && b'.target == b.target && b'.refcount == b.refcount
  }

  lemma OutsideQueues(s: State, r: Id, b: Block, t: Id, c: Block)
    requires r in s.blocks && t in s.blocks && r != t
    requires Outside(s.blocks[r].place) && Outside(b.place) && Outside(s.blocks[t].place) && Outside(c.place)
    ensures QueuesOk(s) && MarkOk(s) ==> QueuesOk(Put(Put(s, r, b), t, c)) && MarkOk(Put(Put(s, r, b), t, c))
  {
    QueueSame(s.free, Free, s.blocks, r, b);
    QueueSame(s.free, Free, s.blocks[r := b], t, c);
    QueueSame(s.recycle, Recycled, s.blocks, r, b);
    QueueSame(s.recycle, Recycled, s.blocks[r := b], t, c);
    assert s.blocks[r := b][t := c].Keys == s.blocks.Keys;
  }

  /** The first block of list `w` of `owner` is now outside all lists. */
  ghost predicate Detached(blocks: map<Id, Block>, blocks': map<Id, Block>, owner: Id, w: bool) {
    && owner in blocks && List(blocks[owner], w) != []
    && var l := List(blocks[owner], w);
       l[0] in blocks && l[0] != owner && blocks'.Keys == blocks.Keys && blocks'[l[0]] == blocks[l[0]].(place := Loose)
       && blocks'[owner] == WithList(blocks[owner], w, l[1..])
       && forall x :: x in blocks && x != l[0] && x != owner ==> blocks'[x] == blocks[x]
  }

  lemma DetachedMembers(blocks: map<Id, Block>, blocks': map<Id, Block>, owner: Id, w: bool, x: Id, v: bool)
    requires Detached(blocks, blocks', owner, w) && x in blocks && MembersOk(List(blocks[x], v), Within(x, v), blocks)
    requires blocks[List(blocks[owner], w)[0]].place == Within(owner, w)
    ensures MembersOk(List(blocks'[x], v), Within(x, v), blocks')
  {
    var l := List(blocks[x], v);
    if x == owner && v == w {
      assert l == [l[0]] + l[1..];
      MembersKept(l[1..], Within(x, v), blocks, blocks');
    } else {
      assert List(blocks[owner], w)[0] !in l;
      MembersKept(l, Within(x, v), blocks, blocks');
    }
  }

  lemma DetachLists(blocks: map<Id, Block>, blocks': map<Id, Block>, owner: Id, w: bool)
    requires ListsOk(blocks) && Detached(blocks, blocks', owner, w)
    ensures ListsOk(blocks')
  {
    var l := List(blocks[owner], w);
    assert ListsAt(blocks, owner);
    assert l == [l[0]] + l[1..];
    forall x | x in blocks' ensures ListsAt(blocks', x) {
      assert ListsAt(blocks, x);
      DetachedMembers(blocks, blocks', owner, w, x, false);
      DetachedMembers(blocks, blocks', owner, w, x, true);
    }
  }

  /** The first member of a list is a block of its own. */
  lemma FirstMember(s: State, owner: Id, w: bool)
    requires Inv(s) && owner in s.blocks && List(s.blocks[owner], w) != []
    ensures var id := List(s.blocks[owner], w)[0];
      id in s.blocks && id != owner && s.blocks[id].place == Within(owner, w)
  {
    var id := List(s.blocks[owner], w)[0];
    assert ListsAt(s.blocks, owner);
    assert id in List(s.blocks[owner], w);
    assert ListsAt(s.blocks, id);
  }

  lemma DetachKeeps(s: State, owner: Id, w: bool)
    requires Inv(s) && owner in s.blocks && List(s.blocks[owner], w) != [] && Outside(s.blocks[owner].place)
    ensures List(s.blocks[owner], w)[0] in s.blocks && List(s.blocks[owner], w)[0] != owner
    ensures Inv(Detach(s, owner, w))
  {
    FirstMember(s, owner, w);
    var id := List(s.blocks[owner], w)[0];
    var b, c := s.blocks[id].(place := Loose), WithList(s.blocks[owner], w, List(s.blocks[owner], w)[1..]);
    assert UseOk(s.blocks[id]) && UseOk(s.blocks[owner]);
    ListUse(s.blocks[owner], w, List(s.blocks[owner], w)[1..]);
    DetachLists(s.blocks, s.blocks[id := b][owner := c], owner, w);
    OutsideKeeps(s, id, b, owner, c);
  }

  // ----- taking a dead block apart -----------------------------------------------------------------------

  /** The blocks of both lists of `id` are now recycled. */
  ghost predicate Stripped(blocks: map<Id, Block>, blocks': map<Id, Block>, id: Id) {
    && id in blocks && blocks'.Keys == blocks.Keys && blocks'[id] == blocks[id].(first := [], second := [])
    && forall x :: x in blocks && x != id ==>
         blocks'[x] == if x in blocks[id].first + blocks[id].second then blocks[x].(place := Recycled) else blocks[x]
  }

  /** What is nested in a block is exactly what says so. */
  lemma NestedPlaces(blocks: map<Id, Block>, id: Id, x: Id)
    requires ListsOk(blocks) && id in blocks && x in blocks
    ensures x in blocks[id].first <==> blocks[x].place == Within(id, false)
    ensures x in blocks[id].second <==> blocks[x].place == Within(id, true)
    ensures blocks[x].place.Within? ==> blocks[x].place.owner != x
  {
    assert ListsAt(blocks, id) && ListsAt(blocks, x);
  }

  lemma StrippedMembers(blocks: map<Id, Block>, blocks': map<Id, Block>, id: Id, x: Id, v: bool)
    requires ListsOk(blocks) && Stripped(blocks, blocks', id) && x in blocks && x != id
    requires MembersOk(List(blocks[x], v), Within(x, v), blocks)
    ensures MembersOk(List(blocks'[x], v), Within(x, v), blocks')
  {
    var l := List(blocks[x], v);
    forall y | y in l ensures y in blocks' && blocks'[y].place == Within(x, v) {
      NestedPlaces(blocks, id, y);
    }
  }

  lemma StripLists(blocks: map<Id, Block>, blocks': map<Id, Block>, id: Id)
    requires ListsOk(blocks) && Stripped(blocks, blocks', id)
    ensures ListsOk(blocks')
  {
    forall x | x in blocks' ensures ListsAt(blocks', x) {
      assert ListsAt(blocks, x);
      NestedPlaces(blocks, id, x);
      if x != id {
        StrippedMembers(blocks, blocks', id, x, false);
        StrippedMembers(blocks, blocks', id, x, true);
      }
    }
  }

  lemma StripQueue(queue: seq<Id>, blocks: map<Id, Block>, blocks': map<Id, Block>, id: Id)
    requires QueueOk(queue, Recycled, blocks) && ListsOk(blocks) && Stripped(blocks, blocks', id)
    requires blocks[id].place == Collecting
    ensures QueueOk(queue + (blocks[id].first + blocks[id].second), Recycled, blocks')
  {
    var f, g := blocks[id].first, blocks[id].second;
    assert ListsAt(blocks, id);
    assert NoRepeats(f) && NoRepeats(g);
    forall x | x in blocks ensures blocks'[x].place == Recycled <==> x in queue || x in f || x in g {
      NestedPlaces(blocks, id, x);
    }
    NoRepeatsJoin(f, g);
    NoRepeatsJoin(queue, f + g);
  }

  lemma NoRepeatsJoin(a: seq<Id>, b: seq<Id>)
    requires NoRepeats(a) && NoRepeats(b) && forall x :: x in a ==> x !in b
    ensures NoRepeats(a + b)
  {
    forall i, j | 0 <= i < j < |a + b| ensures (a + b)[i] != (a + b)[j] {
      if i < |a| <= j {
        assert a[i] in a && b[j - |a|] in b;
      }
    }
  }

  lemma StripUses(blocks: map<Id, Block>, blocks': map<Id, Block>, id: Id)
    requires UsesOk(blocks) && ListsOk(blocks) && Stripped(blocks, blocks', id) && blocks[id].place == Collecting
    ensures UsesOk(blocks')
  {
    forall x | x in blocks' ensures UseOk(blocks'[x]) {
      assert UseOk(blocks[x]);
      NestedPlaces(blocks, id, x);
    }
  }

  lemma StripFree(queue: seq<Id>, blocks: map<Id, Block>, blocks': map<Id, Block>, id: Id)
    requires QueueOk(queue, Free, blocks) && ListsOk(blocks) && Stripped(blocks, blocks', id)
    ensures QueueOk(queue, Free, blocks')
  {
    forall x | x in blocks ensures blocks'[x].place == Free <==> blocks[x].place == Free {
      NestedPlaces(blocks, id, x);
    }
  }

  lemma StripShape(s: State, id: Id)
    requires id in s.blocks
    ensures var s' := Strip(s, id);
      && s' == s.(blocks := s'.blocks, recycle := s.recycle + (s.blocks[id].first + s.blocks[id].second))
      && Stripped(s.blocks, s'.blocks, id)
  {
  }

  lemma StripKeeps(s: State, id: Id)
    requires Inv(s) && id in s.blocks && s.blocks[id].place == Collecting
    ensures Inv(Strip(s, id)) && Stripped(s.blocks, Strip(s, id).blocks, id)
  {
    StripShape(s, id);
    StripInv(s, id, Strip(s, id));
  }

  lemma StripInv(s: State, id: Id, s': State)
    requires Inv(s) && id in s.blocks && s.blocks[id].place == Collecting && Stripped(s.blocks, s'.blocks, id)
    ensures s' == s.(blocks := s'.blocks, recycle := s.recycle + (s.blocks[id].first + s.blocks[id].second)) ==> Inv(s')
  {
    StripLists(s.blocks, s'.blocks, id);
    StripQueue(s.recycle, s.blocks, s'.blocks, id);
    StripFree(s.free, s.blocks, s'.blocks, id);
    StripUses(s.blocks, s'.blocks, id);
    CountsKept(s.blocks, s'.blocks, s.light);
    assert |s'.blocks.Keys| == |s.blocks.Keys|;
  }

  // ----- a new pool -----------------------------------------------------------------------------------

  /** All blocks are empty and free. */
  ghost predicate AllFree(s: State, count: nat) {
    && |s.blocks| == |s.free| == count && s.recycle == [] && s.light == multiset{} && s.watermark == 0
    && (forall id :: id in s.blocks <==> 0 <= id < count) && (forall id :: id in s.blocks ==> s.blocks[id] == EMPTY)
    && (forall i :: 0 <= i < count ==> s.free[i] == i)
  }

  lemma {:induction false} LaidAllFree(count: nat)
    ensures AllFree(Laid(count), count)
  {
    if count > 0 {
      LaidAllFree(count - 1);
      assert Laid(count).blocks.Keys == Laid(count - 1).blocks.Keys + {count - 1};
    }
  }

  lemma AllFreeInv(s: State, count: nat)
    requires AllFree(s, count) && s.threshold < COUNT_LIMIT
    ensures Inv(s)
  {
    forall id | id in s.blocks ensures id in s.free {
      assert s.free[id] == id;
    }
    assert forall id :: id in s.blocks ==> RefsTo(s.blocks, id) == {};
  }

  lemma CreatedInv(count: nat)
    requires count < COUNT_LIMIT
    ensures Inv(Created(count)) && |Created(count).free| == |Created(count).blocks| == count
  {
    LaidAllFree(count);
    AllFreeInv(Created(count), count);
  }
}
