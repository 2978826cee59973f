/** Runs of the memory pool: conservation, references, and draining the recycle queue. */
module PoolRun {
  import opened Unsigned
  import opened PoolModel
  import opened PoolInv

  /** The steps of the pool; each happens under its lock, in any interleaving. */
  datatype Event =
    | Allocate(kind: Kind, priority: nat)
    | Append(id: Id, owner: Id, second: bool)
    | PullFirst(owner: Id, second: bool)
    | GiveBack(id: Id)
    | RefCreate(id: Id)
    | RefDuplicate(id: Id)
    | RefFromBlock(r: Id)
    | RefMakeBlock(id: Id, priority: nat)
    | RefRelease(id: Id)
    | RecycleDoomed(id: Id)
    | Start
    | TakeApart(id: Id)
    | LetGo(r: Id)
    | End(id: Id)

  predicate InUse(b: Block) { b.place == Loose || b.place.Within? }

  /** What clients and the collector may do: blocks are appended and given back by whoever holds them and
      only while nothing refers to them; a reference is released by whoever holds it. */
  ghost predicate Enabled(s: State, ev: Event) {
    match ev
    case Allocate(kind, priority) => kind != Ref && priority <= 255
    case Append(id, owner, second) =>
      && id in s.blocks && owner in s.blocks && id != owner && HasList(s.blocks[owner].kind, second)
      && s.blocks[id].place == Loose && s.blocks[id].refcount == 0 && !s.blocks[id].doomed && InUse(s.blocks[owner])
    case PullFirst(owner, second) => owner in s.blocks && InUse(s.blocks[owner]) && List(s.blocks[owner], second) != []
    case GiveBack(id) => id in s.blocks && s.blocks[id].place == Loose && s.blocks[id].refcount == 0
      && !s.blocks[id].doomed
    case RefCreate(id) => id in s.blocks && s.blocks[id].place == Loose && !s.blocks[id].doomed
      && s.blocks[id].kind != Ref
    case RefDuplicate(id) => id in s.light
    case RefFromBlock(r) => r in s.blocks && InUse(s.blocks[r]) && s.blocks[r].target.Some?
    case RefMakeBlock(id, priority) => id in s.light && priority <= 255
    case RefRelease(id) => id in s.light
    case RecycleDoomed(id) => id in s.blocks && s.blocks[id].doomed
    case Start => s.recycle != []
    case TakeApart(id) => id in s.blocks && s.blocks[id].place == Collecting
    case LetGo(r) => r in s.blocks && s.blocks[r].place == Collecting && s.blocks[r].target.Some?
    case End(id) =>
      && id in s.blocks && s.blocks[id].place == Collecting
      && s.blocks[id].first == s.blocks[id].second == [] && s.blocks[id].target.None?
  }

  lemma FirstFree(s: State)
    requires Inv(s) && s.free != []
    ensures s.free[0] in s.blocks && s.blocks[s.free[0]] == EMPTY
  {
    var id := s.free[0];
    assert id in s.free;
    assert UseOk(s.blocks[id]);
  }

  /** The blocks that an event concerns exist. */
  lemma Ready(s: State, ev: Event)
    requires Inv(s) && Enabled(s, ev)
    ensures ev.PullFirst? ==>
      var id := List(s.blocks[ev.owner], ev.second)[0];
      && id in s.blocks && id != ev.owner
      && s.blocks[id].place == Within(ev.owner, ev.second)
    ensures ev.RefDuplicate? || ev.RefMakeBlock? || ev.RefRelease? ==> ev.id in s.blocks && s.blocks[ev.id].refcount > 0
    ensures ev.RefFromBlock? || ev.LetGo? ==>
      var t := s.blocks[ev.r].target.value; t in s.blocks && t != ev.r && s.blocks[t].refcount > 0
    ensures ev.Start? ==> s.recycle[0] in s.blocks && s.blocks[s.recycle[0]].place == Recycled
    ensures ev.Allocate? || ev.RefMakeBlock? ==>
      s.threshold < COUNT_LIMIT && (s.free != [] ==> s.free[0] in s.blocks && s.blocks[s.free[0]] == EMPTY)
  {
    if ev.PullFirst? { FirstMember(s, ev.owner, ev.second); }
    if ev.RefDuplicate? || ev.RefMakeBlock? || ev.RefRelease? { Referenced(s, ev.id); }
    if ev.RefFromBlock? || ev.LetGo? { Targeted(s, ev.r); }
    if ev.Start? { CollectStartKeeps(s); }
    if s.free != [] { FirstFree(s); }
  }

  ghost function Apply(s: State, ev: Event): State
    requires Inv(s) && Enabled(s, ev)
  {
    Ready(s, ev);
    match ev
    case Allocate(kind, priority) => if CanAlloc(s, kind, priority) then Alloc(s, kind, None) else s
    case Append(id, owner, second) => Attach(s, id, owner, second)
    case PullFirst(owner, second) => Detach(s, owner, second)
    case GiveBack(id) => Recycle(s, id)
    case RefCreate(id) => Retain(s, id)
    case RefDuplicate(id) => Retain(s, id)
    case RefFromBlock(r) => Retain(s, s.blocks[r].target.value)
    case RefMakeBlock(id, priority) => if CanAlloc(s, Ref, priority) then MakeRef(s, id) else s
    case RefRelease(id) => Release(s, id)
    case RecycleDoomed(id) => Recycle(s, id)
    case Start => CollectStart(s)
    case TakeApart(id) => Strip(s, id)
    case LetGo(r) => Unlink(s, r)
    case End(id) => CollectEnd(s, id)
  }

  lemma ApplyKeeps(s: State, ev: Event)
    requires Inv(s) && Enabled(s, ev)
    ensures Inv(Apply(s, ev))
  {
    match ev
    case Allocate(kind, priority) => if CanAlloc(s, kind, priority) { AllocKeeps(s, kind); }
    case Append(id, owner, second) => AttachKeeps(s, id, owner, second);
    case PullFirst(owner, second) => DetachKeeps(s, owner, second);
    case GiveBack(id) => RecycleKeeps(s, id);
    case RefCreate(id) => RetainKeeps(s, id);
    case RefDuplicate(id) =>
      Referenced(s, id);
      RetainKeeps(s, id);
    case RefFromBlock(r) =>
      Targeted(s, r);
      RetainKeeps(s, s.blocks[r].target.value);
    case RefMakeBlock(id, priority) => if CanAlloc(s, Ref, priority) { MakeRefKeeps(s, id); }
    case RefRelease(id) => ReleaseKeeps(s, id);
    case RecycleDoomed(id) =>
      assert UseOk(s.blocks[id]);
      RecycleKeeps(s, id);
    case Start => CollectStartKeeps(s);
    case TakeApart(id) => StripKeeps(s, id);
    case LetGo(r) => UnlinkKeeps(s, r);
    case End(id) => CollectEndKeeps(s, id);
  }

  ghost predicate CanRun(s: State, evs: seq<Event>)
    requires Inv(s)
    decreases |evs|
  {
    evs != [] ==> Enabled(s, evs[0]) && (ApplyKeeps(s, evs[0]); CanRun(Apply(s, evs[0]), evs[1..]))
  }

  ghost function Run(s: State, evs: seq<Event>): (s': State)
    requires Inv(s) && CanRun(s, evs)
    ensures Inv(s')
    decreases |evs|
  {
    if evs == [] then s
    else ApplyKeeps(s, evs[0]); Run(Apply(s, evs[0]), evs[1..])
  }

  /** The states that some run reaches from a new pool. */
  ghost predicate Reachable(s: State) {
    exists count: nat, evs :: count < COUNT_LIMIT && (CreatedInv(count); CanRun(Created(count), evs))
      && Run(Created(count), evs) == s
  }

  lemma ReachableInv(s: State)
    requires Reachable(s)
    ensures Inv(s)
  {
  }

  /** Every block is in exactly one place: a queue or list holds it exactly if its place says so, and once. */
  lemma OnePlace(s: State, id: Id)
    requires Reachable(s) && id in s.blocks
    ensures multiset(s.free)[id] == (if s.blocks[id].place == Free then 1 else 0)
    ensures multiset(s.recycle)[id] == (if s.blocks[id].place == Recycled then 1 else 0)
    ensures forall o, w :: o in s.blocks ==>
      multiset(List(s.blocks[o], w))[id] == if s.blocks[id].place == Within(o, w) then 1 else 0
  {
    ReachableInv(s);
    CountOnce(s.free, id);
    CountOnce(s.recycle, id);
    forall o, w | o in s.blocks
      ensures multiset(List(s.blocks[o], w))[id] == if s.blocks[id].place == Within(o, w) then 1 else 0
    {
      assert ListsAt(s.blocks, o);
      NestedPlaces(s.blocks, o, id);
      CountOnce(List(s.blocks[o], w), id);
    }
  }

  lemma {:induction false} CountOnce(l: seq<Id>, x: Id)
    requires NoRepeats(l)
    ensures multiset(l)[x] == if x in l then 1 else 0
  {
    if l != [] {
      CountOnce(l[1..], x);
      assert l == [l[0]] + l[1..];
      assert l[0] !in l[1..];
    }
  }

  /** The count is the number of references; while there is one, the block is neither recycled nor free,
      and what the collector takes has none. */
  lemma References(s: State, id: Id)
    requires Reachable(s) && id in s.blocks
    ensures s.blocks[id].refcount == s.light[id] + |RefsTo(s.blocks, id)|
    ensures s.blocks[id].refcount > 0 ==> s.blocks[id].place == Loose && !s.blocks[id].doomed
    ensures s.blocks[id].place == Recycled || s.blocks[id].place == Collecting ==> s.blocks[id].refcount == 0
  {
    ReachableInv(s);
    assert UseOk(s.blocks[id]);
  }

  /** What a step may do to the count and the doom of a block. */
  ghost predicate DoomStep(ev: Event, id: Id, b: Block, b': Block) {
    && (!b.doomed && b'.doomed <==> b.refcount == 1 && b'.refcount == 0)
    && (b.doomed && !b'.doomed <==> ev == RecycleDoomed(id))
    && (ev == RecycleDoomed(id) ==> b'.place == Recycled)
  }

  lemma DoomedByRefs(s: State, ev: Event, id: Id)
    requires Inv(s) && Enabled(s, ev) && id in s.blocks
    requires ev.RefCreate? || ev.RefDuplicate? || ev.RefFromBlock? || ev.RefMakeBlock? || ev.RefRelease? || ev.LetGo?
    ensures id in Apply(s, ev).blocks && DoomStep(ev, id, s.blocks[id], Apply(s, ev).blocks[id])
  {
    Ready(s, ev);
    assert UseOk(s.blocks[id]);
  }

  lemma DoomedByCollector(s: State, ev: Event, id: Id)
    requires Inv(s) && Enabled(s, ev) && id in s.blocks && (ev.Start? || ev.End? || ev.Allocate?)
    ensures id in Apply(s, ev).blocks && DoomStep(ev, id, s.blocks[id], Apply(s, ev).blocks[id])
  {
    Ready(s, ev);
    assert UseOk(s.blocks[id]);
  }

  lemma DoomedByStrip(s: State, x: Id, id: Id)
    requires x in s.blocks && id in s.blocks
    ensures var s' := Strip(s, x);
      && id in s'.blocks && s'.blocks[id].doomed == s.blocks[id].doomed
      && s'.blocks[id].refcount == s.blocks[id].refcount
  {
    StripShape(s, x);
  }

  lemma DoomedByMoves(s: State, ev: Event, id: Id)
    requires Inv(s) && Enabled(s, ev) && id in s.blocks
    requires (ev.Append? || ev.PullFirst? || ev.GiveBack? || ev.RecycleDoomed?)
    ensures id in Apply(s, ev).blocks && DoomStep(ev, id, s.blocks[id], Apply(s, ev).blocks[id])
  {
    Ready(s, ev);
    assert UseOk(s.blocks[id]);
  }

  /** A block is doomed by the step that takes its last reference, until it is recycled. */
  lemma DoomedOnce(s: State, ev: Event, id: Id)
    requires Inv(s) && Enabled(s, ev) && id in s.blocks
    ensures id in Apply(s, ev).blocks && DoomStep(ev, id, s.blocks[id], Apply(s, ev).blocks[id])
  {
    if ev.Append? || ev.PullFirst? || ev.GiveBack? || ev.RecycleDoomed? {
      DoomedByMoves(s, ev, id);
    } else if ev.Start? || ev.End? || ev.Allocate? {
      DoomedByCollector(s, ev, id);
    } else if ev.TakeApart? {
      DoomedByStrip(s, ev.id, id);
    } else {
      DoomedByRefs(s, ev, id);
    }
  }

  /** One reference less to `id`, which is recycled exactly if none is left; no other block is touched. */
  ghost predicate Released(s: State, s': State, id: Id) {
    && id in s.blocks && id in s'.blocks && s'.blocks[id].refcount + 1 == s.blocks[id].refcount
    && (id in s'.recycle <==> s'.light[id] == 0 && RefsTo(s'.blocks, id) == {})
    && (forall x :: x in s.blocks && x != id ==> x in s'.blocks && s'.blocks[x] == s.blocks[x])
    && (forall x :: x != id ==> (x in s'.recycle <==> x in s.recycle)) && s'.free == s.free
  }

  lemma ReleaseSound(s: State, id: Id)
    requires Inv(s) && id in s.light
    ensures id in s.blocks
    ensures var s1 := Release(s, id);
      var s' := if s1.blocks[id].doomed then Recycle(s1, id) else s1;
      Inv(s') && Released(s, s', id)
  {
    Referenced(s, id);
    ReleaseKeeps(s, id);
    var s1 := Release(s, id);
    assert UseOk(s1.blocks[id]) && UseOk(s.blocks[id]);
    if s1.blocks[id].doomed {
      RecycleKeeps(s1, id);
      NoRefs(Recycle(s1, id), id);
    } else {
      NoRefs(s1, id);
    }
  }

  /** A block without a count has no reference. */
  lemma NoRefs(s: State, id: Id)
    requires Inv(s) && id in s.blocks
    ensures s.blocks[id].refcount == 0 <==> s.light[id] == 0 && RefsTo(s.blocks, id) == {}
  {
    assert |RefsTo(s.blocks, id)| == 0 <==> RefsTo(s.blocks, id) == {};
  }

  /** A block that was free is now one more reference to `id`; no other block is touched. */
  ghost predicate NewRef(s: State, s': State, id: Id, r: Id) {
    && id in s.blocks && r in s.free && r in s'.blocks && s'.blocks[r].kind == Ref && s'.blocks[r].place == Loose
    && RefsTo(s'.blocks, id) == RefsTo(s.blocks, id) + {r} && r !in RefsTo(s.blocks, id)
    && id in s'.blocks && s'.blocks[id] == Raised(s.blocks[id]) && s'.light == s.light
    && (forall x :: x in s.blocks && x != id && x != r ==> x in s'.blocks && s'.blocks[x] == s.blocks[x])
  }

  lemma MakeRefSound(s: State, id: Id)
    requires Inv(s) && id in s.light && s.free != []
    ensures id in s.blocks && Inv(MakeRef(s, id)) && NewRef(s, MakeRef(s, id), id, s.free[0])
  {
    FirstFree(s);
    Referenced(s, id);
    assert UseOk(s.blocks[id]);
    MakeRefKeeps(s, id);
    var r, s' := s.free[0], MakeRef(s, id);
    assert s'.blocks ==
      s.blocks[r := EMPTY.(kind := Ref, place := Loose, target := Some(id))][id := Raised(s.blocks[id])];
    assert forall y :: y in RefsTo(s'.blocks, id) <==> y in RefsTo(s.blocks, id) || y == r;
  }

  /** How often the block is recycled for want of references. */
  function Recyclings(evs: seq<Event>, id: Id): nat {
    if evs == [] then 0 else (if evs[0] == RecycleDoomed(id) then 1 else 0) + Recyclings(evs[1..], id)
  }

  /** How often the last reference to the block goes away. */
  ghost function LastReleases(s: State, evs: seq<Event>, id: Id): nat
    requires Inv(s) && CanRun(s, evs) && id in s.blocks
    decreases |evs|
  {
    if evs == [] then 0
    else
      ApplyKeeps(s, evs[0]);
      DoomedOnce(s, evs[0], id);
      var s1 := Apply(s, evs[0]);
      (if s.blocks[id].refcount == 1 && s1.blocks[id].refcount == 0 then 1 else 0) + LastReleases(s1, evs[1..], id)
  }

  function Owed(b: Block): nat { if b.doomed then 1 else 0 }

  /** In every run, a block is recycled once for each time its last reference goes away, and only the last of
      these recyclings may still be owed. */
  lemma {:induction false} RecycledPerRelease(s: State, evs: seq<Event>, id: Id)
    requires Inv(s) && CanRun(s, evs) && id in s.blocks
    ensures id in Run(s, evs).blocks
    ensures Recyclings(evs, id) + Owed(Run(s, evs).blocks[id]) == LastReleases(s, evs, id) + Owed(s.blocks[id])
    decreases |evs|
  {
    if evs != [] {
      ApplyKeeps(s, evs[0]);
      DoomedOnce(s, evs[0], id);
      RecycledPerRelease(Apply(s, evs[0]), evs[1..], id);
    }
  }
}
