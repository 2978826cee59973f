/** The memory pool as the program runs it. */
module PoolImpl {
  import opened Unsigned
  import M = PoolModel
  import opened PoolInv
  import opened PoolRun
  import opened PoolDrain
  type Id = M.Id
  type Kind = M.Kind

  class Pool {
    var blocks: map<Id, M.Block>
    var free: seq<Id>
    var recycle: seq<Id>
    var threshold: nat
    var watermark: nat
    /** The references held by clients: the pool itself only counts them. */
    ghost var light: multiset<Id>

    ghost function View(): M.State
      reads this
    {
      M.State(blocks, free, recycle, light, threshold, watermark)
    }

    ghost predicate Valid()
      reads this
    {
      View() in Sound()
    }

    /** Lay out the blocks of the pool and set the threshold at 30 percent. */
    constructor (count: nat)
      requires count < COUNT_LIMIT
      ensures Valid() && View() == M.Created(count)
    {
      blocks, free, recycle, light := map[], [], [], multiset{};
      threshold, watermark := 0, 0;
      new;
      LayOut(count);
      threshold := (count * 30) % COUNT_LIMIT / 100;
      CreatedInv(count);
    }

    method LayOut(count: nat)
      requires View() == M.Laid(0)
      modifies this
      ensures View() == M.Laid(count)
    {
      var i := 0;
      while i < count
        invariant 0 <= i <= count && View() == M.Laid(i)
      {
        blocks := blocks[i := M.EMPTY];
        free := free + [i];
        i := i + 1;
      }
    }

    /** Take a free block, unless that would go below the reserve for this priority, or the content type is
        not registered or does not fit. */
    method AllocBlockInternal(kind: Kind, priority: nat, target: M.Option<Id>, registered: bool, fits: bool)
      returns (r: M.Option<Id>)
      requires threshold < COUNT_LIMIT && priority <= 255 && |free| <= |blocks|
      modifies this
      ensures r.Some? <==> M.CanAlloc(old(View()), kind, priority) && registered && fits
      ensures r.Some? ==> r.value == old(free)[0] && View() == M.Alloc(old(View()), kind, target)
      ensures r.None? ==> View() == old(View())
    {
      if kind == M.Undefined {
        return M.None;
      }
      var allocThreshold := (threshold * priority) % COUNT_LIMIT / 255;
      var count := |free|;
      if count <= threshold - allocThreshold {
        return M.None;
      }
      if !registered || !fits {
        return M.None;
      }
      var node := free[0];
      free := free[1..];
      count := 1 + |blocks| - count;
      if count > watermark {
        watermark := count;
      }
      blocks := blocks[node := M.EMPTY.(kind := kind, place := M.Loose, target := target)];
      return M.Some(node);
    }

    method RecycleBlock(id: Id)
      requires id in blocks
      modifies this`blocks, this`recycle
      ensures View() == M.Recycle(old(View()), id)
    {
      blocks := blocks[id := blocks[id].(place := M.Recycled, doomed := false)];
      recycle := recycle + [id];
    }

    // ----- references -----------------------------------------------------------------------------

    /** A reference block for an object to which the client holds a reference. */
    method RefMakeBlock(id: Id, priority: nat, registered: bool, fits: bool) returns (r: M.Option<Id>)
      requires id in blocks && threshold < COUNT_LIMIT && priority <= 255 && |free| <= |blocks|
      modifies this
      ensures r.Some? <==> M.CanAlloc(old(View()), M.Ref, priority) && registered && fits
      ensures r.Some? ==> View() == M.MakeRef(old(View()), id)
      ensures r.Some? && old(Valid()) && id in old(light) ==> Valid() && NewRef(old(View()), View(), id, r.value)
      ensures r.None? ==> View() == old(View())
    {
      if Valid() && id in light && free != [] {
        MakeRefSound(View(), id);
      }
      r := AllocBlockInternal(M.Ref, priority, M.Some(id), registered, fits);
      if r.Some? {
        blocks := blocks[id := M.Raised(blocks[id])];
      }
    }

    /** Lower the count of a block and tell whether that was the last reference. */
    method DropReference(id: Id) returns (needsRecycle: bool)
      requires id in blocks
      modifies this`blocks
      ensures blocks == old(blocks)[id := M.Dropped(old(blocks)[id])] && needsRecycle == blocks[id].doomed
    {
      var b := blocks[id];
      if b.refcount > 0 {
        b := b.(refcount := b.refcount - 1);
      }
      needsRecycle := b.refcount == 0;
      blocks := blocks[id := b.(doomed := needsRecycle)];
    }

    /** Release a reference held by a client; the last one recycles the object. */
    method RefRelease(id: Id)
      requires id in blocks
      modifies this
      ensures var s := M.Release(old(View()), id);
        View() == if s.blocks[id].doomed then M.Recycle(s, id) else s
      ensures old(Valid()) && id in old(light) ==> Valid() && Released(old(View()), View(), id)
    {
      if Valid() && id in light {
        ReleaseSound(View(), id);
      }
      var needsRecycle := DropReference(id);
      light := light - multiset{id};
      if needsRecycle {
        RecycleBlock(id);
      }
    }

    // ----- the collector ----------------------------------------------------------------------------

    /** The lists of a dead block join the recycle queue. */
    method MergeLists(id: Id)
      requires id in blocks
      modifies this`blocks, this`recycle
      ensures View() == M.Strip(old(View()), id)
    {
      var b := blocks[id];
      recycle := recycle + (b.first + b.second);
      blocks := map x | x in blocks ::
        if x == id then b.(first := [], second := [])
        else if x in b.first + b.second then blocks[x].(place := M.Recycled) else blocks[x];
    }

    /** A dead reference block lets go of its target. */
    method ReleaseTarget(id: Id)
      requires id in blocks && blocks[id].target.Some?
      requires blocks[id].target.value in blocks && blocks[id].target.value != id
      modifies this
      ensures var s, t := M.Unlink(old(View()), id), old(blocks[id]).target.value;
        View() == if s.blocks[t].doomed then M.Recycle(s, t) else s
    {
      var t := blocks[id].target.value;
      blocks := blocks[id := blocks[id].(target := M.None)];
      var needsRecycle := DropReference(t);
      if needsRecycle {
        RecycleBlock(t);
      }
    }

    method StartNext() returns (id: Id)
      requires recycle != [] && recycle[0] in blocks
      modifies this`blocks, this`recycle
      ensures id == old(recycle)[0] && View() == M.CollectStart(old(View()))
    {
      id := recycle[0];
      recycle := recycle[1..];
      blocks := blocks[id := blocks[id].(place := M.Collecting)];
    }

    method Undo(id: Id)
      requires Inv(View()) && id in blocks && blocks[id].place == M.Collecting
      modifies this
      ensures View() == Undone(old(View()), id)
    {
      if blocks[id].target.Some? {
        Targeted(View(), id);
        ReleaseTarget(id);
      } else if M.HasList(blocks[id].kind, false) {
        MergeLists(id);
      }
    }

    method EndNext(id: Id)
      modifies this`blocks, this`free
      ensures View() == M.CollectEnd(old(View()), id)
    {
      blocks := blocks[id := M.EMPTY];
      free := free + [id];
    }

    /** One turn of the collector. */
    method CollectNext(ghost turn: M.State -> M.State)
      requires IsTurn(turn) && Valid() && recycle != []
      modifies this
      ensures Valid() && View() == turn(old(View()))
    {
      ghost var s := View();
      CollectStartKeeps(s);
      var id := StartNext();
      Undo(id);
      EndNext(id);
      assert View() == CollectOne(s);
    }

    /** One turn; what is left still leads to `goal`. */
    method CollectOn(ghost turn: M.State -> M.State, ghost left: nat, ghost goal: M.State)
      requires IsTurn(turn) && Valid() && recycle != [] && left > 0 && View() in CollectingTo(turn, left, goal)
      modifies this
      ensures Valid() && View() in CollectingTo(turn, left - 1, goal)
    {
      CollectsOn(turn, View(), left, goal);
      CollectNext(turn);
    }

    /** Up to `limit` turns, as long as there is something to collect. */
    method CollectBlocks(limit: nat, ghost turn: M.State -> M.State) returns (count: nat)
      requires IsTurn(turn) && Valid()
      modifies this
      ensures Valid() && View() == Collect(turn, old(View()), limit)
      ensures count <= limit && (count < limit ==> recycle == [])
    {
      CollectsFrom(turn, View(), limit);
      count := CollectUpTo(limit, turn, Collect(turn, View(), limit));
    }

    /** The loop of the turns. */
    method CollectUpTo(limit: nat, ghost turn: M.State -> M.State, ghost goal: M.State) returns (count: nat)
      requires IsTurn(turn) && Valid() && View() in CollectingTo(turn, limit, goal)
      modifies this
      ensures Valid() && View() == goal && count <= limit && (count < limit ==> recycle == [])
    {
      count := 0;
      ghost var left: nat := limit;
      while count < limit && recycle != []
        invariant count + left == limit && Valid() == true && (View() in CollectingTo(turn, left, goal)) == true
      {
        CollectOn(turn, left, goal);
        count, left := count + 1, left - 1;
      }
      CollectsOn(turn, View(), left, goal);
    }
  }

  /** The states from which so many turns lead to `goal`. */
  ghost function CollectingTo(turn: M.State -> M.State, left: nat, goal: M.State): iset<M.State> {
    iset s: M.State | Collect(turn, s, left) == goal
  }

  lemma {:induction false} CollectsFrom(turn: M.State -> M.State, s: M.State, limit: nat)
    ensures s in CollectingTo(turn, limit, Collect(turn, s, limit))
  {
  }

  lemma {:induction false} CollectsOn(turn: M.State -> M.State, s: M.State, left: nat, goal: M.State)
    requires s in CollectingTo(turn, left, goal)
    ensures left == 0 || s.recycle == [] ==> s == goal
    ensures left > 0 && s.recycle != [] ==> turn(s) in CollectingTo(turn, left - 1, goal)
  {
  }
}
