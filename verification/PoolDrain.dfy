/** Draining the recycle queue: it ends, and everything that was nested in a dead block is free. */
module PoolDrain {
  import opened Unsigned
  import opened PoolModel
  import opened PoolInv
  import opened PoolRun

  // ----- one block -----------------------------------------------------------------------------------

  /** The collector lets go of the target of a reference block, and recycles it if that was the last one. */
  ghost function Dereferenced(s: State, r: Id): (s': State)
    requires Inv(s) && r in s.blocks && s.blocks[r].place == Collecting && s.blocks[r].target.Some?
    ensures Inv(s')
  {
    var t := s.blocks[r].target.value;
    UnlinkKeeps(s, r);
    var s1 := Unlink(s, r);
    if s1.blocks[t].doomed then ApplyKeeps(s1, RecycleDoomed(t)); Recycle(s1, t) else s1
  }

  /** What the collector does with the block before it is free. */
  ghost function Undone(s: State, id: Id): (s': State)
    requires Inv(s) && id in s.blocks && s.blocks[id].place == Collecting
    ensures Inv(s')
  {
    if s.blocks[id].target.Some? then Dereferenced(s, id)
    else if HasList(s.blocks[id].kind, false) then StripKeeps(s, id); Strip(s, id)
    else s
  }

  /** After `Undone`, the block is empty; what was nested in it is recycled; all else is where it was, but
      the target of a reference block may have been recycled. */
  ghost predicate Emptied(s: State, id: Id, s': State) {
    && id in s.blocks && s'.blocks.Keys == s.blocks.Keys && s'.free == s.free
    && s'.blocks[id].place == Collecting && s'.blocks[id].first == s'.blocks[id].second == []
    && s'.blocks[id].target.None?
    && forall x :: x in s.blocks && x != id ==>
         if s.blocks[x].place.Within? && s.blocks[x].place.owner == id then s'.blocks[x].place == Recycled
         else s'.blocks[x].place == s.blocks[x].place || (s.blocks[x].place == Loose && s'.blocks[x].place == Recycled)
  }

  lemma NoLists(s: State, id: Id, x: Id)
    requires Inv(s) && id in s.blocks && x in s.blocks && !HasList(s.blocks[id].kind, false)
    ensures s.blocks[id].first == s.blocks[id].second == []
    ensures !(s.blocks[x].place.Within? && s.blocks[x].place.owner == id)
  {
    assert UseOk(s.blocks[id]);
    NestedPlaces(s.blocks, id, x);
  }

  lemma DereferencedEmpties(s: State, r: Id)
    requires Inv(s) && r in s.blocks && s.blocks[r].place == Collecting && s.blocks[r].target.Some?
    ensures Emptied(s, r, Dereferenced(s, r))
  {
    assert UseOk(s.blocks[r]);
    Targeted(s, r);
    forall x | x in s.blocks ensures !(s.blocks[x].place.Within? && s.blocks[x].place.owner == r) {
      NoLists(s, r, x);
    }
    NoLists(s, r, r);
  }

  lemma StrippedEmpties(s: State, id: Id)
    requires Inv(s) && id in s.blocks && s.blocks[id].place == Collecting && s.blocks[id].target.None?
    ensures Emptied(s, id, Strip(s, id))
  {
    StripShape(s, id);
    forall x | x in s.blocks && x != id
      ensures x in s.blocks[id].first + s.blocks[id].second <==>
        s.blocks[x].place.Within? && s.blocks[x].place.owner == id
    {
      NestedPlaces(s.blocks, id, x);
    }
  }

  lemma UndoneEmpties(s: State, id: Id)
    requires Inv(s) && id in s.blocks && s.blocks[id].place == Collecting
    ensures Emptied(s, id, Undone(s, id))
  {
    if s.blocks[id].target.Some? {
      DereferencedEmpties(s, id);
    } else if HasList(s.blocks[id].kind, false) {
      StrippedEmpties(s, id);
    } else {
      forall x | x in s.blocks ensures !(s.blocks[x].place.Within? && s.blocks[x].place.owner == id) {
        NoLists(s, id, x);
      }
      NoLists(s, id, id);
    }
  }

  /** One turn of the collector: the first recycled block becomes free. */
  ghost function CollectOne(s: State): (s': State)
    requires Inv(s) && s.recycle != []
    ensures Inv(s')
  {
    CollectStartKeeps(s);
    var id, s1 := s.recycle[0], CollectStart(s);
    var s2 := Undone(s1, id);
    UndoneEmpties(s1, id);
    CollectEndKeeps(s2, id);
    CollectEnd(s2, id)
  }

  /** The block is free, what was nested in it is recycled, and nothing that was dead comes to life. */
  ghost predicate OneFreed(s: State, s': State) {
    && s.recycle != [] && s'.blocks.Keys == s.blocks.Keys && |s'.free| == |s.free| + 1
    && var id := s.recycle[0];
       forall x :: x in s.blocks ==>
         if x == id then s'.blocks[x].place == Free
         else if s.blocks[x].place.Within? && s.blocks[x].place.owner == id then s'.blocks[x].place == Recycled
         else s'.blocks[x].place == s.blocks[x].place || (s.blocks[x].place == Loose && s'.blocks[x].place == Recycled)
  }

  lemma CollectOneFrees(s: State)
    requires Inv(s) && s.recycle != []
    ensures OneFreed(s, CollectOne(s))
  {
    CollectStartKeeps(s);
    var id, s1 := s.recycle[0], CollectStart(s);
    UndoneEmpties(s1, id);
  }

  // ----- all of them -----------------------------------------------------------------------------------

  /** The states in which the invariant of the pool holds. */
  ghost function Sound(): iset<State> { iset s: State | Inv(s) }

  /** A turn that keeps the invariant and frees the first recycled block. */
  ghost predicate Frees(turn: State -> State) {
    forall s {:trigger OneFreed(s, turn(s))} :: s in Sound() && s.recycle != [] ==>
      turn(s) in Sound() && OneFreed(s, turn(s))
  }

  /** The turn of the collector. */
  ghost predicate IsTurn(turn: State -> State) {
    Frees(turn) && forall s {:trigger CollectOne(s)} :: Inv(s) && s.recycle != [] ==> turn(s) == CollectOne(s)
  }

  lemma CollectorTurns() returns (turn: State -> State)
    ensures IsTurn(turn)
  {
    turn := (s: State) => if Inv(s) && s.recycle != [] then CollectOne(s) else s;
    forall s | Inv(s) && s.recycle != [] ensures Inv(turn(s)) && OneFreed(s, turn(s)) {
      CollectOneFrees(s);
    }
  }

  /** Up to `limit` turns. */
  ghost function Collect(turn: State -> State, s: State, limit: nat): State
    decreases limit
  {
    if limit == 0 || s.recycle == [] then s else Collect(turn, turn(s), limit - 1)
  }

  lemma {:induction false} CollectSound(turn: State -> State, s: State, limit: nat)
    requires Frees(turn) && s in Sound()
    ensures Collect(turn, s, limit) in Sound()
    decreases limit
  {
    if limit > 0 && s.recycle != [] {
      assert OneFreed(s, turn(s));
      CollectSound(turn, turn(s), limit - 1);
    }
  }

  lemma {:induction false} FewerThan(l: seq<Id>, all: set<Id>)
    requires NoRepeats(l) && forall x :: x in l ==> x in all
    ensures |l| <= |all|
  {
    if l != [] {
      var x := l[0];
      assert x in l && x !in l[1..];
      forall y | y in l[1..] ensures y in all - {x} {
        assert y in l;
      }
      FewerThan(l[1..], all - {x});
    }
  }

  lemma FreedOne(s: State, s': State)
    requires OneFreed(s, s')
    ensures |s'.blocks| == |s.blocks| && |s'.free| == |s.free| + 1
  {
    assert |s'.blocks.Keys| == |s.blocks.Keys|;
  }

  lemma NotAllFree(s: State)
    requires s in Sound() && s.recycle != []
    ensures |s.free| < |s.blocks|
  {
    var id := s.recycle[0];
    assert id in s.recycle;
    FewerThan(s.free + [id], s.blocks.Keys);
  }

  /** Collection ends: every turn frees a block and none is ever taken. */
  lemma {:induction false} CollectEnds(turn: State -> State, s: State, limit: nat)
    requires Frees(turn) && s in Sound() && limit + |s.free| >= |s.blocks|
    ensures Collect(turn, s, limit).recycle == []
    decreases limit
  {
    if s.recycle != [] {
      NotAllFree(s);
      FreedOne(s, turn(s));
      CollectEnds(turn, turn(s), limit - 1);
    }
  }

  // ----- dead blocks ---------------------------------------------------------------------------------

  /** Recycled or free, or `depth` levels inside such a block. */
  ghost predicate Dead(s: State, id: Id, depth: nat)
    decreases depth
  {
    && id in s.blocks
    && if depth == 0 then s.blocks[id].place == Recycled || s.blocks[id].place == Free
       else s.blocks[id].place.Within? && Dead(s, s.blocks[id].place.owner, depth - 1)
  }

  lemma {:induction false} DeadStays(s: State, s': State, id: Id, depth: nat) returns (d: nat)
    requires s in Sound() && OneFreed(s, s') && Dead(s, id, depth)
    ensures d <= depth && Dead(s', id, d)
    decreases depth
  {
    if depth == 0 {
      d := 0;
    } else {
      var o := s.blocks[id].place.owner;
      if o == s.recycle[0] {
        assert id != o by { NestedPlaces(s.blocks, o, id); }
        d := 0;
      } else {
        assert id != s.recycle[0] by { CollectStartKeeps(s); }
        var k := DeadStays(s, s', o, depth - 1);
        d := k + 1;
      }
    }
  }

  lemma NothingInFree(s: State, o: Id, id: Id)
    requires Inv(s) && o in s.blocks && s.blocks[o].place == Free && id in s.blocks
    ensures !(s.blocks[id].place.Within? && s.blocks[id].place.owner == o)
  {
    assert UseOk(s.blocks[o]);
    NestedPlaces(s.blocks, o, id);
  }

  /** Without recycled blocks, the dead ones are free: nothing is inside a free block. */
  lemma {:induction false} DeadIsFree(s: State, id: Id, depth: nat)
    requires s in Sound() && s.recycle == [] && Dead(s, id, depth)
    ensures s.blocks[id].place == Free
    decreases depth
  {
    if depth > 0 {
      DeadIsFree(s, s.blocks[id].place.owner, depth - 1);
      NothingInFree(s, s.blocks[id].place.owner, id);
    }
  }

  lemma {:induction false} DeadCollected(turn: State -> State, s: State, limit: nat, id: Id, depth: nat)
    returns (d: nat)
    requires Frees(turn) && s in Sound() && Dead(s, id, depth)
    ensures Dead(Collect(turn, s, limit), id, d)
    decreases limit
  {
    if limit == 0 || s.recycle == [] {
      d := depth;
    } else {
      var k := DeadStays(s, turn(s), id, depth);
      d := DeadCollected(turn, turn(s), limit - 1, id, k);
    }
  }

  /** A drained pool has got back every dead block and everything inside of it, at any depth. */
  lemma DrainFreesTrees(turn: State -> State, s: State, limit: nat, id: Id, depth: nat)
    requires Frees(turn) && s in Sound() && limit >= |s.blocks| && Dead(s, id, depth)
    ensures var s' := Collect(turn, s, limit);
      s'.recycle == [] && id in s'.blocks && s'.blocks[id] == EMPTY && id in s'.free
  {
    CollectEnds(turn, s, limit);
    CollectSound(turn, s, limit);
    var d := DeadCollected(turn, s, limit, id, depth);
    DeadIsFree(Collect(turn, s, limit), id, d);
    assert UseOk(Collect(turn, s, limit).blocks[id]);
  }

  // ----- allocation thresholds ---------------------------------------------------------------------------

  lemma ReserveExact(threshold: nat, p: nat)
    requires p <= 255 && threshold * p < COUNT_LIMIT && threshold < COUNT_LIMIT
    ensures Reserve(threshold, p) == threshold - threshold * p / 255
  {
    var x := threshold * p;
    assert x % COUNT_LIMIT == x;
  }

  lemma QuotientOrder(x: nat, y: nat)
    requires x <= y
    ensures x / 255 <= y / 255
  {
  }

  lemma ProductOrder(t: nat, p: nat, q: nat)
    requires p <= q
    ensures t * p <= t * q
  {
  }

  /** The reserve shrinks with the priority, from the whole threshold to nothing, as long as the
      product fits 32 bits. */
  lemma ReserveRange(threshold: nat, p: nat, q: nat)
    requires p <= q <= 255 && threshold * 255 < COUNT_LIMIT
    ensures 0 == Reserve(threshold, 255) <= Reserve(threshold, q)
    ensures Reserve(threshold, q) <= Reserve(threshold, p) <= Reserve(threshold, 0) == threshold
  {
    ProductOrder(threshold, 0, p);
    ProductOrder(threshold, p, q);
    ProductOrder(threshold, q, 255);
    ReserveExact(threshold, 0);
    ReserveExact(threshold, p);
    ReserveExact(threshold, q);
    ReserveExact(threshold, 255);
    QuotientOrder(threshold * p, threshold * q);
    QuotientOrder(threshold * q, threshold * 255);
  }

  /** The highest priority may use every block exactly if the product fits 32 bits. */
  lemma HighPriorityExact(threshold: nat)
    requires threshold < COUNT_LIMIT
    ensures Reserve(threshold, 255) == 0 <==> threshold * 255 < COUNT_LIMIT
  {
    var x := threshold * 255;
    if x < COUNT_LIMIT {
      ReserveExact(threshold, 255);
    } else {
      var y := x % COUNT_LIMIT;
      assert y <= x - COUNT_LIMIT;
      assert y / 255 < threshold;
    }
  }

  /** The threshold is thirty percent of the blocks exactly if the product fits 32 bits. */
  lemma ThresholdExact(count: nat)
    ensures Threshold(count) == count * 30 / 100 <==> count * 30 < COUNT_LIMIT
  {
    var x := count * 30;
    if x >= COUNT_LIMIT {
      assert x % COUNT_LIMIT <= x - COUNT_LIMIT;
      assert x % COUNT_LIMIT / 100 < x / 100;
    }
  }

  /** A pool of 150 million blocks: the product of the threshold wraps, and with it the reserve of a threshold of 20
      million at the highest priority is most of it. */
  lemma LargePoolWraps()
    ensures Threshold(150_000_000) == 2_050_327 < 150_000_000 * 30 / 100
    ensures Reserve(20_000_000, 255) == 16_843_010
  {
  }

  /** An allocation leaves at least its reserve. */
  lemma AllocLeaves(s: State, kind: Kind, priority: nat)
    requires Inv(s) && priority <= 255 && CanAlloc(s, kind, priority)
    ensures |Alloc(s, kind, None).free| >= Reserve(s.threshold, priority)
    ensures |s.blocks| - |Alloc(s, kind, None).free| <= Alloc(s, kind, None).watermark
  {
  }
}
