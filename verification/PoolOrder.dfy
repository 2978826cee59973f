/** The order in which blocks pass through the queues and lists of the pool, and how many were ever in use. */
module PoolOrder {
  import opened Unsigned
  import opened PoolModel
  import opened PoolInv
  import opened PoolRun
  import opened PoolDrain

  /** The free queue, the recycle queue, and the lists embedded in blocks. */
  datatype Queue = FreeQueue | RecycleQueue | ListOf(owner: Id, second: bool)

  function Contents(s: State, q: Queue): seq<Id>
    requires q.ListOf? ==> q.owner in s.blocks
  {
    match q
    case FreeQueue => s.free
    case RecycleQueue => s.recycle
    case ListOf(owner, second) => List(s.blocks[owner], second)
  }

  /** What a step puts into a queue: the blocks that become free, that are given back or found in a dead block, that
      are appended to a list. */
  function Entering(s: State, ev: Event, q: Queue): seq<Id>
    requires ev.TakeApart? ==> ev.id in s.blocks
  {
    match q
    case FreeQueue => if ev.End? then [ev.id] else []
    case RecycleQueue =>
      if ev.GiveBack? || ev.RecycleDoomed? then [ev.id]
      else if ev.TakeApart? then s.blocks[ev.id].first + s.blocks[ev.id].second
      else []
    case ListOf(owner, second) => if ev.Append? && ev.owner == owner && ev.second == second then [ev.id] else []
  }

  /** What a step takes from a queue: the block that goes from there to somebody's hands, to the collector, or, with
      the rest of its list, to the recycle queue. */
  ghost function Leaving(s: State, ev: Event, q: Queue): seq<Id>
    requires Inv(s) && Enabled(s, ev) && (q.ListOf? ==> q.owner in s.blocks)
  {
    var takes :=
      match q
      case FreeQueue => (ev.Allocate? || ev.RefMakeBlock?) && Apply(s, ev) != s
      case RecycleQueue => ev.Start?
      case ListOf(owner, second) => ev.PullFirst? && ev.owner == owner && ev.second == second;
    if ev.TakeApart? && q.ListOf? && q.owner == ev.id then Contents(s, q)
    else if takes && Contents(s, q) != [] then [Contents(s, q)[0]]
    else []
  }

  /** First in, first out, for every queue and list: what was there and enters is what leaves and is there. */
  ghost predicate InOrder(before: seq<Id>, entering: seq<Id>, leaving: seq<Id>, after: seq<Id>) {
    before + entering == leaving + after
  }

  ghost predicate Exists(s: State, q: Queue) { q.ListOf? ==> q.owner in s.blocks }

  /** So it is for this queue in this step. */
  ghost predicate StepInOrder(s: State, ev: Event, q: Queue)
    requires Inv(s) && Enabled(s, ev) && Exists(s, q)
  {
    && Exists(Apply(s, ev), q)
    && InOrder(Contents(s, q), Entering(s, ev, q), Leaving(s, ev, q), Contents(Apply(s, ev), q))
  }

  lemma FreeSame(s: State, ev: Event)
    requires Inv(s) && Enabled(s, ev)
    ensures !ev.Allocate? && !ev.RefMakeBlock? && !ev.End? ==> Apply(s, ev).free == s.free
  {
    Ready(s, ev);
  }

  lemma GrantOrder(s: State, ev: Event)
    requires Inv(s) && Enabled(s, ev) && (ev.Allocate? || ev.RefMakeBlock?)
    ensures StepInOrder(s, ev, FreeQueue)
  {
    Ready(s, ev);
    if s.free != [] {
      assert s.free == [s.free[0]] + s.free[1..];
    }
  }

  lemma FreeOrder(s: State, ev: Event)
    requires Inv(s) && Enabled(s, ev)
    ensures StepInOrder(s, ev, FreeQueue)
  {
    if ev.Allocate? || ev.RefMakeBlock? {
      GrantOrder(s, ev);
    } else {
      FreeSame(s, ev);
    }
  }

  lemma RecycleSame(s: State, ev: Event)
    requires Inv(s) && Enabled(s, ev)
    ensures !ev.GiveBack? && !ev.RecycleDoomed? && !ev.TakeApart? && !ev.Start? ==> Apply(s, ev).recycle == s.recycle
  {
    Ready(s, ev);
  }

  lemma RecycleOrder(s: State, ev: Event)
    requires Inv(s) && Enabled(s, ev)
    ensures StepInOrder(s, ev, RecycleQueue)
  {
    match ev
    case GiveBack(id) =>
    case RecycleDoomed(id) =>
    case TakeApart(id) =>
    case Start => assert s.recycle == [s.recycle[0]] + s.recycle[1..];
    case _ => RecycleSame(s, ev);
  }

  /** Blocks and the lists in them are as before. */
  ghost predicate SameLists(s: State, s': State) {
    && s'.blocks.Keys == s.blocks.Keys
    && forall o :: o in s.blocks ==>
         s'.blocks[o].first == s.blocks[o].first && s'.blocks[o].second == s.blocks[o].second
  }

  lemma ReferenceLists(s: State, ev: Event)
    requires Inv(s) && Enabled(s, ev)
    ensures ev.RefCreate? || ev.RefDuplicate? || ev.RefFromBlock? || ev.RefRelease? || ev.LetGo? ==>
      SameLists(s, Apply(s, ev))
  {
    Ready(s, ev);
  }

  /** A free block has empty lists, before it is allocated and when it is free again. */
  lemma FreedLists(s: State, ev: Event)
    requires Inv(s) && Enabled(s, ev)
    ensures ev.Allocate? || ev.RefMakeBlock? || ev.End? ==> SameLists(s, Apply(s, ev))
  {
    Ready(s, ev);
    match ev
    case Allocate(kind, priority) => AllocLists(s, kind, None);
    case RefMakeBlock(id, priority) => MakeRefLists(s, id);
    case End(id) => EndLists(s, id);
    case _ =>
  }

  lemma AllocLists(s: State, kind: Kind, target: Option<Id>)
    ensures s.free != [] && s.free[0] in s.blocks && s.blocks[s.free[0]] == EMPTY ==>
      SameLists(s, Alloc(s, kind, target))
  {
  }

  lemma MakeRefLists(s: State, id: Id)
    requires id in s.blocks
    ensures s.free != [] && s.free[0] in s.blocks && s.blocks[s.free[0]] == EMPTY ==> SameLists(s, MakeRef(s, id))
  {
  }

  lemma EndLists(s: State, id: Id)
    requires id in s.blocks && s.blocks[id].first == s.blocks[id].second == []
    ensures SameLists(s, CollectEnd(s, id))
  {
  }

  lemma QueuedLists(s: State, ev: Event)
    requires Inv(s) && Enabled(s, ev)
    ensures ev.GiveBack? || ev.RecycleDoomed? || ev.Start? ==> SameLists(s, Apply(s, ev))
  {
    Ready(s, ev);
  }

  lemma OtherLists(s: State, ev: Event)
    requires Inv(s) && Enabled(s, ev) && !ev.Append? && !ev.PullFirst? && !ev.TakeApart?
    ensures SameLists(s, Apply(s, ev))
  {
    if ev.Allocate? || ev.RefMakeBlock? || ev.End? {
      FreedLists(s, ev);
    } else if ev.GiveBack? || ev.RecycleDoomed? || ev.Start? {
      QueuedLists(s, ev);
    } else {
      ReferenceLists(s, ev);
    }
  }

  lemma OtherOrder(s: State, ev: Event, q: Queue)
    requires Inv(s) && Enabled(s, ev) && !ev.Append? && !ev.PullFirst? && !ev.TakeApart?
    requires q.ListOf? && q.owner in s.blocks
    ensures StepInOrder(s, ev, q)
  {
    OtherLists(s, ev);
  }

  lemma TakenLists(s: State, id: Id, q: Queue)
    requires id in s.blocks && q.ListOf? && q.owner in s.blocks
    ensures Exists(Strip(s, id), q)
    ensures InOrder(Contents(s, q), [], if q.owner == id then Contents(s, q) else [], Contents(Strip(s, id), q))
  {
    StripShape(s, id);
  }

  lemma PulledList(s: State, owner: Id, second: bool, q: Queue)
    requires Inv(s) && Enabled(s, PullFirst(owner, second)) && q.ListOf? && q.owner in s.blocks
    ensures var s' := Apply(s, PullFirst(owner, second));
      s'.blocks.Keys == s.blocks.Keys &&
      Contents(s, q) == (if q == ListOf(owner, second) then [Contents(s, q)[0]] else []) + Contents(s', q)
  {
    Ready(s, PullFirst(owner, second));
    var l := List(s.blocks[owner], second);
    assert l == [l[0]] + l[1..];
  }

  lemma AppendOrder(s: State, id: Id, owner: Id, second: bool, q: Queue)
    requires Inv(s) && Enabled(s, Append(id, owner, second)) && q.ListOf? && q.owner in s.blocks
    ensures StepInOrder(s, Append(id, owner, second), q)
  {
  }

  lemma PullOrder(s: State, owner: Id, second: bool, q: Queue)
    requires Inv(s) && Enabled(s, PullFirst(owner, second)) && q.ListOf? && q.owner in s.blocks
    ensures StepInOrder(s, PullFirst(owner, second), q)
  {
    PulledList(s, owner, second, q);
  }

  lemma TakeApartOrder(s: State, id: Id, q: Queue)
    requires Inv(s) && Enabled(s, TakeApart(id)) && q.ListOf? && q.owner in s.blocks
    ensures StepInOrder(s, TakeApart(id), q)
  {
    TakenLists(s, id, q);
    assert Entering(s, TakeApart(id), q) == [];
    assert Leaving(s, TakeApart(id), q) == if q.owner == id then Contents(s, q) else [];
  }

  lemma ListOrder(s: State, ev: Event, q: Queue)
    requires Inv(s) && Enabled(s, ev) && q.ListOf? && q.owner in s.blocks
    ensures StepInOrder(s, ev, q)
  {
    match ev
    case Append(id, owner, second) => AppendOrder(s, id, owner, second, q);
    case PullFirst(owner, second) => PullOrder(s, owner, second, q);
    case TakeApart(id) => TakeApartOrder(s, id, q);
    case _ => OtherOrder(s, ev, q);
  }

  // ----- whole runs ---------------------------------------------------------------------------------------

  lemma StepOrder(s: State, ev: Event, q: Queue)
    requires Inv(s) && Enabled(s, ev) && Exists(s, q)
    ensures StepInOrder(s, ev, q)
  {
    match q
    case FreeQueue => FreeOrder(s, ev);
    case RecycleQueue => RecycleOrder(s, ev);
    case ListOf(owner, second) => ListOrder(s, ev, q);
  }

  ghost function EnteringAll(s: State, evs: seq<Event>, q: Queue): seq<Id>
    requires Inv(s) && CanRun(s, evs)
    decreases |evs|
  {
    if evs == [] then []
    else ApplyKeeps(s, evs[0]); Entering(s, evs[0], q) + EnteringAll(Apply(s, evs[0]), evs[1..], q)
  }

  ghost function LeavingAll(s: State, evs: seq<Event>, q: Queue): seq<Id>
    requires Inv(s) && CanRun(s, evs) && Exists(s, q)
    decreases |evs|
  {
    if evs == [] then []
    else
      ApplyKeeps(s, evs[0]);
      StepOrder(s, evs[0], q);
      Leaving(s, evs[0], q) + LeavingAll(Apply(s, evs[0]), evs[1..], q)
  }

  lemma OrderJoins(a: seq<Id>, e1: seq<Id>, l1: seq<Id>, b: seq<Id>, e2: seq<Id>, l2: seq<Id>, c: seq<Id>)
    requires InOrder(a, e1, l1, b) && InOrder(b, e2, l2, c)
    ensures InOrder(a, e1 + e2, l1 + l2, c)
  {
    calc {
      a + (e1 + e2);
      (a + e1) + e2;
      (l1 + b) + e2;
      l1 + (b + e2);
      l1 + (l2 + c);
      (l1 + l2) + c;
    }
  }

  /** In every run, whatever the interleaving, blocks leave the free queue, the recycle queue and every list in the
      order in which they entered it. */
  lemma {:induction false} QueueOrder(s: State, evs: seq<Event>, q: Queue)
    requires Inv(s) && CanRun(s, evs) && Exists(s, q)
    ensures Exists(Run(s, evs), q)
    ensures InOrder(Contents(s, q), EnteringAll(s, evs, q), LeavingAll(s, evs, q), Contents(Run(s, evs), q))
    decreases |evs|
  {
    if evs != [] {
      var ev, rest, s1 := evs[0], evs[1..], Apply(s, evs[0]);
      ApplyKeeps(s, ev);
      StepOrder(s, ev, q);
      QueueOrder(s1, rest, q);
      OrderJoins(Contents(s, q), Entering(s, ev, q), Leaving(s, ev, q), Contents(s1, q),
        EnteringAll(s1, rest, q), LeavingAll(s1, rest, q), Contents(Run(s, evs), q));
    }
  }

  // ----- the watermark ------------------------------------------------------------------------------------

  function Max(a: int, b: int): int { if a < b then b else a }

  function Used(s: State): int { |s.blocks| - |s.free| }

  /** The most blocks that are out of the free queue at any time of the run. */
  ghost function MostUsed(s: State, evs: seq<Event>): int
    requires Inv(s) && CanRun(s, evs)
    decreases |evs|
  {
    if evs == [] then Used(s)
    else ApplyKeeps(s, evs[0]); Max(Used(s), MostUsed(Apply(s, evs[0]), evs[1..]))
  }

  lemma MarkGrows(s: State, ev: Event)
    requires Inv(s) && Enabled(s, ev)
    ensures Apply(s, ev).watermark == Max(s.watermark, Used(Apply(s, ev)))
  {
    ApplyKeeps(s, ev);
    if (ev.Allocate? || ev.RefMakeBlock?) && Apply(s, ev) != s {
      AllocMarks(s, ev);
    } else {
      SameMark(s, ev);
    }
  }

  lemma AllocMarks(s: State, ev: Event)
    requires Inv(s) && Enabled(s, ev) && (ev.Allocate? || ev.RefMakeBlock?) && Apply(s, ev) != s
    ensures Apply(s, ev).watermark == Max(s.watermark, Used(Apply(s, ev)))
  {
    Ready(s, ev);
    FreedLists(s, ev);
    assert |Apply(s, ev).blocks.Keys| == |s.blocks.Keys|;
  }

  lemma SameMark(s: State, ev: Event)
    requires Inv(s) && Enabled(s, ev)
    ensures (ev.Allocate? || ev.RefMakeBlock? ==> Apply(s, ev) == s) ==> Apply(s, ev).watermark == s.watermark
  {
    Ready(s, ev);
  }

  /** The watermark is the most that was ever in use. */
  lemma {:induction false} WatermarkExact(s: State, evs: seq<Event>)
    requires Inv(s) && CanRun(s, evs)
    ensures Run(s, evs).watermark == Max(s.watermark, MostUsed(s, evs))
    decreases |evs|
  {
    if evs != [] {
      ApplyKeeps(s, evs[0]);
      MarkGrows(s, evs[0]);
      WatermarkExact(Apply(s, evs[0]), evs[1..]);
    }
  }

  // ----- what an allocation gives ---------------------------------------------------------------------------

  /** A block is given exactly if that leaves the reserve of the priority, and it is the first of the free queue, of
      the kind asked for, empty and unreferenced; no other block is touched. */
  lemma AllocExact(s: State, kind: Kind, priority: nat)
    requires Inv(s) && Enabled(s, Allocate(kind, priority)) && s.threshold * 255 < COUNT_LIMIT
    ensures var s', reserve := Apply(s, Allocate(kind, priority)), s.threshold - s.threshold * priority / 255;
      if kind != Undefined && |s.free| >= 1 + reserve && s.free != []
      then s'.free == s.free[1..] && s'.recycle == s.recycle && s'.light == s.light
        && s'.blocks == s.blocks[s.free[0] := Block(kind, Loose, [], [], 0, None, false)]
      else s' == s
  {
    Ready(s, Allocate(kind, priority));
    ProductOrder(s.threshold, priority, 255);
    ReserveExact(s.threshold, priority);
  }
}
