/** The custody cache with its indices: the operations of the program, which find entries by searching the trees. */
module CacheJoined {
  import M = CacheModel
  import opened CacheInv
  import opened CacheArrive
  import opened CacheRun
  import opened CacheTheorems
  import opened CacheBook
  import opened Indices
  import E = EntryIndex
  import T = TimeIndex
  import opened CacheIndex
  import Shape = RbShape
  import Impl = CacheImpl

  type Id = M.Id

  /** The entry `id` is held by the operation under way. */
  ghost predicate Held(s: M.State, id: Id) { Core(s) && PlacesOk(s) && Detached(s, id) }

  lemma HeldExecutes(s: M.State, id: Id, env: M.Env)
    requires Held(s, id)
    ensures FlightOk(s.entries[id]) && M.Execute(s, id, env) in Sound()
    ensures var s' := M.Execute(s, id, env);
      && id in s'.entries && s'.now == s.now && id in s.entries
      && (Live(s'.entries[id]) ==> 0 < s'.entries[id].timeKey <= s.now + M.IDLE_RETRY_TIME)
  {
    var e := s.entries[id];
    assert EntryOk(e, s.now);
    ExecuteKeeps(s, id, env);
    CommitShape(s, id, M.Settled(s.now, e, M.Restored(s, e, env), env.refAllocOk), env);
    var s' := M.Execute(s, id, env);
    assert Live(s'.entries[id]) ==> id in s'.idle;
  }

  /** The clock leaves room for the keys of the time index. */
  predicate ClockOk(now: nat) { now + M.IDLE_RETRY_TIME < Shape.KEY_LIMIT }

  class CustodyCache {
    const core: Impl.Cache
    const catalog: Catalog

    ghost function Repr(): set<object>
      reads catalog, catalog.bundles, catalog.acks, catalog.timers
    {
      {core} + catalog.Repr()
    }

    /** The indices are in order. */
    ghost predicate Apart()
      reads catalog, catalog.bundles, catalog.acks, catalog.timers, catalog.Repr()
    {
      catalog.Valid() && core !in catalog.Repr()
    }

    /** The indices hold what they should. */
    ghost predicate Rep()
      reads core, catalog, catalog.bundles, catalog.acks, catalog.timers, catalog.Repr()
    {
      Apart() && Matches(catalog.View(), core.View())
    }

    /** Everything is in order.  Loops state `Valid() == true`, so that it is kept as a whole. */
    ghost predicate Valid()
      reads core, catalog, catalog.bundles, catalog.acks, catalog.timers, catalog.Repr()
    {
      Rep() && core.Valid() && ClockOk(core.now)
    }

    constructor (core: Impl.Cache, catalog: Catalog)
      ensures this.core == core && this.catalog == catalog
      ensures catalog.Valid() == old(catalog.Valid()) && catalog.View() == old(catalog.View())
      ensures catalog.Repr() == old(catalog.Repr())
    {
      assert allocated(catalog.Repr());
      this.catalog, this.core := catalog, core;
    }

    // ----- evaluation -----------------------------------------------------------------------------

    /** Evaluate an entry: if that closes an acknowledgement it leaves its index, and a live entry is
        scheduled anew. */
    method FsmExecute(id: Id, env: M.Env)
      requires Rep() && Held(core.View(), id) && ClockOk(core.now)
      modifies Repr()
      ensures Rep() && catalog.Repr() <= old(catalog.Repr())
      ensures id in old(core.View()).entries && FlightOk(old(core.View()).entries[id])
      ensures core.View() == M.Execute(old(core.View()), id, env) && core.Valid() && core.now == old(core.now)
    {
      ghost var s, book := core.View(), catalog.View();
      HeldExecutes(s, id, env);
      ExecuteBook(book, s, id, env);
      var was := core.entries[id];
      Evaluate(id, env);
      var e := core.entries[id];
      catalog.Update(id, was.state == M.GenerateDacs && e.state != M.GenerateDacs, e.state != M.Undefined, e.timeKey);
      assert catalog.View() == Executed(book, id, was, e);
    }

    /** The indices are as they were. */
    twostate predicate SameCatalog()
      reads catalog, catalog.bundles, catalog.acks, catalog.timers, catalog.Repr()
    {
      && catalog.Valid() == old(catalog.Valid()) && catalog.View() == old(catalog.View())
      && catalog.Repr() == old(catalog.Repr())
    }

    /** The evaluation itself, which leaves the indices alone. */
    method Evaluate(id: Id, env: M.Env)
      requires core !in catalog.Repr() && id in core.entries
      requires core.entries[id].state == M.Queue ==> core.entries[id].ref.Some?
      modifies core
      ensures SameCatalog() && core.View() == M.Execute(old(core.View()), id, env)
    {
      assert allocated(catalog.Repr());
      core.FsmExecute(id, env);
    }

    // ----- lookups --------------------------------------------------------------------------------

    method Touch(id: Id)
      requires core !in catalog.Repr() && id in core.entries
      modifies core
      ensures SameCatalog() && core.View() == M.Touch(old(core.View()), id)
    {
      assert allocated(catalog.Repr());
      core.Touch(id);
    }

    /** Look a bundle up by its name, and mark it as active. */
    method FindExistingBundle(flow: M.Addr, seqNum: nat) returns (r: M.Option<Id>)
      requires Rep() && forall id :: id in core.bundleIndex ==> id in core.entries
      modifies core
      ensures Rep() && catalog.Repr() == old(catalog.Repr())
      ensures r == M.FindBundle(old(core.View()), old(core.bundleIndex), flow, seqNum)
      ensures r.None? ==> core.View() == old(core.View()) && !E.Taken(catalog.View().bundles, BundleName(flow, seqNum))
      ensures r.Some? ==> r.value in old(core.entries) && core.View() == M.Touch(old(core.View()), r.value)
    {
      ghost var s, book := core.View(), catalog.View();
      r := catalog.FindBundle(BundleName(flow, seqNum));
      FindsBundle(book.bundles, s, flow, seqNum, r);
      if r.Some? {
        TouchBook(book, s, r.value);
        Touch(r.value);
      }
    }

    /** Look the open acknowledgement for a custodian and a flow up. */
    method FindPendingDacs(custodian: M.Addr, flow: M.Addr) returns (r: M.Option<Id>)
      requires Rep() && forall id :: id in core.dacsIndex ==> id in core.entries
      ensures Rep() && catalog.Repr() == old(catalog.Repr()) && catalog.View() == old(catalog.View())
      ensures r == M.FindDacs(core.View(), core.dacsIndex, custodian, flow)
      ensures r.None? ==> !E.Taken(catalog.View().acks, AckName(custodian, flow))
      ensures r.Some? ==> r.value in core.entries
    {
      ghost var s, book := core.View(), catalog.View();
      r := catalog.FindAck(AckName(custodian, flow));
      FindsAck(book.acks, s, custodian, flow, r);
    }

    // ----- acknowledgements -----------------------------------------------------------------------

    method Append(id: Id, seqNum: nat)
      requires core !in catalog.Repr() && id in core.entries
      modifies core
      ensures SameCatalog() && core.View() == M.AppendDacs(old(core.View()), id, seqNum)
    {
      assert allocated(catalog.Repr());
      core.AppendDacs(id, seqNum);
    }

    /** Add a number to an acknowledgement; a full one leaves its index. */
    method AppendDacs(id: Id, seqNum: nat)
      requires Rep() && id in core.entries
      modifies Repr()
      ensures Rep() && catalog.Repr() <= old(catalog.Repr())
      ensures core.View() == M.AppendDacs(old(core.View()), id, seqNum)
    {
      ghost var s, book := core.View(), catalog.View();
      AppendBook(book, s, id, seqNum);
      Append(id, seqNum);
      if |core.entries[id].seqs| == M.MAX_SEQ_PER_PAYLOAD {
        catalog.CloseAck(id);
      }
    }

    method Open(custodian: M.Addr, flow: M.Addr, dacs: M.DacsEnv)
      requires core !in catalog.Repr()
      modifies core
      ensures SameCatalog()
      ensures core.View() == M.OpenDacs(old(core.View()), custodian, flow, dacs.self, dacs.seqNum, dacs.clock)
    {
      assert allocated(catalog.Repr());
      core.OpenDacs(custodian, flow, dacs);
    }

    /** A new acknowledgement. */
    method OpenDacs(custodian: M.Addr, flow: M.Addr, dacs: M.DacsEnv) returns (ghost more: set<object>)
      requires Rep() && core.nextId !in core.entries && core.nextId !in core.bundleIndex
      requires !E.Taken(catalog.View().acks, AckName(custodian, flow))
      modifies Repr()
      ensures Rep() && fresh(more) && catalog.Repr() <= old(catalog.Repr()) + more
      ensures core.View() == M.OpenDacs(old(core.View()), custodian, flow, dacs.self, dacs.seqNum, dacs.clock)
    {
      ghost var s, book := core.View(), catalog.View();
      var id := core.nextId;
      more := catalog.AddAck(id, AckName(custodian, flow));
      Open(custodian, flow, dacs);
      NewAckBook(book, s, core.View().entries[id], core.View());
    }

    /** Open an acknowledgement and put the first number into it. */
    method StartDacs(custodian: M.Addr, flow: M.Addr, seqNum: nat, dacs: M.DacsEnv) returns (ghost more: set<object>)
      requires Rep() && core.nextId !in core.entries && core.nextId !in core.bundleIndex
      requires !E.Taken(catalog.View().acks, AckName(custodian, flow))
      modifies Repr()
      ensures Rep() && fresh(more) && catalog.Repr() <= old(catalog.Repr()) + more
      ensures var s1 := M.OpenDacs(old(core.View()), custodian, flow, dacs.self, dacs.seqNum, dacs.clock);
        core.View() == M.AppendDacs(s1, old(core.nextId), seqNum)
    {
      var id := core.nextId;
      more := OpenDacs(custodian, flow, dacs);
      AppendDacs(id, seqNum);
    }

    /** Acknowledge a bundle to its previous custodian, if it has one. */
    method AckTrackingBlock(custodian: M.Option<M.Addr>, flow: M.Addr, seqNum: nat, dacs: M.DacsEnv)
      returns (ghost more: set<object>)
      requires Rep() && core.nextId !in core.entries && core.nextId !in core.bundleIndex
      requires forall id :: id in core.dacsIndex ==> id in core.entries
      modifies Repr()
      ensures Rep() && fresh(more) && catalog.Repr() <= old(catalog.Repr()) + more
      ensures core.View() == M.Acknowledge(old(core.View()), custodian, flow, seqNum, dacs)
    {
      more := {};
      if custodian.Some? {
        var r := FindPendingDacs(custodian.value, flow);
        if r.Some? {
          AppendDacs(r.value, seqNum);
        } else if dacs.allocOk {
          more := StartDacs(custodian.value, flow, seqNum, dacs);
        }
      }
    }

    // ----- arrivals -------------------------------------------------------------------------------

    method Enter(b: M.Bundle, offload: M.Offload) returns (id: Id)
      requires core !in catalog.Repr()
      modifies core
      ensures SameCatalog() && id == old(core.nextId) && core.View() == M.AddEntry(old(core.View()), b, offload)
    {
      assert allocated(catalog.Repr());
      id := core.AddEntry(b, offload);
    }

    /** Make an entry for a new bundle, index it and offload it. */
    method AddEntry(b: M.Bundle, offload: M.Offload) returns (id: Id, ghost more: set<object>)
      requires Rep() && core.nextId !in core.entries && core.nextId !in core.dacsIndex
      requires !E.Taken(catalog.View().bundles, BundleName(b.flow, b.seqNum))
      modifies Repr()
      ensures Rep() && fresh(more) && catalog.Repr() <= old(catalog.Repr()) + more
      ensures id == old(core.nextId) && core.View() == M.AddEntry(old(core.View()), b, offload)
    {
      ghost var s, book := core.View(), catalog.View();
      more := catalog.AddBundle(core.nextId, BundleName(b.flow, b.seqNum));
      id := Enter(b, offload);
      NewBundleBook(book, s, M.NewEntry(s, b, offload), core.View());
    }

    /** A bundle that was not seen before. */
    method StoreNew(b: M.Bundle, offload: M.Offload, dacs: M.DacsEnv, env: M.Env) returns (ghost more: set<object>)
      requires Valid() && BundleOk(b) && !E.Taken(catalog.View().bundles, BundleName(b.flow, b.seqNum))
      requires M.IndicesHold(core.View()) && M.FindBundle(core.View(), core.bundleIndex, b.flow, b.seqNum).None?
      modifies Repr()
      ensures Valid() && fresh(more) && catalog.Repr() <= old(catalog.Repr()) + more
      ensures core.View() == M.StoreNew(old(core.View()), b, offload, dacs, env)
    {
      StoreNewSteps(core.View(), b, offload, dacs);
      var id;
      id, more := AddAndAck(b, offload, dacs);
      FsmExecute(id, env);
    }

    /** Make the entry, and acknowledge the bundle once it is in the store. */
    method AddAndAck(b: M.Bundle, offload: M.Offload, dacs: M.DacsEnv) returns (id: Id, ghost more: set<object>)
      requires Rep() && !E.Taken(catalog.View().bundles, BundleName(b.flow, b.seqNum))
      requires AddsOn(core.View(), M.AddEntry(core.View(), b, offload))
      modifies Repr()
      ensures Rep() && fresh(more) && catalog.Repr() <= old(catalog.Repr()) + more
      ensures id == old(core.nextId)
      ensures var s1 := M.AddEntry(old(core.View()), b, offload);
        core.View() == if offload.Saved? then M.Acknowledge(s1, b.custodian, b.flow, b.seqNum, dacs) else s1
    {
      id, more := AddEntry(b, offload);
      if offload.Saved? {
        ghost var extra := AckTrackingBlock(b.custodian, b.flow, b.seqNum, dacs);
        more := Both(more, extra);
      }
    }

    /** A bundle from the queue: a duplicate marks its entry as active and is acknowledged again. */
    method StoreBundle(b: M.Bundle, allocOk: bool, offload: M.Offload, dacs: M.DacsEnv, env: M.Env)
      returns (ghost more: set<object>)
      requires Valid() && BundleOk(b) && M.IndicesHold(core.View())
      modifies Repr()
      ensures Valid() && fresh(more) && catalog.Repr() <= old(catalog.Repr()) + more
      ensures core.View() == M.StoreBundle(old(core.View()), b, allocOk, offload, dacs, env)
    {
      ghost var s := core.View();
      more := {};
      var r := FindExistingBundle(b.flow, b.seqNum);
      if r.Some? {
        Touched(s, r.value, b, dacs);
        more := AckTrackingBlock(b.custodian, b.flow, b.seqNum, dacs);
      } else if allocOk {
        more := StoreNew(b, offload, dacs, env);
      }
    }

    method Relieve(id: Id)
      requires core !in catalog.Repr() && id in core.entries
      modifies core
      ensures SameCatalog()
      ensures core.View() == M.MakePending(M.Put(old(core.View()), id, NoCustody(old(core.entries[id]))), id)
    {
      assert allocated(catalog.Repr());
      core.Relieve(id);
    }

    /** One number of an acknowledgement from another custodian. */
    method ReleaseOne(flow: M.Addr, seqNum: nat) returns (r: M.Option<Id>)
      requires Valid() && forall id :: id in core.bundleIndex ==> id in core.entries
      modifies core
      ensures Valid() && catalog.Repr() == old(catalog.Repr())
      ensures r == M.FindBundle(old(core.View()), old(core.bundleIndex), flow, seqNum)
      ensures r.None? ==> core.View() == old(core.View())
      ensures r.Some? ==> r.value in old(core.entries) && core.View() == M.Released(old(core.View()), r.value)
    {
      ghost var s := core.View();
      r := FindExistingBundle(flow, seqNum);
      if r.Some? {
        var id := r.value;
        ReleasedSteps(s, id);
        RelieveBook(catalog.View(), core.View(), id, NoCustody(core.entries[id]));
        Relieve(id);
      }
    }

    /** The next number; what is left still leads to `goal`. */
    method ReleaseNext(flow: M.Addr, seqs: seq<nat>, ghost goal: M.State)
      requires Valid() && |seqs| > 0 && (core.View(), seqs) in ReleasingTo(flow, goal)
      modifies core
      ensures Valid() && catalog.Repr() == old(catalog.Repr()) && (core.View(), seqs[1..]) in ReleasingTo(flow, goal)
    {
      ReleasesOn(core.View(), flow, seqs, goal);
      var r := ReleaseOne(flow, seqs[0]);
    }

    /** Another custodian acknowledges bundles of a flow. */
    method ProcessRemoteDacs(flow: M.Addr, seqs: seq<nat>)
      requires Valid() && forall id :: id in core.bundleIndex ==> id in core.entries
      modifies core
      ensures Valid() && catalog.Repr() == old(catalog.Repr())
      ensures core.View() == M.RemoteDacs(old(core.View()), flow, seqs)
    {
      ReleasesFrom(core.View(), flow, seqs);
      ReleaseAll(flow, seqs, M.RemoteDacs(core.View(), flow, seqs));
    }

    method ReleaseAll(flow: M.Addr, seqs: seq<nat>, ghost goal: M.State)
      requires Valid() && (core.View(), seqs) in ReleasingTo(flow, goal)
      modifies core
      ensures Valid() && catalog.Repr() == old(catalog.Repr()) && core.View() == goal
    {
      var rest := seqs;
      while |rest| > 0
        invariant Valid() == true && catalog.Repr() == old(catalog.Repr())
        invariant (core.View(), rest) in ReleasingTo(flow, goal)
        decreases |rest|
      {
        ReleaseNext(flow, rest, goal);
        rest := rest[1..];
      }
      ReleasesOn(core.View(), flow, rest, goal);
    }

    // ----- pending entries ------------------------------------------------------------------------

    method PopPending() returns (id: Id)
      requires core !in catalog.Repr() && core.pending != []
      modifies core
      ensures SameCatalog() && id == old(core.pending[0])
      ensures core.View() == old(core.View()).(pending := old(core.pending)[1..])
    {
      assert allocated(catalog.Repr());
      id := core.PopPending();
    }

    /** Evaluate the head of the pending list. */
    method FlushTurn(env: M.Env, ghost look: (M.State, M.Env) -> M.State)
      requires IsLook(look) && Valid() && core.pending != []
      modifies Repr()
      ensures Valid() && catalog.Repr() <= old(catalog.Repr())
      ensures core.View() == look(old(core.View()), env) && core.now == old(core.now)
    {
      ghost var s, book := core.View(), catalog.View();
      Popped(s, env, book, look);
      var id := PopPending();
      FsmExecute(id, env);
    }

    /** Evaluate the pending entries in turn, as long as the environment takes bundles. */
    method FlushPending(envs: seq<M.Env>, ghost look: (M.State, M.Env) -> M.State)
      requires IsLook(look) && Valid()
      modifies Repr()
      ensures Valid() && catalog.Repr() <= old(catalog.Repr())
      ensures core.View() == Flush(look, old(core.View()), envs)
    {
      FlushesFrom(look, core.View(), envs);
      FlushAll(envs, look, Flush(look, core.View(), envs));
    }

    method FlushAll(envs: seq<M.Env>, ghost look: (M.State, M.Env) -> M.State, ghost goal: M.State)
      requires IsLook(look) && Valid() && (core.View(), envs) in FlushingTo(look, goal)
      modifies Repr()
      ensures Valid() && catalog.Repr() <= old(catalog.Repr()) && core.View() == goal
    {
      var rest := envs;
      while |rest| > 0 && core.pending != []
        invariant Valid() == true && catalog.Repr() <= old(catalog.Repr())
        invariant (core.View(), rest) in FlushingTo(look, goal)
        decreases |rest|
      {
        FlushNext(rest, look, goal);
        rest := rest[1..];
      }
      FlushesOn(look, core.View(), rest, goal);
    }

    /** The next entry; what is left still leads to `goal`. */
    method FlushNext(envs: seq<M.Env>, ghost look: (M.State, M.Env) -> M.State, ghost goal: M.State)
      requires IsLook(look) && Valid() && |envs| > 0 && core.pending != []
      requires (core.View(), envs) in FlushingTo(look, goal)
      modifies Repr()
      ensures Valid() && catalog.Repr() <= old(catalog.Repr()) && (core.View(), envs[1..]) in FlushingTo(look, goal)
    {
      FlushesOn(look, core.View(), envs, goal);
      FlushTurn(envs[0], look);
    }

    // ----- time -----------------------------------------------------------------------------------

    method MakeDue(due: seq<Id>)
      requires core !in catalog.Repr() && forall id :: id in due ==> id in core.entries
      modifies core
      ensures SameCatalog() && core.View() == M.TakeDue(old(core.View()), due)
    {
      assert allocated(catalog.Repr());
      core.DoPoll(due);
    }

    /** The poll of the time index: every entry whose time has come is made pending. */
    method DoPoll(bound: nat) returns (ghost due: seq<Id>)
      requires Valid()
      modifies Repr()
      ensures Valid() && catalog.Repr() <= old(catalog.Repr()) && core.now == old(core.now)
      ensures DueOk(old(core.View()), bound, due) && (forall id :: id in due ==> id in old(core.View()).entries)
      ensures core.View() == M.TakeDue(old(core.View()), due)
    {
      ghost var s, book := core.View(), catalog.View();
      var list := catalog.Drain(bound);
      DuePolls(s, book, bound, list);
      MakeDue(list);
      due := list;
    }

    method ReadClock(clock: nat)
      requires core !in catalog.Repr()
      modifies core
      ensures SameCatalog() && core.View() == old(core.View()).(now := clock)
    {
      assert allocated(catalog.Repr());
      core.now := clock;
    }

    /** The time goes on. */
    method Tick(clock: nat)
      requires Valid() && clock >= core.now && ClockOk(clock)
      modifies core
      ensures Valid() && catalog.Repr() == old(catalog.Repr()) && core.View() == old(core.View()).(now := clock)
    {
      ghost var s, book := core.View(), catalog.View();
      SoundTick(s, clock);
      SameBook(book, s, s.(now := clock));
      ReadClock(clock);
    }

    /** A poll event: the clock is read, and again for the poll; what is due becomes pending, and the pending
        entries are evaluated. */
    method PollEvent(clock: nat, bound: nat, envs: seq<M.Env>, ghost look: (M.State, M.Env) -> M.State)
      returns (ghost due: seq<Id>)
      requires IsLook(look) && Valid() && core.now <= clock <= bound && ClockOk(clock)
      modifies Repr()
      ensures Valid() && catalog.Repr() <= old(catalog.Repr())
      ensures DueOk(old(core.View()).(now := clock), bound, due)
      ensures core.View() == Flush(look, M.TakeDue(old(core.View()).(now := clock), due), envs)
    {
      Tick(clock);
      due := DoPoll(bound);
      FlushPending(envs, look);
    }

    // ----- the queue ------------------------------------------------------------------------------

    /** One block from the queue: an acknowledgement, or a bundle to store. */
    method Take(ev: Event) returns (ghost more: set<object>)
      requires Valid() && M.IndicesHold(core.View()) && IsInput(ev)
      modifies Repr()
      ensures Valid() && fresh(more) && catalog.Repr() <= old(catalog.Repr()) + more
      ensures core.View() == Taken(old(core.View()), ev)
    {
      more := {};
      if ev.RemoteAck? {
        ProcessRemoteDacs(ev.flow, ev.seqs);
      } else {
        more := StoreBundle(ev.b, ev.allocOk, ev.offload, ev.dacs, ev.env);
      }
    }

    /** What is left to take leads to `goal`. */
    ghost predicate Ingests(evs: seq<Event>, goal: M.State)
      reads core
    {
      (core.View(), evs) in LeadingTo(goal)
    }

    method TakeNext(evs: seq<Event>, ghost goal: M.State) returns (ghost more: set<object>)
      requires Valid() && |evs| > 0 && Ingests(evs, goal)
      modifies Repr()
      ensures Valid() && fresh(more) && catalog.Repr() <= old(catalog.Repr()) + more && Ingests(evs[1..], goal)
    {
      LeadsOn(core.View(), evs, goal);
      SoundInput(core.View(), evs[0]);
      more := Take(evs[0]);
    }

    /** The loop over the queue. */
    method TakeAll(evs: seq<Event>, ghost goal: M.State) returns (ghost more: set<object>)
      requires Valid() && Ingests(evs, goal)
      modifies Repr()
      ensures Valid() && fresh(more) && catalog.Repr() <= old(catalog.Repr()) + more && core.View() == goal
    {
      more := {};
      var queue := evs;
      while |queue| > 0
        invariant Valid() == true && Ingests(queue, goal) == true
        invariant fresh(more) && catalog.Repr() <= old(catalog.Repr()) + more
        decreases |queue|
      {
        ghost var extra := TakeNext(queue, goal);
        more, queue := Both(more, extra), queue[1..];
      }
      LeadsOn(core.View(), queue, goal);
    }

    /** Take everything from the egress queue. */
    method EgressImpl(clock: nat, inputs: seq<Event>) returns (ghost more: set<object>)
      requires Valid() && clock >= core.now && ClockOk(clock) && forall ev :: ev in inputs ==> IsInput(ev)
      modifies Repr()
      ensures Valid() && fresh(more) && catalog.Repr() <= old(catalog.Repr()) + more
      ensures old(core.View()).(now := clock) in Sound()
      ensures core.View() == Ingest(old(core.View()).(now := clock), inputs)
    {
      LeadsFrom(core.View(), clock, inputs);
      Tick(clock);
      more := TakeAll(inputs, Ingest(core.View(), inputs));
    }

    // ----- destructors ----------------------------------------------------------------------------

    method DropCopy(id: Id)
      requires core !in catalog.Repr() && id in core.entries
      modifies core
      ensures SameCatalog() && core.View() == M.DestroyRef(old(core.View()), id)
    {
      assert allocated(catalog.Repr());
      core.DestructBlockref(id);
    }

    /** A copy in flight was destroyed: no copy is left, and its entry is on the pending list and on no other. */
    method DestructBlockref(id: Id)
      requires Valid() && id in core.refs
      modifies core
      ensures Valid() && catalog.Repr() == old(catalog.Repr()) && Enabled(old(core.View()), RefGone(id))
      ensures id in old(core.entries) && core.View() == M.DestroyRef(old(core.View()), id)
      ensures core.refs[id] == 0 && multiset(core.pending)[id] == 1 && id !in core.idle && id !in core.recycle
    {
      ghost var s, book := core.View(), catalog.View();
      RefGoneSteps(s, book, id);
      DropCopy(id);
    }

    method MarkEgress(id: Id, clock: nat)
      requires core !in catalog.Repr() && id in core.entries && core.entries[id].ref.Some?
      modifies core
      ensures SameCatalog() && core.View() == M.Egress(old(core.View()), id, clock)
    {
      assert allocated(catalog.Repr());
      core.RecordEgress(id, clock);
    }

    /** A convergence layer has sent the copy in flight. */
    method RecordEgress(id: Id, clock: nat)
      requires Valid() && id in core.refs && clock > 0
      modifies core
      ensures Valid() && catalog.Repr() == old(catalog.Repr())
      ensures id in old(core.entries) && old(core.entries[id]).ref.Some?
      ensures core.View() == M.Egress(old(core.View()), id, clock)
    {
      ghost var s, book := core.View(), catalog.View();
      EgressSteps(s, book, id, clock);
      MarkEgress(id, clock);
    }

    method DropFields(id: Id)
      requires core !in catalog.Repr()
      modifies core
      ensures SameCatalog() && core.View() == M.DestroyEntry(old(core.View()), id)
    {
      assert allocated(catalog.Repr());
      core.DestructEntry(id);
    }

    /** The collector destroys a discarded entry: it is out of every index, and no copy refers to it. */
    method DestructEntry(id: Id)
      requires Valid() && id in core.recycle
      modifies Repr()
      ensures Valid() && catalog.Repr() <= old(catalog.Repr())
      ensures core.View() == M.DestroyEntry(old(core.View()), id) && id !in core.refs
      ensures var book := catalog.View(); id !in book.bundles && id !in book.acks && id !in book.times
    {
      ghost var s, book := core.View(), catalog.View();
      EntryGoneSteps(s, book, id);
      catalog.Drop(id);
      DropFields(id);
    }
  }

  /** The states and queues from which the loop over the queue leads to `goal`. */
  ghost function LeadingTo(goal: M.State): iset<(M.State, seq<Event>)> {
    iset p: (M.State, seq<Event>) |
      p.0 in Sound() && (forall ev :: ev in p.1 ==> IsInput(ev)) && Ingest(p.0, p.1) == goal
  }

  lemma LeadsFrom(s: M.State, clock: nat, evs: seq<Event>)
    requires s in Sound() && clock >= s.now && forall ev :: ev in evs ==> IsInput(ev)
    ensures var s0 := s.(now := clock); s0 in Sound() && (s0, evs) in LeadingTo(Ingest(s0, evs))
  {
    SoundTick(s, clock);
  }

  lemma LeadsOn(s: M.State, evs: seq<Event>, goal: M.State)
    requires (s, evs) in LeadingTo(goal)
    ensures evs == [] ==> s == goal
    ensures evs != [] ==> IsInput(evs[0]) && s in Sound()
    ensures evs != [] ==> (SoundInput(s, evs[0]); (Taken(s, evs[0]), evs[1..]) in LeadingTo(goal))
  {
    if evs != [] {
      SoundInput(s, evs[0]);
    }
  }

  lemma RefGoneSteps(s: M.State, book: Book, id: Id)
    requires s in Sound() && Matches(book, s) && id in s.refs
    ensures id in s.entries && M.DestroyRef(s, id) in Sound() && M.DestroyRef(s, id).now == s.now
    ensures Matches(book, M.DestroyRef(s, id))
    ensures var s' := M.DestroyRef(s, id);
      s'.refs[id] == 0 && multiset(s'.pending)[id] == 1 && id !in s'.idle && id !in s'.recycle
  {
    DestroyRefKeeps(s, id);
    InFlight(s, id);
    var s' := M.DestroyRef(s, id);
    SameBook(book, s, s');
    RemoveSpec(s.pending, id);
    RemoveSpec(s.idle, id);
    RemoveSpec(s.recycle, id);
  }

  lemma EgressSteps(s: M.State, book: Book, id: Id, clock: nat)
    requires s in Sound() && Matches(book, s) && id in s.refs && clock > 0
    ensures id in s.entries && s.entries[id].ref.Some?
    ensures M.Egress(s, id, clock) in Sound() && M.Egress(s, id, clock).now == s.now
    ensures Matches(book, M.Egress(s, id, clock))
  {
    InFlight(s, id);
    EgressKeeps(s, id, clock);
    SameBook(book, s, M.Egress(s, id, clock));
  }

  lemma EntryGoneSteps(s: M.State, book: Book, id: Id)
    requires s in Sound() && Matches(book, s) && id in s.recycle
    ensures id in book.times && M.DestroyEntry(s, id) in Sound() && id !in s.refs
    ensures Matches(Book(book.bundles - {id}, book.acks - {id}, book.times - {id}), M.DestroyEntry(s, id))
  {
    RecycledEntry(s, id);
    DestroyEntryKeeps(s, id);
    DestroyBook(book, s, id);
  }

  /** What is due by the time index is due in the cache. */
  lemma DuePolls(s: M.State, book: Book, bound: nat, due: seq<Id>)
    requires s in Sound() && Matches(book, s) && T.Due(book.times, bound, due)
    ensures DueOk(s, bound, due) && (forall id :: id in due ==> id in s.entries)
    ensures M.TakeDue(s, due) in Sound() && M.TakeDue(s, due).now == s.now
    ensures Matches(book.(times := T.Cleared(book.times, due)), M.TakeDue(s, due))
  {
    forall i | 0 <= i < |due| ensures due[i] in s.entries && s.entries[due[i]].timeKey != 0 {
      var id := due[i];
      assert id in book.times && book.times[id] == s.entries[id].timeKey;
    }
    SoundPoll(s, bound, due);
    TakeDueBook(book, s, due);
    TakeDueNow(s, due);
  }

  lemma {:induction false} TakeDueNow(s: M.State, due: seq<Id>)
    requires forall id :: id in due ==> id in s.entries
    ensures M.TakeDue(s, due).now == s.now
    decreases |due|
  {
    if due != [] {
      var s1 := M.MakePending(s, due[0]);
      TakeDueNow(M.Put(s1, due[0], s1.entries[due[0]].(timeKey := 0)), due[1..]);
    }
  }

  /** The head of the pending list can be evaluated. */
  lemma Popped(s: M.State, env: M.Env, book: Book, look: (M.State, M.Env) -> M.State)
    requires IsLook(look) && s in Sound() && s.pending != []
    ensures var s0 := s.(pending := s.pending[1..]);
      && Held(s0, s.pending[0]) && look(s, env) == M.Execute(s0, s.pending[0], env)
      && (Matches(book, s) ==> Matches(book, s0))
  {
    var s0 := s.(pending := s.pending[1..]);
    PopDetaches(s);
    SameBook(book, s, s0);
    assert look(s, env) == LookAtNext(s, env);
  }

  /** The states and numbers from which the loop over an acknowledgement leads to `goal`. */
  ghost function ReleasingTo(flow: M.Addr, goal: M.State): iset<(M.State, seq<nat>)> {
    iset p: (M.State, seq<nat>) |
      (forall id :: id in p.0.bundleIndex ==> id in p.0.entries) && M.RemoteDacs(p.0, flow, p.1) == goal
  }

  lemma {:induction false} ReleasesFrom(s: M.State, flow: M.Addr, seqs: seq<nat>)
    requires forall id :: id in s.bundleIndex ==> id in s.entries
    ensures (s, seqs) in ReleasingTo(flow, M.RemoteDacs(s, flow, seqs))
  {
  }

  lemma {:induction false} ReleasesOn(s: M.State, flow: M.Addr, seqs: seq<nat>, goal: M.State)
    requires (s, seqs) in ReleasingTo(flow, goal)
    ensures forall id :: id in s.bundleIndex ==> id in s.entries
    ensures seqs == [] ==> s == goal
    ensures seqs != [] ==>
      var r := M.FindBundle(s, s.bundleIndex, flow, seqs[0]);
      && (r.None? ==> (s, seqs[1..]) in ReleasingTo(flow, goal))
      && (r.Some? && r.value in s.entries ==> (M.Released(s, r.value), seqs[1..]) in ReleasingTo(flow, goal))
  {
  }

  /** The states and environments from which the loop over the pending list leads to `goal`. */
  ghost function FlushingTo(look: (M.State, M.Env) -> M.State, goal: M.State): iset<(M.State, seq<M.Env>)> {
    iset p: (M.State, seq<M.Env>) | Flush(look, p.0, p.1) == goal
  }

  lemma {:induction false} FlushesFrom(look: (M.State, M.Env) -> M.State, s: M.State, envs: seq<M.Env>)
    ensures (s, envs) in FlushingTo(look, Flush(look, s, envs))
  {
  }

  lemma {:induction false} FlushesOn(look: (M.State, M.Env) -> M.State, s: M.State, envs: seq<M.Env>, goal: M.State)
    requires (s, envs) in FlushingTo(look, goal)
    ensures envs == [] || s.pending == [] ==> s == goal
    ensures envs != [] && s.pending != [] ==> (look(s, envs[0]), envs[1..]) in FlushingTo(look, goal)
  {
  }

  /** Another custodian's acknowledgement of one bundle. */
  lemma ReleasedSteps(s: M.State, id: Id)
    requires s in Sound() && id in s.entries
    ensures var s1 := M.Touch(s, id);
      && id in s1.entries && s1.entries.Keys == s.entries.Keys && s1.bundleIndex == s.bundleIndex
      && M.Released(s, id) in Sound() && M.Released(s, id).now == s.now
      && M.Released(s, id) == M.MakePending(M.Put(s1, id, NoCustody(s1.entries[id])), id)
  {
    ReleasedKeeps(s, id);
  }

  function NoCustody(e: M.Entry): M.Entry { e.(flags := e.flags.(custody := false)) }

  /** A duplicate leaves the cache in order. */
  lemma Touched(s: M.State, id: Id, b: M.Bundle, dacs: M.DacsEnv)
    requires s in Sound() && id in s.entries
    ensures var s1 := M.Touch(s, id);
      && s1.now == s.now && s1.nextId !in s1.entries && s1.nextId !in s1.bundleIndex
      && (forall x :: x in s1.dacsIndex ==> x in s1.entries)
      && var s2 := M.Acknowledge(s1, b.custodian, b.flow, b.seqNum, dacs); s2 in Sound() && s2.now == s.now
  {
    TouchKeeps(s, id);
    var s1 := M.Touch(s, id);
    AcknowledgeOk(s1, b.custodian, b.flow, b.seqNum, dacs, multiset{});
    AcknowledgeNow(s1, b.custodian, b.flow, b.seqNum, dacs);
  }

  /** The next identifiers are new, before and after an entry has been made. */
  ghost predicate AddsOn(s: M.State, s1: M.State) {
    && s.nextId !in s.entries && s.nextId !in s.dacsIndex && s1.nextId !in s1.entries && s1.nextId !in s1.bundleIndex
    && (forall id :: id in s1.dacsIndex ==> id in s1.entries)
  }

  /** The states on the way to storing a new bundle. */
  lemma StoreNewSteps(s: M.State, b: M.Bundle, offload: M.Offload, dacs: M.DacsEnv)
    requires s in Sound() && BundleOk(b)
    requires M.IndicesHold(s) && M.FindBundle(s, s.bundleIndex, b.flow, b.seqNum).None?
    ensures var s1 := M.AddEntry(s, b, offload);
      && AddsOn(s, s1)
      && var s2 := if offload.Saved? then M.Acknowledge(s1, b.custodian, b.flow, b.seqNum, dacs) else s1;
         Held(s2, s.nextId) && s2.now == s.now
  {
    var s1 := M.AddEntry(s, b, offload);
    AddEntryKeeps(s, b, offload);
    if offload.Saved? {
      AcknowledgeOk(s1, b.custodian, b.flow, b.seqNum, dacs, multiset{s.nextId});
      M.AcknowledgeKeeps(s1, b.custodian, b.flow, b.seqNum, dacs, s.nextId);
      AcknowledgeNow(s1, b.custodian, b.flow, b.seqNum, dacs);
    }
  }

  /** An empty cache with empty indices. */
  method NewCustodyCache(clock: nat, bundleHash: Name -> nat, ackHash: Name -> nat) returns (c: CustodyCache)
    requires clock > 0 && ClockOk(clock)
    ensures c.Valid() && c.core.View() == Init(clock)
  {
    var catalog := NewCatalog(bundleHash, ackHash);
    var core := NewFields(clock, catalog);
    c := Joined(core, catalog);
  }

  /** Fields that are not part of the indices. */
  method NewFields(clock: nat, catalog: Catalog) returns (core: Impl.Cache)
    requires clock > 0
    ensures core.Valid() && core.View() == Init(clock) && core !in catalog.Repr()
    ensures catalog.Valid() == old(catalog.Valid()) && catalog.View() == old(catalog.View())
  {
    assert allocated(catalog.Repr());
    core := new Impl.Cache(clock);
  }

  /** The fields and the indices put together. */
  method Joined(core: Impl.Cache, catalog: Catalog) returns (c: CustodyCache)
    requires catalog.Valid() && core !in catalog.Repr() && Matches(catalog.View(), core.View())
    requires core.Valid() && ClockOk(core.now)
    ensures c.core == core && c.catalog == catalog && c.Valid() && core.View() == old(core.View())
  {
    c := new CustodyCache(core, catalog);
  }

  // ----- what holds of the cache with its indices after every operation ---------------------------------

  /** The index of acknowledgements holds exactly the open ones, whatever the hash function: one for a custodian
      and a flow, being built, with distinct numbers and room for more. */
  lemma OneOpenAck(c: CustodyCache, a: Id, b: Id)
    requires c.Valid() && a in c.catalog.View().acks && b in c.catalog.View().acks
    ensures a in c.core.entries && b in c.core.entries
    ensures var x, y := c.core.entries[a], c.core.entries[b];
      && (x.who.custodian == y.who.custodian && x.who.acked == y.who.acked ==> a == b)
      && x.state == M.GenerateDacs && NoRepeats(x.seqs) && |x.seqs| < M.MAX_SEQ_PER_PAYLOAD
      && c.catalog.View().acks[a] == AckName(x.who.custodian, x.who.acked)
  {
    var s := c.core.View();
    AcksListed(c.catalog.View(), s, a);
    AcksListed(c.catalog.View(), s, b);
  }

  lemma AcksListed(book: Book, s: M.State, a: Id)
    requires s in Sound() && Matches(book, s) && a in book.acks
    ensures a in s.entries && a in s.dacsIndex && book.acks[a] == AckNameOf(s.entries[a].who) && PayloadOk(s.entries[a])
  {
    assert a in s.dacsIndex && a in s.entries;
    assert EntryOk(s.entries[a], s.now);
  }

  /** No live entry is forgotten: it is pending, or it is idle and its link is in the tree of the timers, under a
      time within the hour and no later than the time it waits for. */
  lemma TimerInTree(c: CustodyCache, id: Id)
    requires c.Valid() && id in c.core.entries && Live(c.core.entries[id])
    ensures multiset(c.core.pending)[id] + multiset(c.core.idle)[id] == 1
    ensures id in c.core.idle ==>
      var timers := c.catalog.timers;
      && TimerOk(c.core.entries[id], c.core.now)
      && id in timers.links
      && Shape.Entry(timers.links[id], c.core.entries[id].timeKey) in Shape.InOrder(timers.tree.shape)
  {
    OnItsList(c.core.View(), id);
    if id in c.core.idle {
      var timers := c.catalog.timers;
      T.TimerListed(timers.keys, timers.tree.shape, timers.links, timers.owner, id);
    }
  }
}
