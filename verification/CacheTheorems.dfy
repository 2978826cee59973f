/** What holds in every reachable state of the custody cache. */
module CacheTheorems {
  import opened CacheModel
  import opened CacheInv
  import opened CacheArrive
  import opened CacheRun
  import opened CacheSafety

  /** The states that some run reaches from the empty cache. */
  ghost predicate Reachable(s: State) {
    exists now: nat, evs :: now > 0 && (InitInv(now); CanRun(Init(now), evs)) && Run(Init(now), evs) == s
  }

  lemma ReachableInv(s: State)
    requires Reachable(s)
    ensures Inv(s)
  {
  }

  lemma RunCons(s: State, ev: Event, s1: State, evs: seq<Event>)
    requires Inv(s) && Enabled(s, ev) && Apply(s, ev) == s1 && Inv(s1) && CanRun(s1, evs)
    ensures CanRun(s, [ev] + evs) && Run(s, [ev] + evs) == Run(s1, evs)
  {
    assert ([ev] + evs)[1..] == evs;
  }

  // ----- a single copy in flight --------------------------------------------------------------

  /** The queued flag is set exactly while one copy is in flight; then the entry is in the queue state,
      has its bundle at hand, and is neither discarded nor destroyed. */
  lemma SingleCopy(s: State, id: Id)
    requires Reachable(s)
    ensures s.refs[id] <= 1
    ensures s.refs[id] == 1 <==> id in s.entries && s.entries[id].flags.queued
    ensures s.refs[id] == 1 ==>
      s.entries[id].state == Queue && s.entries[id].ref.Some? && id !in s.recycle
  {
    ReachableInv(s);
    if id in s.refs {
      InFlight(s, id);
    }
  }

  // ----- custody --------------------------------------------------------------------------------

  /** The evaluation of this entry would ask the store for the bundle. */
  predicate AsksStore(now: nat, e: Entry) {
    var e1 := CheckTimer(now, e);
    && e1.state == Idle && now < e1.who.expireTime && e1.flags.custody
    && !e1.flags.timeWait && !e1.flags.queued && e1.ref.None? && e1.who.sid != 0
  }

  /** Custody is held only with the bundle at hand or in the store, and the store is never asked for a
      bundle that was released; a bundle that was written is still there. */
  lemma CustodySafe(s: State, id: Id)
    requires Reachable(s) && id in s.entries
    ensures var e := s.entries[id];
      && (Live(e) && e.flags.custody && e.who.fromRef ==> e.ref.Some? || e.who.sid != 0)
      && (AsksStore(s.now, e) ==> e.who.sid !in s.released && (e.who.saved ==> e.who.sid in s.files))
      && (Live(e) && e.flags.custody && e.who.fromRef && (e.who.saved || e.who.sid == 0) ==>
            e.ref.Some? || e.who.sid in s.files)
  {
    ReachableInv(s);
    assert EntryOk(s.entries[id], s.now);
  }

  // ----- no entry is forgotten --------------------------------------------------------------------

  /** Every live entry is on exactly one of the pending and idle lists, and an idle one has a timer. */
  lemma NothingForgotten(s: State, id: Id)
    requires Reachable(s) && id in s.entries && Live(s.entries[id])
    ensures multiset(s.pending)[id] + multiset(s.idle)[id] == 1
    ensures id in s.idle ==> TimerOk(s.entries[id], s.now)
  {
    ReachableInv(s);
    OnItsList(s, id);
  }

  lemma OnItsList(s: State, id: Id)
    requires Inv(s) && id in s.entries && Live(s.entries[id])
    ensures multiset(s.pending)[id] + multiset(s.idle)[id] == 1
    ensures id in s.idle ==> TimerOk(s.entries[id], s.now)
  {
    assert (Lists(s) + multiset{})[id] == 1;
    assert id !in s.recycle;
  }

  lemma {:induction false} TakeDuePending(s: State, due: seq<Id>, id: Id)
    requires (forall x :: x in due ==> x in s.entries) && id in s.entries
    ensures var s' := TakeDue(s, due); id in due || id in s.pending ==> id in s'.pending
    decreases |due|
  {
    if due != [] {
      RemoveSpec(s.pending, due[0]);
      var s1 := MakePending(s, due[0]);
      assert due == [due[0]] + due[1..];
      TakeDuePending(Put(s1, due[0], s1.entries[due[0]].(timeKey := 0)), due[1..], id);
    }
  }

  /** Any poll an hour later, or once the awaited time has come, has the entry looked at. */
  lemma PollFindsAll(s: State, bound: nat, due: seq<Id>, id: Id)
    requires Inv(s) && Enabled(s, Poll(bound, due)) && id in s.entries && Live(s.entries[id])
    requires bound >= s.now + 3600000 || (s.entries[id].flags.timeWait && bound >= s.entries[id].actionTime)
    ensures id in Apply(s, Poll(bound, due)).pending
  {
    OnItsList(s, id);
    TakeDuePending(s, due, id);
  }

  lemma LookPops(s: State, env: Env)
    requires Inv(s) && s.pending != []
    ensures LookAtNext(s, env).pending == s.pending[1..]
  {
    PopDetaches(s);
    var s0, e := s.(pending := s.pending[1..]), s.entries[s.pending[0]];
    CommitShape(s0, s.pending[0], Settled(s.now, e, Restored(s0, e, env), env.refAllocOk), env);
  }

  function Looks(envs: seq<Env>): seq<Event> {
    if envs == [] then [] else [Look(envs[0])] + Looks(envs[1..])
  }

  // ----- loops over the pending list and over arrivals ---------------------------------------------

  /** The states in which the invariant of the cache holds. */
  ghost function Sound(): iset<State> { iset s: State | Inv(s) }

  /** The look at the head of the pending list, as a function of the cache and its environment. */
  ghost predicate IsLook(look: (State, Env) -> State) {
    forall s, env {:trigger LookAtNext(s, env)} :: Inv(s) ==> look(s, env) == LookAtNext(s, env)
  }

  lemma CacheLooks() returns (look: (State, Env) -> State)
    ensures IsLook(look)
  {
    look := (s: State, env: Env) => if Inv(s) then LookAtNext(s, env) else s;
  }

  /** The loop over the pending list: up to as many looks as the environment answers. */
  ghost function Flush(look: (State, Env) -> State, s: State, envs: seq<Env>): State
    decreases |envs|
  {
    if envs == [] || s.pending == [] then s else Flush(look, look(s, envs[0]), envs[1..])
  }

  /** The loop is a run, and it empties the list if it is allowed to: an evaluation adds nothing. */
  lemma {:induction false} FlushRuns(look: (State, Env) -> State, s: State, envs: seq<Env>)
    requires IsLook(look) && Inv(s)
    ensures CanRun(s, Looks(envs)) && Flush(look, s, envs) == Run(s, Looks(envs))
    ensures |envs| >= |s.pending| ==> Flush(look, s, envs).pending == []
    decreases |envs|
  {
    if envs != [] {
      var s1 := LookAtNext(s, envs[0]);
      ApplyKeeps(s, Look(envs[0]));
      FlushRuns(look, s1, envs[1..]);
      RunCons(s, Look(envs[0]), s1, Looks(envs[1..]));
      if s.pending != [] {
        LookPops(s, envs[0]);
      } else {
        FlushEmpty(look, s, envs[1..]);
      }
    }
  }

  lemma FlushEmpty(look: (State, Env) -> State, s: State, envs: seq<Env>)
    requires s.pending == []
    ensures Flush(look, s, envs) == s
  {
  }

  /** What the cache pulls from its egress queue: bundles to store and acknowledgements. */
  ghost predicate IsInput(ev: Event) { ev.RemoteAck? || (ev.Arrive? && BundleOk(ev.b)) }

  ghost function Taken(s: State, ev: Event): State
    requires IndicesHold(s) && IsInput(ev)
  {
    if ev.RemoteAck? then RemoteDacs(s, ev.flow, ev.seqs)
    else StoreBundle(s, ev.b, ev.allocOk, ev.offload, ev.dacs, ev.env)
  }

  lemma SoundInput(s: State, ev: Event)
    requires s in Sound() && IsInput(ev)
    ensures IndicesHold(s) && Taken(s, ev) in Sound()
  {
    ApplyKeeps(s, ev);
  }

  /** The loop over what was pulled from the queue. */
  ghost function Ingest(s: State, evs: seq<Event>): State
    requires s in Sound() && forall ev :: ev in evs ==> IsInput(ev)
    decreases |evs|
  {
    if evs == [] then s else SoundInput(s, evs[0]); Ingest(Taken(s, evs[0]), evs[1..])
  }

  lemma {:induction false} IngestRuns(s: State, evs: seq<Event>)
    requires s in Sound() && forall ev :: ev in evs ==> IsInput(ev)
    ensures CanRun(s, evs) && Ingest(s, evs) == Run(s, evs)
  {
    IngestEnds(s, evs, Ingest(s, evs));
  }

  /** The states from which these steps lead to `end`. */
  ghost function RunningTo(evs: seq<Event>, end: State): iset<State> {
    iset s: State | Inv(s) && CanRun(s, evs) && Run(s, evs) == end
  }

  lemma {:induction false} IngestEnds(s: State, evs: seq<Event>, end: State)
    requires s in Sound() && (forall ev :: ev in evs ==> IsInput(ev)) && end == Ingest(s, evs)
    ensures s in RunningTo(evs, end)
    decreases |evs|
  {
    if evs != [] {
      var s1 := IngestNext(s, evs);
      IngestEnds(s1, evs[1..], end);
      TakenRuns(s, evs, s1, end);
    }
  }

  lemma IngestNext(s: State, evs: seq<Event>) returns (s1: State)
    requires s in Sound() && (forall ev :: ev in evs ==> IsInput(ev)) && evs != []
    ensures s1 in Sound() && IndicesHold(s) && s1 == Taken(s, evs[0]) && Ingest(s, evs) == Ingest(s1, evs[1..])
  {
    SoundInput(s, evs[0]);
    s1 := Taken(s, evs[0]);
  }

  lemma TakenRuns(s: State, evs: seq<Event>, s1: State, end: State)
    requires s in Sound() && evs != [] && IsInput(evs[0]) && s1 in RunningTo(evs[1..], end)
    ensures IndicesHold(s) && s1 == Taken(s, evs[0]) ==> s in RunningTo(evs, end)
  {
    if IndicesHold(s) && s1 == Taken(s, evs[0]) {
      RunCons(s, evs[0], s1, evs[1..]);
      assert evs == [evs[0]] + evs[1..];
    }
  }

  lemma SoundTick(s: State, clock: nat)
    requires s in Sound() && clock >= s.now
    ensures s.(now := clock) in Sound()
  {
    TickKeeps(s, clock);
  }

  lemma SoundPoll(s: State, bound: nat, due: seq<Id>)
    requires s in Sound() && DueOk(s, bound, due)
    ensures TakeDue(s, due) in Sound()
  {
    TakeDueKeeps(s, due);
  }

  // ----- acknowledgements -------------------------------------------------------------------------

  /** At most one open acknowledgement per custodian and flow, with distinct numbers, fewer than the
      limit while open and never more; one that is being sent is closed. */
  lemma DacsAggregation(s: State, a: Id, b: Id)
    requires Reachable(s) && a in s.entries && b in s.entries
    ensures a in s.dacsIndex && b in s.dacsIndex
            && s.entries[a].who.custodian == s.entries[b].who.custodian
            && s.entries[a].who.acked == s.entries[b].who.acked
            ==> a == b
    ensures NoRepeats(s.entries[a].seqs) && |s.entries[a].seqs| <= 16
    ensures a in s.dacsIndex ==> |s.entries[a].seqs| < 16 && s.entries[a].state == GenerateDacs
    ensures s.entries[a].state == Queue || a in s.refs ==> a !in s.dacsIndex
  {
    ReachableInv(s);
    assert EntryOk(s.entries[a], s.now);
  }

  /** Some acknowledgement to the custodian names the bundle. */
  ghost predicate Acked(s: State, custodian: Addr, flow: Addr, seqNum: nat) {
    exists d :: d in s.entries && s.entries[d].who.custodian == custodian && s.entries[d].who.acked == flow
                && seqNum in s.entries[d].seqs
  }

  lemma AppendAcks(s: State, d: Id, seqNum: nat)
    requires DacsOk(s) && d in s.dacsIndex
    ensures Acked(AppendDacs(s, d, seqNum), s.entries[d].who.custodian, s.entries[d].who.acked, seqNum)
  {
    var s' := AppendDacs(s, d, seqNum);
    assert d in s'.entries && s'.entries[d].who == s.entries[d].who && seqNum in s'.entries[d].seqs;
  }

  lemma AcknowledgeAcks(s: State, custodian: Addr, flow: Addr, seqNum: nat, dacs: DacsEnv)
    requires DacsOk(s) && s.nextId !in s.entries && dacs.allocOk
    ensures Acked(Acknowledge(s, Some(custodian), flow, seqNum, dacs), custodian, flow, seqNum)
  {
    FindDacsIn(s, s.dacsIndex, custodian, flow);
    match FindDacs(s, s.dacsIndex, custodian, flow)
    case Some(d) => AppendAcks(s, d, seqNum);
    case None =>
      var s1 := OpenDacs(s, custodian, flow, dacs.self, dacs.seqNum, dacs.clock);
      var e := s1.entries[s.nextId];
      var s' := AppendDacs(s1, s.nextId, seqNum);
      assert s'.entries[s.nextId].who == e.who && s'.entries[s.nextId].seqs == [seqNum];
  }

  lemma AcknowledgeFrame(s: State, custodian: Option<Addr>, flow: Addr, seqNum: nat, dacs: DacsEnv)
    requires DacsOk(s)
    ensures var s' := Acknowledge(s, custodian, flow, seqNum, dacs);
      s'.bundleIndex == s.bundleIndex && s'.files == s.files
  {
    if custodian.Some? {
      FindDacsIn(s, s.dacsIndex, custodian.value, flow);
    }
  }

  lemma DuplicateHits(s: State, b: Bundle, allocOk: bool, offload: Offload, dacs: DacsEnv, env: Env, id: Id)
    requires IndicesHold(s) && BundlesOk(s) && id in s.bundleIndex
    requires s.entries[id].who.flow == b.flow && s.entries[id].who.seqNum == b.seqNum
    ensures StoreBundle(s, b, allocOk, offload, dacs, env) ==
      Acknowledge(Touch(s, id), b.custodian, b.flow, b.seqNum, dacs)
  {
    FindBundleIn(s, s.bundleIndex, b.flow, b.seqNum);
  }

  /** The stored entry was hit and, if there is a previous custodian, the bundle is acknowledged. */
  ghost predicate HitAndAcked(s: State, b: Bundle, dacs: DacsEnv, id: Id, s': State) {
    && s'.bundleIndex == s.bundleIndex && s'.files == s.files
    && id in s'.entries && s'.entries[id].lastHit == s.now && s'.entries[id].flags.activity
    && (b.custodian.Some? && dacs.allocOk ==> Acked(s', b.custodian.value, b.flow, b.seqNum))
  }

  ghost predicate Hit(s: State, id: Id, s1: State) {
    && DacsOk(s1) && BundlesOk(s1) && EntriesOk(s1) && id in s1.bundleIndex
    && s1.bundleIndex == s.bundleIndex && s1.files == s.files
    && s1.entries[id].lastHit == s.now && s1.entries[id].flags.activity
  }

  lemma TouchHits(s: State, id: Id)
    requires Inv(s) && id in s.bundleIndex
    ensures Hit(s, id, Touch(s, id))
  {
    TouchKeeps(s, id);
  }

  lemma AcknowledgeHit(s: State, b: Bundle, dacs: DacsEnv, id: Id, s1: State)
    requires Hit(s, id, s1)
    ensures HitAndAcked(s, b, dacs, id, Acknowledge(s1, b.custodian, b.flow, b.seqNum, dacs))
  {
    AcknowledgeKeeps(s1, b.custodian, b.flow, b.seqNum, dacs, id);
    AcknowledgeFrame(s1, b.custodian, b.flow, b.seqNum, dacs);
    if b.custodian.Some? && dacs.allocOk {
      AcknowledgeAcks(s1, b.custodian.value, b.flow, b.seqNum, dacs);
    }
  }

  /** A duplicate is not stored again, marks the stored entry as active, and is acknowledged. */
  lemma DuplicateArrival(s: State, b: Bundle, allocOk: bool, offload: Offload, dacs: DacsEnv, env: Env, id: Id)
    requires Inv(s) && BundleOk(b) && id in s.bundleIndex
    requires s.entries[id].who.flow == b.flow && s.entries[id].who.seqNum == b.seqNum
    ensures HitAndAcked(s, b, dacs, id, Apply(s, Arrive(b, allocOk, offload, dacs, env)))
  {
    DuplicateHits(s, b, allocOk, offload, dacs, env, id);
    TouchHits(s, id);
    AcknowledgeHit(s, b, dacs, id, Touch(s, id));
  }

  // ----- ageing out -------------------------------------------------------------------------------

  /** Metadata in the delete state is discarded only after a full holdover without a hit. */
  lemma AgeOut(s: State, ev: Event, id: Id)
    requires Inv(s) && Enabled(s, ev) && id in s.entries && s.entries[id].state == Delete
    ensures var s' := Apply(s, ev); id in s'.entries
    ensures var s' := Apply(s, ev);
      s'.entries[id].state == Delete ||
      (s'.entries[id].state == Undefined && s.now >= s.entries[id].lastHit + 5000)
  {
    if id !in Apply(s, ev).entries {
      StillThere(s, ev, id);
    }
    StepEvolves(s, ev, id);
  }

  /** Only the collector removes entries, and only discarded ones. */
  lemma StillThere(s: State, ev: Event, id: Id)
    requires Inv(s) && Enabled(s, ev) && id in s.entries && id !in s.recycle
    ensures id in Apply(s, ev).entries
  {
    match ev
    case RemoteAck(flow, seqs) => RemoteAckExact(s, flow, seqs, id);
    case Look(env) => LookEvolves(s, env, id);
    case EntryGone(x) =>
    case _ => MildEvents(s, ev);
  }
}
