/** How entries change from step to step, and what that means for whole runs. */
module CacheSafety {
  import opened CacheModel
  import opened CacheInv
  import opened CacheArrive
  import opened CacheRun

  // ----- one step -----------------------------------------------------------------------------

  /** The two ways to lose local custody: the bundle went out and nobody tracks its custody, or
      another custodian acknowledged exactly this bundle. */
  ghost predicate CustodyEnds(s: State, ev: Event, id: Id)
    requires id in s.entries
  {
    var e := s.entries[id];
    match ev
    case Look(_) => e.state == Queue && e.ref.Some? && e.ref.value.egressed && e.ref.value.policy != CustodyTracking
    case RemoteAck(flow, seqs) => e.who.flow == flow && e.who.seqNum in seqs
    case _ => false
  }

  /** What a step may do to an entry. */
  ghost predicate Evolves(now: nat, e: Entry, e': Entry) {
    && e'.who == e.who && e'.lastHit >= e.lastHit
    && (e'.flags.custody ==> e.flags.custody)
    && (e.state == Undefined ==> e'.state == Undefined)
    && (e.state == Delete ==>
      e'.state == Delete || (e'.state == Undefined && now >= e.lastHit + AGE_OUT_TIME && e'.lastHit == e.lastHit))
    && (e'.state == GenerateDacs ==> e.state == GenerateDacs)
  }

  /** The delivery policy of the bundle in memory. */
  function RefPolicy(e: Entry): Option<Policy> { if e.ref.Some? then Some(e.ref.value.policy) else None }

  /** Two entries that differ in their timer, activity, queueing and recorded egress only. */
  ghost predicate Mild(e: Entry, e': Entry) {
    && e'.who == e.who && e'.state == e.state && e'.flags.custody == e.flags.custody && e'.lastHit >= e.lastHit
    && RefPolicy(e') == RefPolicy(e)
  }

  ghost predicate SeqsKept(s: State, s': State, id: Id)
    requires id in s.entries && id in s'.entries
  {
    && s.entries[id].seqs <= s'.entries[id].seqs
    && (id !in s.dacsIndex ==> s'.entries[id].seqs == s.entries[id].seqs)
    && (id in s'.dacsIndex ==> id in s.dacsIndex)
  }

  /** What an idle entry and an open acknowledgement wait for is as before; one that left the index is full. */
  ghost predicate Steady(s: State, s': State, id: Id)
    requires id in s.entries && id in s'.entries
  {
    var e, e' := s.entries[id], s'.entries[id];
    && (e.state == Idle || id in s'.dacsIndex ==>
          e'.flags.timeWait == e.flags.timeWait && e'.actionTime == e.actionTime && e'.ref == e.ref)
    && (id in s.dacsIndex && id !in s'.dacsIndex ==> |e'.seqs| == MAX_SEQ_PER_PAYLOAD)
  }

  /** All entries are still there and changed mildly. */
  ghost predicate AllMild(s: State, s': State) {
    forall id :: id in s.entries ==>
      id in s'.entries && Mild(s.entries[id], s'.entries[id]) && SeqsKept(s, s', id) && Steady(s, s', id)
  }

  lemma AppendMild(s: State, id: Id, seqNum: nat)
    requires DacsOk(s) && id in s.dacsIndex
    ensures AllMild(s, AppendDacs(s, id, seqNum))
    ensures AppendDacs(s, id, seqNum).bundleIndex == s.bundleIndex
  {
    RemoveSpec(s.dacsIndex, id);
  }

  lemma OpenMild(s: State, custodian: Addr, flow: Addr, dacs: DacsEnv)
    requires s.nextId !in s.entries
    ensures AllMild(s, OpenDacs(s, custodian, flow, dacs.self, dacs.seqNum, dacs.clock))
  {
  }

  lemma MildChain(s: State, s1: State, s2: State)
    requires AllMild(s, s1) && AllMild(s1, s2)
    ensures AllMild(s, s2)
  {
  }

  lemma AcknowledgeMild(s: State, custodian: Option<Addr>, flow: Addr, seqNum: nat, dacs: DacsEnv)
    requires DacsOk(s) && s.nextId !in s.entries
    ensures AllMild(s, Acknowledge(s, custodian, flow, seqNum, dacs))
  {
    if custodian.Some? {
      FindDacsIn(s, s.dacsIndex, custodian.value, flow);
      match FindDacs(s, s.dacsIndex, custodian.value, flow)
      case Some(id) => AppendMild(s, id, seqNum);
      case None =>
        if dacs.allocOk {
          var s1 := OpenDacs(s, custodian.value, flow, dacs.self, dacs.seqNum, dacs.clock);
          OpenMild(s, custodian.value, flow, dacs);
          AppendMild(s1, s.nextId, seqNum);
          MildChain(s, s1, AppendDacs(s1, s.nextId, seqNum));
        }
    }
  }

  /** Evaluating an entry changes no other. */
  lemma ExecuteOthers(s: State, id: Id, env: Env, x: Id)
    requires id in s.entries && (s.entries[id].state == Queue ==> s.entries[id].ref.Some?)
    requires x in s.entries && x != id
    ensures var s' := Execute(s, id, env);
      x in s'.entries && s'.entries[x] == s.entries[x] && (x in s'.dacsIndex <==> x in s.dacsIndex)
  {
    var e' := Settled(s.now, s.entries[id], Restored(s, s.entries[id], env), env.refAllocOk);
    CommitShape(s, id, e', env);
    RemoveSpec(s.dacsIndex, id);
  }

  lemma ExecuteMild(s: State, id: Id, env: Env, s0: State)
    requires id in s.entries && (s.entries[id].state == Queue ==> s.entries[id].ref.Some?)
    requires AllMild(s0, s) && id !in s0.entries
    ensures AllMild(s0, Execute(s, id, env))
  {
    forall x | x in s0.entries
      ensures x in Execute(s, id, env).entries && Mild(s0.entries[x], Execute(s, id, env).entries[x])
      ensures SeqsKept(s0, Execute(s, id, env), x) && Steady(s0, Execute(s, id, env), x)
    {
      ExecuteOthers(s, id, env, x);
    }
  }

  lemma AddEntryMild(s: State, b: Bundle, offload: Offload)
    requires s.nextId !in s.entries
    ensures AllMild(s, AddEntry(s, b, offload))
  {
  }

  lemma StoreNewMild(s: State, b: Bundle, offload: Offload, dacs: DacsEnv, env: Env)
    requires Inv(s) && BundleOk(b) && FindBundle(s, s.bundleIndex, b.flow, b.seqNum).None?
    ensures AllMild(s, StoreNew(s, b, offload, dacs, env))
  {
    AddEntryKeeps(s, b, offload);
    AddEntryMild(s, b, offload);
    var s1 := AddEntry(s, b, offload);
    assert s.nextId in s1.bundleIndex;
    if offload.Saved? {
      AcknowledgeMild(s1, b.custodian, b.flow, b.seqNum, dacs);
      AcknowledgeKeeps(s1, b.custodian, b.flow, b.seqNum, dacs, s.nextId);
      var s2 := Acknowledge(s1, b.custodian, b.flow, b.seqNum, dacs);
      MildChain(s, s1, s2);
      ExecuteMild(s2, s.nextId, env, s);
    } else {
      ExecuteMild(s1, s.nextId, env, s);
    }
  }

  lemma ArriveMild(s: State, b: Bundle, allocOk: bool, offload: Offload, dacs: DacsEnv, env: Env)
    requires Inv(s) && BundleOk(b)
    ensures AllMild(s, StoreBundle(s, b, allocOk, offload, dacs, env))
  {
    FindBundleIn(s, s.bundleIndex, b.flow, b.seqNum);
    match FindBundle(s, s.bundleIndex, b.flow, b.seqNum)
    case Some(id) =>
      var s1 := Touch(s, id);
      TouchKeeps(s, id);
      TouchMild(s, id);
      AcknowledgeMild(s1, b.custodian, b.flow, b.seqNum, dacs);
      MildChain(s, s1, Acknowledge(s1, b.custodian, b.flow, b.seqNum, dacs));
    case None => if allocOk { StoreNewMild(s, b, offload, dacs, env); }
  }

  lemma TouchMild(s: State, id: Id)
    requires EntriesOk(s) && id in s.entries
    ensures AllMild(s, Touch(s, id))
  {
    assert EntryOk(s.entries[id], s.now);
  }

  lemma {:induction false} TakeDueMild(s: State, due: seq<Id>)
    requires forall id :: id in due ==> id in s.entries
    ensures AllMild(s, TakeDue(s, due))
    decreases |due|
  {
    if due != [] {
      var s1 := MakePending(s, due[0]);
      var s2 := Put(s1, due[0], s1.entries[due[0]].(timeKey := 0));
      TakeDueMild(s2, due[1..]);
      MildChain(s, s2, TakeDue(s2, due[1..]));
    }
  }

  // ----- acknowledgements from other custodians --------------------------------------------------

  ghost predicate Named(s: State, flow: Addr, seqs: seq<nat>, id: Id)
    requires id in s.entries
  {
    id in s.bundleIndex && s.entries[id].who.flow == flow && s.entries[id].who.seqNum in seqs
  }

  function Relieved(now: nat, e: Entry): Entry {
    e.(flags := e.flags.(activity := true, custody := false), lastHit := now)
  }

  lemma ReleasedEntry(s: State, id: Id, x: Id)
    requires id in s.entries && x in s.entries
    ensures var s' := Released(s, id);
      && x in s'.entries && s'.entries[x] == (if x == id then Relieved(s.now, s.entries[x]) else s.entries[x])
      && s'.now == s.now && s'.bundleIndex == s.bundleIndex && s'.dacsIndex == s.dacsIndex
      && id in s'.pending && (x in s.pending ==> x in s'.pending)
  {
    RemoveSpec(s.pending, id);
  }

  /** A remote acknowledgement ends custody of exactly the bundles it names, and has them looked at. */
  lemma {:induction false} RemoteAckExact(s: State, flow: Addr, seqs: seq<nat>, id: Id)
    requires Inv(s) && id in s.entries
    ensures var s' := RemoteDacs(s, flow, seqs);
      && id in s'.entries && s'.now == s.now && s'.bundleIndex == s.bundleIndex && s'.dacsIndex == s.dacsIndex
      && s'.entries[id] == (if Named(s, flow, seqs, id) then Relieved(s.now, s.entries[id]) else s.entries[id])
      && (Named(s, flow, seqs, id) || id in s.pending ==> id in s'.pending)
    decreases |seqs|
  {
    if seqs != [] {
      FindBundleIn(s, s.bundleIndex, flow, seqs[0]);
      assert seqs == [seqs[0]] + seqs[1..];
      match FindBundle(s, s.bundleIndex, flow, seqs[0])
      case None => RemoteAckExact(s, flow, seqs[1..], id);
      case Some(x) =>
        ReleasedKeeps(s, x);
        ReleasedEntry(s, x, id);
        RemoteAckExact(Released(s, x), flow, seqs[1..], id);
    }
  }

  // ----- evaluation ----------------------------------------------------------------------------

  lemma SettledEvolves(now: nat, e: Entry, restored: Option<Delivery>, ok: bool)
    requires CanSettle(now, e, restored) && PayloadOk(e)
    ensures var e' := Settled(now, e, restored, ok);
      && Evolves(now, e, e') && e'.seqs == e.seqs
      && (e.flags.custody && !e'.flags.custody ==>
            e.state == Queue && e.ref.Some? && e.ref.value.egressed && e.ref.value.policy != CustodyTracking)
  {
    SettledFollows(now, e, restored, ok);
    match e.state
    case Idle =>
    case Queue =>
    case Delete =>
    case GenerateDacs =>
    case Undefined =>
  }

  /** What a step does to an entry that survives it. */
  ghost predicate GoodStep(s: State, ev: Event, s': State, id: Id)
    requires id in s.entries && id in s'.entries
  {
    && Evolves(s.now, s.entries[id], s'.entries[id]) && SeqsKept(s, s', id)
    && (s.entries[id].flags.custody && !s'.entries[id].flags.custody ==> CustodyEnds(s, ev, id))
  }

  lemma ExecuteEvolves(s: State, id: Id, env: Env)
    requires Core(s) && id in s.entries && FlightOk(s.entries[id])
    ensures var s' := Execute(s, id, env); id in s'.entries && GoodStep(s, Look(env), s', id)
  {
    var e := s.entries[id];
    assert EntryOk(e, s.now);
    var e' := Settled(s.now, e, Restored(s, e, env), env.refAllocOk);
    SettledEvolves(s.now, e, Restored(s, e, env), env.refAllocOk);
    CommitShape(s, id, e', env);
    RemoveSpec(s.dacsIndex, id);
  }

  lemma LookEvolves(s: State, env: Env, id: Id)
    requires Inv(s) && id in s.entries
    ensures var s' := LookAtNext(s, env); id in s'.entries && GoodStep(s, Look(env), s', id)
  {
    if s.pending != [] {
      PopDetaches(s);
      var s1, x := s.(pending := s.pending[1..]), s.pending[0];
      if x == id {
        ExecuteEvolves(s1, id, env);
      } else {
        ExecuteOthers(s1, x, env, id);
      }
    }
  }

  lemma MildStep(s: State, ev: Event, s': State, id: Id)
    requires id in s.entries && id in s'.entries && Mild(s.entries[id], s'.entries[id]) && SeqsKept(s, s', id)
    ensures GoodStep(s, ev, s', id)
  {
  }

  lemma RefGoneMild(s: State, id: Id)
    requires id in s.entries
    ensures AllMild(s, DestroyRef(s, id))
  {
  }

  lemma SendMild(s: State, id: Id, clock: nat)
    requires DacsOk(s) && id in s.entries && s.entries[id].ref.Some? && s.entries[id].state == Queue
    ensures AllMild(s, Egress(s, id, clock))
  {
  }

  /** Every step: an entry keeps its identity, never regains custody, loses it only in the two ways
      above, ages out only after its holdover, and its acknowledgement payload grows only while open. */
  lemma StepEvolves(s: State, ev: Event, id: Id)
    requires Inv(s) && Enabled(s, ev) && id in s.entries && id in Apply(s, ev).entries
    ensures GoodStep(s, ev, Apply(s, ev), id)
  {
    if ev.RemoteAck? {
      RemoteAckExact(s, ev.flow, ev.seqs, id);
    } else if ev.Look? {
      LookEvolves(s, ev.env, id);
    } else {
      if ev.EntryGone? { RemoveSpec(s.dacsIndex, ev.id); } else { MildEvents(s, ev); }
      MildStep(s, ev, Apply(s, ev), id);
    }
  }

  lemma MildEvents(s: State, ev: Event)
    requires Inv(s) && Enabled(s, ev) && !ev.RemoteAck? && !ev.Look? && !ev.EntryGone?
    ensures AllMild(s, Apply(s, ev))
  {
    match ev
    case Tick(clock) =>
    case Arrive(b, allocOk, offload, dacs, env) => ArriveMild(s, b, allocOk, offload, dacs, env);
    case Poll(bound, due) => TakeDueMild(s, due);
    case Send(x, clock) =>
      InFlight(s, x);
      SendMild(s, x, clock);
    case RefGone(x) => RefGoneMild(s, x);
  }

  // ----- identifiers are never used again ---------------------------------------------------------

  /** New entries get new identifiers. */
  ghost predicate KeysGrow(s: State, s': State) {
    s.nextId <= s'.nextId && forall id :: id in s'.entries ==> id in s.entries || id >= s.nextId
  }

  lemma AcknowledgeKeys(s: State, custodian: Option<Addr>, flow: Addr, seqNum: nat, dacs: DacsEnv)
    requires DacsOk(s)
    ensures KeysGrow(s, Acknowledge(s, custodian, flow, seqNum, dacs))
  {
    if custodian.Some? {
      FindDacsIn(s, s.dacsIndex, custodian.value, flow);
    }
  }

  lemma ExecuteKeys(s: State, id: Id, env: Env)
    requires id in s.entries && (s.entries[id].state == Queue ==> s.entries[id].ref.Some?)
    ensures Execute(s, id, env).nextId == s.nextId && Execute(s, id, env).entries.Keys == s.entries.Keys
  {
    CommitShape(s, id, Settled(s.now, s.entries[id], Restored(s, s.entries[id], env), env.refAllocOk), env);
  }

  lemma StoreNewKeys(s: State, b: Bundle, offload: Offload, dacs: DacsEnv, env: Env)
    requires Inv(s) && BundleOk(b) && FindBundle(s, s.bundleIndex, b.flow, b.seqNum).None?
    ensures KeysGrow(s, StoreNew(s, b, offload, dacs, env))
  {
    AddEntryKeeps(s, b, offload);
    var s1 := AddEntry(s, b, offload);
    assert s.nextId in s1.bundleIndex;
    AcknowledgeKeys(s1, b.custodian, b.flow, b.seqNum, dacs);
    AcknowledgeKeeps(s1, b.custodian, b.flow, b.seqNum, dacs, s.nextId);
    ExecuteKeys(if offload.Saved? then Acknowledge(s1, b.custodian, b.flow, b.seqNum, dacs) else s1, s.nextId, env);
  }

  lemma {:induction false} RemoteDacsKeys(s: State, flow: Addr, seqs: seq<nat>)
    requires Inv(s)
    ensures KeysGrow(s, RemoteDacs(s, flow, seqs))
    decreases |seqs|
  {
    if seqs != [] {
      FindBundleIn(s, s.bundleIndex, flow, seqs[0]);
      match FindBundle(s, s.bundleIndex, flow, seqs[0])
      case None => RemoteDacsKeys(s, flow, seqs[1..]);
      case Some(id) =>
        ReleasedKeeps(s, id);
        RemoteDacsKeys(Released(s, id), flow, seqs[1..]);
    }
  }

  lemma {:induction false} TakeDueKeys(s: State, due: seq<Id>)
    requires forall id :: id in due ==> id in s.entries
    ensures KeysGrow(s, TakeDue(s, due))
    decreases |due|
  {
    if due != [] {
      var s1 := MakePending(s, due[0]);
      TakeDueKeys(Put(s1, due[0], s1.entries[due[0]].(timeKey := 0)), due[1..]);
    }
  }

  lemma StepKeys(s: State, ev: Event)
    requires Inv(s) && Enabled(s, ev)
    ensures KeysGrow(s, Apply(s, ev))
  {
    match ev
    case Tick(clock) =>
    case Arrive(b, allocOk, offload, dacs, env) =>
      FindBundleIn(s, s.bundleIndex, b.flow, b.seqNum);
      match FindBundle(s, s.bundleIndex, b.flow, b.seqNum) {
        case Some(id) =>
          TouchKeeps(s, id);
          AcknowledgeKeys(Touch(s, id), b.custodian, b.flow, b.seqNum, dacs);
        case None => if allocOk { StoreNewKeys(s, b, offload, dacs, env); }
      }
    case RemoteAck(flow, seqs) => RemoteDacsKeys(s, flow, seqs);
    case Poll(bound, due) => TakeDueKeys(s, due);
    case Look(env) =>
      if s.pending != [] {
        PopDetaches(s);
        ExecuteKeys(s.(pending := s.pending[1..]), s.pending[0], env);
      }
    case Send(id, clock) => InFlight(s, id);
    case RefGone(id) =>
    case EntryGone(id) =>
  }

  lemma {:induction false} GoneForever(s: State, evs: seq<Event>, id: Id)
    requires Inv(s) && CanRun(s, evs) && id < s.nextId && id !in s.entries
    ensures id !in Run(s, evs).entries
    decreases |evs|
  {
    if evs != [] {
      ApplyKeeps(s, evs[0]);
      StepKeys(s, evs[0]);
      GoneForever(Apply(s, evs[0]), evs[1..], id);
    }
  }

  // ----- whole runs ------------------------------------------------------------------------------

  /** Some step of the run ends custody of the entry, in one of the two ways. */
  ghost predicate CustodyEndsIn(s: State, evs: seq<Event>, id: Id)
    requires Inv(s) && CanRun(s, evs)
    decreases |evs|
  {
    evs != [] && id in s.entries &&
    (CustodyEnds(s, evs[0], id) || (ApplyKeeps(s, evs[0]); CustodyEndsIn(Apply(s, evs[0]), evs[1..], id)))
  }

  /** Custody never just goes away: if an entry had it and lost it, the run has a step that sent the
      bundle without custody tracking, or an acknowledgement that names it. */
  lemma {:induction false} CustodyOverRun(s: State, evs: seq<Event>, id: Id)
    requires Inv(s) && CanRun(s, evs) && id in s.entries && id in Run(s, evs).entries
    requires s.entries[id].flags.custody && !Run(s, evs).entries[id].flags.custody
    ensures CustodyEndsIn(s, evs, id)
    decreases |evs|
  {
    ApplyKeeps(s, evs[0]);
    var s1 := Apply(s, evs[0]);
    if id !in s1.entries {
      StepKeys(s, evs[0]);
      assert EntriesOk(s);
      GoneForever(s1, evs[1..], id);
    } else {
      StepEvolves(s, evs[0], id);
      if s1.entries[id].flags.custody {
        CustodyOverRun(s1, evs[1..], id);
      }
    }
  }

  /** Once closed, an acknowledgement never changes and is never opened again. */
  lemma {:induction false} FrozenOverRun(s: State, evs: seq<Event>, id: Id)
    requires Inv(s) && CanRun(s, evs) && id in s.entries && id !in s.dacsIndex && id in Run(s, evs).entries
    ensures var s' := Run(s, evs); s'.entries[id].seqs == s.entries[id].seqs && id !in s'.dacsIndex
    decreases |evs|
  {
    if evs != [] {
      ApplyKeeps(s, evs[0]);
      var s1 := Apply(s, evs[0]);
      if id !in s1.entries {
        StepKeys(s, evs[0]);
        assert EntriesOk(s);
        GoneForever(s1, evs[1..], id);
      } else {
        StepEvolves(s, evs[0], id);
        FrozenOverRun(s1, evs[1..], id);
      }
    }
  }
}
