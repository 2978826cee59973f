/** When custody of a bundle ends only by an acknowledgement, by what the bundle and the store say on arrival. */
module CacheCustody {
  import opened CacheModel
  import opened CacheInv
  import opened CacheArrive
  import opened CacheRun
  import opened CacheSafety
  import opened CacheLoss
  import opened CacheProgress

  // ----- files keep what is in them -----------------------------------------------------------------

  /** A file that was there and is there is the same, and none appears under an identifier that was used up. */
  ghost predicate FilesKept(s: State, s': State) {
    && s.lastSid <= s'.lastSid
    && forall sid :: sid <= s.lastSid && sid in s'.files ==> sid in s.files && s'.files[sid] == s.files[sid]
  }

  lemma AcknowledgeFiles(s: State, custodian: Option<Addr>, flow: Addr, seqNum: nat, dacs: DacsEnv)
    requires DacsOk(s)
    ensures var s' := Acknowledge(s, custodian, flow, seqNum, dacs); s'.files == s.files && s'.lastSid == s.lastSid
  {
    if custodian.Some? {
      FindDacsIn(s, s.dacsIndex, custodian.value, flow);
    }
  }

  lemma ExecuteFiles(s: State, id: Id, env: Env)
    requires id in s.entries && FlightOk(s.entries[id])
    ensures FilesKept(s, Execute(s, id, env))
  {
    var e := s.entries[id];
    CommitShape(s, id, Settled(s.now, e, Restored(s, e, env), env.refAllocOk), env);
  }

  lemma StoreNewFiles(s: State, b: Bundle, offload: Offload, dacs: DacsEnv, env: Env)
    requires Inv(s) && BundleOk(b) && FindBundle(s, s.bundleIndex, b.flow, b.seqNum).None?
    ensures FilesKept(s, StoreNew(s, b, offload, dacs, env))
    ensures FilesKept(AddEntry(s, b, offload), StoreNew(s, b, offload, dacs, env))
  {
    AddEntryKeeps(s, b, offload);
    AddedFiles(s, b, offload, dacs, env, AddEntry(s, b, offload));
    AddEntryFiles(s, b, offload);
    FilesChain(s, AddEntry(s, b, offload), StoreNew(s, b, offload, dacs, env));
  }

  lemma AddEntryFiles(s: State, b: Bundle, offload: Offload)
    ensures FilesKept(s, AddEntry(s, b, offload))
  {
  }

  lemma AddedFiles(s: State, b: Bundle, offload: Offload, dacs: DacsEnv, env: Env, s1: State)
    requires IndicesHold(s) && s1 == AddEntry(s, b, offload) && DacsOk(s1) && BundlesOk(s1) && EntriesOk(s1)
    ensures FilesKept(s1, StoreNew(s, b, offload, dacs, env))
  {
    assert s.nextId in s1.bundleIndex;
    assert EntryOk(s1.entries[s.nextId], s1.now);
    AcknowledgeFiles(s1, b.custodian, b.flow, b.seqNum, dacs);
    AcknowledgeKeeps(s1, b.custodian, b.flow, b.seqNum, dacs, s.nextId);
    ExecuteFiles(if offload.Saved? then Acknowledge(s1, b.custodian, b.flow, b.seqNum, dacs) else s1, s.nextId, env);
  }

  lemma FilesChain(s: State, s1: State, s2: State)
    ensures FilesKept(s, s1) && FilesKept(s1, s2) ==> FilesKept(s, s2)
  {
  }

  lemma ArriveFiles(s: State, b: Bundle, allocOk: bool, offload: Offload, dacs: DacsEnv, env: Env)
    requires Inv(s) && BundleOk(b)
    ensures FilesKept(s, StoreBundle(s, b, allocOk, offload, dacs, env))
  {
    FindBundleIn(s, s.bundleIndex, b.flow, b.seqNum);
    match FindBundle(s, s.bundleIndex, b.flow, b.seqNum)
    case Some(id) =>
      TouchKeeps(s, id);
      AcknowledgeFiles(Touch(s, id), b.custodian, b.flow, b.seqNum, dacs);
    case None => if allocOk { StoreNewFiles(s, b, offload, dacs, env); }
  }

  lemma {:induction false} RemoteFiles(s: State, flow: Addr, seqs: seq<nat>)
    requires Inv(s)
    ensures var s' := RemoteDacs(s, flow, seqs); s'.files == s.files && s'.lastSid == s.lastSid
    decreases |seqs|
  {
    if seqs != [] {
      FindBundleIn(s, s.bundleIndex, flow, seqs[0]);
      match FindBundle(s, s.bundleIndex, flow, seqs[0])
      case None => RemoteFiles(s, flow, seqs[1..]);
      case Some(id) =>
        ReleasedKeeps(s, id);
        RemoteFiles(Released(s, id), flow, seqs[1..]);
    }
  }

  lemma {:induction false} TakeDueFiles(s: State, due: seq<Id>)
    requires forall id :: id in due ==> id in s.entries
    ensures var s' := TakeDue(s, due); s'.files == s.files && s'.lastSid == s.lastSid
    decreases |due|
  {
    if due != [] {
      var s1 := MakePending(s, due[0]);
      TakeDueFiles(Put(s1, due[0], s1.entries[due[0]].(timeKey := 0)), due[1..]);
    }
  }

  lemma StepFiles(s: State, ev: Event)
    requires Inv(s) && Enabled(s, ev)
    ensures FilesKept(s, Apply(s, ev))
  {
    match ev
    case Arrive(b, allocOk, offload, dacs, env) => ArriveFiles(s, b, allocOk, offload, dacs, env);
    case RemoteAck(flow, seqs) => RemoteFiles(s, flow, seqs);
    case Poll(bound, due) => TakeDueFiles(s, due);
    case Look(env) =>
      if s.pending != [] {
        PopDetaches(s);
        ExecuteFiles(s.(pending := s.pending[1..]), s.pending[0], env);
      }
    case Send(id, clock) => InFlight(s, id);
    case _ =>
  }

  // ----- tracked custody ------------------------------------------------------------------------------

  /** Wherever the bundle is, it asks for custody tracking. */
  ghost predicate Tracks(s: State, id: Id)
    requires id in s.entries
  {
    var e := s.entries[id];
    && (e.ref.Some? ==> e.ref.value.policy == CustodyTracking)
    && (e.who.sid in s.files ==> s.files[e.who.sid].policy == CustodyTracking)
  }

  /** The entry is in custody of such a bundle, and alive until that expires. */
  ghost predicate Kept(s: State, id: Id, who: Identity) {
    && id < s.nextId
    && (id in s.entries ==> s.entries[id].who == who && s.entries[id].flags.custody && Tracks(s, id))
    && (s.now < who.expireTime ==> id in s.entries && Live(s.entries[id]))
  }

  /** The event is an acknowledgement that names the bundle. */
  predicate Names(ev: Event, flow: Addr, seqNum: nat) { ev.RemoteAck? && ev.flow == flow && seqNum in ev.seqs }

  ghost predicate CanKeep(e: Entry, restored: Option<Delivery>) {
    && FlightOk(e) && CustodyOk(e) && e.flags.custody
    && (e.ref.Some? ==> e.ref.value.policy == CustodyTracking)
    && (restored.Some? ==> restored.value.policy == CustodyTracking)
  }

  ghost predicate KeepsOn(now: nat, e: Entry, e': Entry) {
    && e'.flags.custody && e'.who == e.who && (e'.ref.Some? ==> e'.ref.value.policy == CustodyTracking)
    && (Live(e) && now < e.who.expireTime ==> Live(e'))
  }

  lemma IdleKept(now: nat, e: Entry, restored: Option<Delivery>, ok: bool)
    requires CanKeep(e, restored) && e.state == Idle
    ensures KeepsOn(now, e, Settled(now, e, restored, ok))
  {
  }

  lemma QueueKept(now: nat, e: Entry, restored: Option<Delivery>, ok: bool)
    requires CanKeep(e, restored) && e.state == Queue
    ensures KeepsOn(now, e, Settled(now, e, restored, ok))
  {
  }

  lemma SettledKept(now: nat, e: Entry, restored: Option<Delivery>, ok: bool)
    requires CanKeep(e, restored)
    ensures KeepsOn(now, e, Settled(now, e, restored, ok))
  {
    match e.state
    case Idle => IdleKept(now, e, restored, ok);
    case Queue => QueueKept(now, e, restored, ok);
    case GenerateDacs =>
    case Delete =>
    case Undefined =>
  }

  lemma LookKept(s: State, env: Env, id: Id, who: Identity)
    requires Inv(s) && Kept(s, id, who)
    ensures Kept(LookAtNext(s, env), id, who)
  {
    StepFiles(s, Look(env));
    ClockRuns(s, Look(env));
    StepKeys(s, Look(env));
    if s.pending != [] && s.pending[0] == id {
      SelfKept(s, env, id);
    } else if id in s.entries {
      LookAtOther(s, env, id);
    }
  }

  lemma SelfKept(s: State, env: Env, id: Id)
    requires Inv(s) && s.pending != [] && s.pending[0] == id
    ensures id in s.entries
    ensures s.entries[id].flags.custody && Tracks(s, id) ==>
      var s' := LookAtNext(s, env);
      id in s'.entries && KeepsOn(s.now, s.entries[id], s'.entries[id])
  {
    PopDetaches(s);
    var s0, e := s.(pending := s.pending[1..]), s.entries[id];
    assert EntryOk(e, s.now);
    if e.flags.custody && Tracks(s, id) {
      SettledKept(s.now, e, Restored(s0, e, env), env.refAllocOk);
      CommitShape(s0, id, Settled(s.now, e, Restored(s0, e, env), env.refAllocOk), env);
    }
  }

  lemma MildKept(s: State, s': State, id: Id, who: Identity)
    requires EntriesOk(s) && SidsOk(s) && Kept(s, id, who) && AllMild(s, s') && FilesKept(s, s') && KeysGrow(s, s')
    requires s'.now >= s.now
    ensures Kept(s', id, who)
  {
  }

  lemma RemoteKept(s: State, flow: Addr, seqs: seq<nat>, id: Id, who: Identity)
    requires Inv(s) && Kept(s, id, who) && !(who.flow == flow && who.seqNum in seqs)
    ensures Kept(RemoteDacs(s, flow, seqs), id, who)
  {
    RemoteFiles(s, flow, seqs);
    RemoteDacsKeys(s, flow, seqs);
    RemoteClock(s, flow, seqs);
    if id in s.entries {
      RemoteAckExact(s, flow, seqs, id);
    }
  }

  /** A step that does not name the bundle does not end custody of it, nor its life before it expires. */
  lemma StepKept(s: State, ev: Event, id: Id, who: Identity)
    requires Inv(s) && Enabled(s, ev) && Kept(s, id, who) && !Names(ev, who.flow, who.seqNum)
    ensures Kept(Apply(s, ev), id, who)
  {
    match ev
    case Look(env) => LookKept(s, env, id, who);
    case RemoteAck(flow, seqs) => RemoteKept(s, flow, seqs, id, who);
    case EntryGone(x) =>
      assert x in s.entries by { assert x in Lists(s) + multiset{}; }
    case _ =>
      MildEvents(s, ev);
      StepFiles(s, ev);
      StepKeys(s, ev);
      ClockRuns(s, ev);
      MildKept(s, Apply(s, ev), id, who);
  }

  // ----- whole runs -----------------------------------------------------------------------------------

  /** Some acknowledgement of the run names the bundle. */
  ghost predicate NamedIn(evs: seq<Event>, flow: Addr, seqNum: nat) {
    exists i :: 0 <= i < |evs| && Names(evs[i], flow, seqNum)
  }

  lemma NamedNext(evs: seq<Event>, flow: Addr, seqNum: nat)
    requires evs != []
    ensures Names(evs[0], flow, seqNum) || NamedIn(evs[1..], flow, seqNum) ==> NamedIn(evs, flow, seqNum)
  {
    assert forall i :: 0 <= i < |evs[1..]| ==> evs[1..][i] == evs[i + 1];
  }

  lemma ClockRuns(s: State, ev: Event)
    requires Inv(s) && Enabled(s, ev)
    ensures Apply(s, ev).now >= s.now
  {
    match ev
    case Arrive(b, allocOk, offload, dacs, env) => ArriveClock(s, b, allocOk, offload, dacs, env);
    case RemoteAck(flow, seqs) => RemoteClock(s, flow, seqs);
    case Poll(bound, due) => DueClock(s, due);
    case Look(env) =>
      if s.pending != [] {
        PopDetaches(s);
        var s0, e := s.(pending := s.pending[1..]), s.entries[s.pending[0]];
        CommitShape(s0, s.pending[0], Settled(s.now, e, Restored(s0, e, env), env.refAllocOk), env);
      }
    case Send(id, clock) => InFlight(s, id);
    case _ =>
  }

  lemma ArriveClock(s: State, b: Bundle, allocOk: bool, offload: Offload, dacs: DacsEnv, env: Env)
    requires Inv(s) && BundleOk(b)
    ensures StoreBundle(s, b, allocOk, offload, dacs, env).now == s.now
  {
    FindBundleIn(s, s.bundleIndex, b.flow, b.seqNum);
    match FindBundle(s, s.bundleIndex, b.flow, b.seqNum)
    case Some(id) =>
      TouchKeeps(s, id);
      AcknowledgeNow(Touch(s, id), b.custodian, b.flow, b.seqNum, dacs);
    case None =>
      if allocOk {
        AddEntryKeeps(s, b, offload);
        var s1 := AddEntry(s, b, offload);
        assert s.nextId in s1.bundleIndex;
        AcknowledgeNow(s1, b.custodian, b.flow, b.seqNum, dacs);
        AcknowledgeKeeps(s1, b.custodian, b.flow, b.seqNum, dacs, s.nextId);
        var s2 := if offload.Saved? then Acknowledge(s1, b.custodian, b.flow, b.seqNum, dacs) else s1;
        var e := s2.entries[s.nextId];
        CommitShape(s2, s.nextId, Settled(s2.now, e, Restored(s2, e, env), env.refAllocOk), env);
      }
  }

  lemma {:induction false} RemoteClock(s: State, flow: Addr, seqs: seq<nat>)
    requires Inv(s)
    ensures RemoteDacs(s, flow, seqs).now == s.now
    decreases |seqs|
  {
    if seqs != [] {
      FindBundleIn(s, s.bundleIndex, flow, seqs[0]);
      match FindBundle(s, s.bundleIndex, flow, seqs[0])
      case None => RemoteClock(s, flow, seqs[1..]);
      case Some(id) =>
        ReleasedKeeps(s, id);
        RemoteClock(Released(s, id), flow, seqs[1..]);
    }
  }

  lemma {:induction false} DueClock(s: State, due: seq<Id>)
    requires forall id :: id in due ==> id in s.entries
    ensures TakeDue(s, due).now == s.now
    decreases |due|
  {
    if due != [] {
      var s1 := MakePending(s, due[0]);
      DueClock(Put(s1, due[0], s1.entries[due[0]].(timeKey := 0)), due[1..]);
    }
  }

  lemma {:induction false} ClockOverRun(s: State, evs: seq<Event>)
    requires Inv(s) && CanRun(s, evs)
    ensures Run(s, evs).now >= s.now
    decreases |evs|
  {
    if evs != [] {
      ApplyKeeps(s, evs[0]);
      ClockRuns(s, evs[0]);
      ClockOverRun(Apply(s, evs[0]), evs[1..]);
    }
  }

  /** Over any run without an acknowledgement that names it, a tracked bundle stays in custody until it expires. */
  lemma {:induction false} KeptOverRun(s: State, evs: seq<Event>, id: Id, who: Identity)
    requires Inv(s) && CanRun(s, evs) && Kept(s, id, who) && !NamedIn(evs, who.flow, who.seqNum)
    ensures Kept(Run(s, evs), id, who)
    decreases |evs|
  {
    if evs != [] {
      NamedNext(evs, who.flow, who.seqNum);
      ApplyKeeps(s, evs[0]);
      StepKept(s, evs[0], id, who);
      KeptOverRun(Apply(s, evs[0]), evs[1..], id, who);
    }
  }

  // ----- from the arrival on ----------------------------------------------------------------------------

  /** A bundle that asks for custody tracking keeps it, unless it is for this node and a store takes it, or its
      file is left without the record that says so. */
  predicate StaysTracked(b: Bundle, offload: Offload) {
    b.delivery.policy == CustodyTracking && (offload.NotConfigured? || (!b.destinedHere && !offload.Torn?))
  }

  lemma StoredKept(s: State, b: Bundle, offload: Offload, dacs: DacsEnv, env: Env)
    requires Inv(s) && Fresh(s, b) && StaysTracked(b, offload)
    ensures Kept(Stored(s, b, offload, dacs, env), s.nextId, NewEntry(s, b, offload).who)
  {
    var s' := StoredFacts(s, b, offload, dacs, env);
    FirstTracks(s, b, offload, s', env.refAllocOk);
  }

  lemma StoredFacts(s: State, b: Bundle, offload: Offload, dacs: DacsEnv, env: Env) returns (s': State)
    requires Inv(s) && Fresh(s, b)
    ensures s' == Stored(s, b, offload, dacs, env) && s'.now == s.now
    ensures FilesKept(AddEntry(s, b, offload), s') && EntriesOk(s') && FilesOk(s')
    ensures s.nextId in s'.entries && Launched(s.now, NewEntry(s, b, offload), s'.entries[s.nextId], env.refAllocOk)
  {
    s' := Stored(s, b, offload, dacs, env);
    StoredEntry(s, b, offload, dacs, env);
    StoreNewFiles(s, b, offload, dacs, env);
    StoredByArrival(s, b, offload, dacs, env);
    ArriveClock(s, b, true, offload, dacs, env);
  }

  lemma FirstTracks(s: State, b: Bundle, offload: Offload, s': State, ok: bool)
    requires b.isRef && StaysTracked(b, offload) && s'.now == s.now && EntriesOk(s') && FilesOk(s')
    requires s.nextId in s'.entries && Launched(s.now, NewEntry(s, b, offload), s'.entries[s.nextId], ok)
    requires FilesKept(AddEntry(s, b, offload), s')
    requires s.lastSid + 1 !in s.files
    ensures Kept(s', s.nextId, NewEntry(s, b, offload).who)
  {
    match offload
    case NotConfigured =>
    case Failed =>
    case Torn =>
    case Saved =>
  }
}
