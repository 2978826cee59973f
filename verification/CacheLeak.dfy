/** Which files of the store are never removed. */
module CacheLeak {
  import opened CacheModel
  import opened CacheInv
  import opened CacheArrive
  import opened CacheRun
  import opened CacheSafety

  /** There is a file, and whatever entry it belongs to has been discarded. */
  ghost predicate Orphan(s: State, sid: nat) {
    sid in s.files && forall id :: id in s.entries && s.entries[id].who.sid == sid ==> s.entries[id].state == Undefined
  }

  /** The steps that orphan a file: an evaluation that finds a stored bundle expired in the idle state, and the
      arrival of an expired bundle that is written, in whole or in part. */
  ghost predicate LeakStep(s: State, ev: Event, sid: nat)
    requires Inv(s)
  {
    match ev
    case Look(_) =>
      && s.pending != [] && s.pending[0] in s.entries
      && var e := s.entries[s.pending[0]];
         e.who.sid == sid && sid in s.files && e.state == Idle && s.now >= e.who.expireTime
    case Arrive(b, allocOk, offload, _, _) =>
      && FindBundle(s, s.bundleIndex, b.flow, b.seqNum).None? && allocOk && (offload.Saved? || offload.Torn?)
      && sid == s.lastSid + 1 && s.now >= b.expireTime
    case _ => false
  }

  // ----- steps that leave files and states alone ---------------------------------------------------------

  /** The same files, and the same entries as far as they matter here; entries without a file may be added. */
  ghost predicate SameFiles(s: State, s': State) {
    && s'.files == s.files
    && (forall id :: id in s.entries ==>
          id in s'.entries && s'.entries[id].who == s.entries[id].who && s'.entries[id].state == s.entries[id].state)
    && (forall id :: id in s'.entries && id !in s.entries ==> s'.entries[id].who.sid == 0)
  }

  lemma SameOrphans(s: State, s': State, sid: nat)
    requires SameFiles(s, s') && StoreOk(s)
    ensures Orphan(s', sid) <==> Orphan(s, sid)
  {
  }

  lemma AcknowledgeSame(s: State, custodian: Option<Addr>, flow: Addr, seqNum: nat, dacs: DacsEnv)
    requires DacsOk(s) && s.nextId !in s.entries
    ensures SameFiles(s, Acknowledge(s, custodian, flow, seqNum, dacs))
  {
    if custodian.Some? {
      FindDacsIn(s, s.dacsIndex, custodian.value, flow);
    }
  }

  lemma {:induction false} RemoteSame(s: State, flow: Addr, seqs: seq<nat>)
    requires Inv(s)
    ensures SameFiles(s, RemoteDacs(s, flow, seqs))
    decreases |seqs|
  {
    if seqs != [] {
      FindBundleIn(s, s.bundleIndex, flow, seqs[0]);
      match FindBundle(s, s.bundleIndex, flow, seqs[0])
      case None => RemoteSame(s, flow, seqs[1..]);
      case Some(id) =>
        ReleasedKeeps(s, id);
        ReleasedSame(s, id);
        RemoteSame(Released(s, id), flow, seqs[1..]);
        SameChain(s, Released(s, id), RemoteDacs(Released(s, id), flow, seqs[1..]));
    }
  }

  lemma ReleasedSame(s: State, id: Id)
    requires id in s.entries
    ensures SameFiles(s, Released(s, id))
  {
  }

  lemma {:induction false} TakeDueSame(s: State, due: seq<Id>)
    requires forall id :: id in due ==> id in s.entries
    ensures SameFiles(s, TakeDue(s, due))
    decreases |due|
  {
    if due != [] {
      var s1 := MakePending(s, due[0]);
      TakeDueSame(Put(s1, due[0], s1.entries[due[0]].(timeKey := 0)), due[1..]);
    }
  }

  // ----- evaluation ------------------------------------------------------------------------------------

  /** When an evaluation discards an entry, and when it lets its file go. */
  lemma SettledEnds(now: nat, e: Entry, restored: Option<Delivery>, ok: bool)
    requires FlightOk(e)
    ensures Settled(now, e, restored, ok).who == e.who
    ensures e.state != Delete ==>
      var e' := Settled(now, e, restored, ok);
      && (e'.state == Undefined <==> e.state == Undefined || (e.state == Idle && now >= e.who.expireTime))
      && (e'.state == Delete ==> e.state == Idle && !e.flags.custody)
  {
    EvaluatedKeeps(now, e, restored, ok);
  }

  lemma LookLeaks(s: State, env: Env, sid: nat)
    requires Inv(s)
    ensures Orphan(LookAtNext(s, env), sid) <==> Orphan(s, sid) || LeakStep(s, Look(env), sid)
  {
    if s.pending != [] {
      PopDetaches(s);
      var id, s0 := s.pending[0], s.(pending := s.pending[1..]);
      var e := s.entries[id];
      var e1 := Settled(s.now, e, Restored(s0, e, env), env.refAllocOk);
      CommitShape(s0, id, e1, env);
      SettledEnds(s.now, e, Restored(s0, e, env), env.refAllocOk);
      CommittedLeaks(s0, id, e1, env, Execute(s0, id, env), sid);
    }
  }

  /** The file of an entry that is discarded without being held over is orphaned. */
  lemma CommittedLeaks(s: State, id: Id, e: Entry, env: Env, s': State, sid: nat)
    requires StoreOk(s) && id in s.entries && Committed(s, id, e, env, s') && e.who == s.entries[id].who
    requires s.entries[id].state == Undefined ==> e.state == Undefined
    ensures Orphan(s', sid) <==>
      Orphan(s, sid) || (sid in s.files && e.who.sid == sid && s.entries[id].state != Delete && e.state == Undefined)
  {
    assert forall x :: x in s.entries && x != id ==> s'.entries[x] == s.entries[x];
    assert s'.entries[id].who == e.who && s'.entries[id].state == e.state;
    assert s'.entries.Keys == s.entries.Keys;
  }

  // ----- arrivals ----------------------------------------------------------------------------------------

  /** A new entry is discarded at once exactly if it has expired, and is not held over. */
  lemma FirstLook(s: State, id: Id, env: Env)
    requires id in s.entries && FlightOk(s.entries[id]) && s.entries[id].state == Idle && s.entries[id].flags.custody
    ensures var s', e := Execute(s, id, env), s.entries[id];
      && s'.files == s.files && s'.entries.Keys == s.entries.Keys && s'.entries[id].who == e.who
      && (s'.entries[id].state == Undefined <==> s.now >= e.who.expireTime)
      && forall x :: x in s.entries && x != id ==> s'.entries[x] == s.entries[x]
  {
    var e := s.entries[id];
    CommitShape(s, id, Settled(s.now, e, Restored(s, e, env), env.refAllocOk), env);
    SettledEnds(s.now, e, Restored(s, e, env), env.refAllocOk);
  }

  /** `s'` is `s` with the entry `e`, whose file is `file`, if any, and entries without a file. */
  ghost predicate WithNew(s: State, e: Entry, written: bool, s': State) {
    && (forall sid :: sid in s'.files <==> sid in s.files || (written && sid == s.lastSid + 1))
    && s.nextId in s'.entries && s'.entries[s.nextId].who.sid == e.who.sid
    && (s'.entries[s.nextId].state == Undefined <==> s.now >= e.who.expireTime)
    && (forall id :: id in s.entries ==>
          id in s'.entries && s'.entries[id].who == s.entries[id].who && s'.entries[id].state == s.entries[id].state)
    && (forall id :: id in s'.entries && id !in s.entries && id != s.nextId ==> s'.entries[id].who.sid == 0)
  }

  lemma NewOrphans(s: State, e: Entry, written: bool, s': State, sid: nat)
    requires EntriesOk(s) && StoreOk(s) && WithNew(s, e, written, s')
    requires e.who.sid == 0 || e.who.sid == s.lastSid + 1
    requires written ==> e.who.sid == s.lastSid + 1
    ensures Orphan(s', sid) <==> Orphan(s, sid) || (written && sid == s.lastSid + 1 && s.now >= e.who.expireTime)
  {
    assert s.nextId !in s.entries;
  }

  lemma StoreNewWith(s: State, b: Bundle, offload: Offload, dacs: DacsEnv, env: Env)
    requires Inv(s) && BundleOk(b) && FindBundle(s, s.bundleIndex, b.flow, b.seqNum).None?
    ensures WithNew(s, NewEntry(s, b, offload), offload.Saved? || offload.Torn?, StoreNew(s, b, offload, dacs, env))
  {
    AddEntryKeeps(s, b, offload);
    var s1 := AddEntry(s, b, offload);
    assert s.nextId in s1.bundleIndex;
    assert EntryOk(s1.entries[s.nextId], s1.now);
    AcknowledgeNow(s1, b.custodian, b.flow, b.seqNum, dacs);
    AcknowledgeSame(s1, b.custodian, b.flow, b.seqNum, dacs);
    AcknowledgeKeeps(s1, b.custodian, b.flow, b.seqNum, dacs, s.nextId);
    var s2 := if offload.Saved? then Acknowledge(s1, b.custodian, b.flow, b.seqNum, dacs) else s1;
    FirstLook(s2, s.nextId, env);
    AddedWith(s, b, offload, s2, StoreNew(s, b, offload, dacs, env));
  }

  lemma AddedWith(s: State, b: Bundle, offload: Offload, s2: State, s': State)
    requires s.nextId !in s.entries && SameFiles(AddEntry(s, b, offload), s2) && s'.files == s2.files
    requires s2.entries.Keys == s'.entries.Keys && s.nextId in s'.entries
    requires s'.entries[s.nextId].who == s2.entries[s.nextId].who
    requires s'.entries[s.nextId].state == Undefined <==> s.now >= b.expireTime
    requires forall x :: x in s2.entries && x != s.nextId ==> s'.entries[x] == s2.entries[x]
    ensures WithNew(s, NewEntry(s, b, offload), offload.Saved? || offload.Torn?, s')
  {
  }

  lemma ArriveLeaks(s: State, b: Bundle, allocOk: bool, offload: Offload, dacs: DacsEnv, env: Env, sid: nat)
    requires Inv(s) && BundleOk(b)
    ensures Orphan(StoreBundle(s, b, allocOk, offload, dacs, env), sid) <==>
      Orphan(s, sid) || LeakStep(s, Arrive(b, allocOk, offload, dacs, env), sid)
  {
    FindBundleIn(s, s.bundleIndex, b.flow, b.seqNum);
    match FindBundle(s, s.bundleIndex, b.flow, b.seqNum)
    case Some(id) =>
      TouchKeeps(s, id);
      DuplicateSame(s, id, b, dacs);
      SameOrphans(s, StoreBundle(s, b, allocOk, offload, dacs, env), sid);
    case None =>
      if allocOk {
        StoreNewWith(s, b, offload, dacs, env);
        var s', written := StoreNew(s, b, offload, dacs, env), offload.Saved? || offload.Torn?;
        NewOrphans(s, NewEntry(s, b, offload), written, s', sid);
      }
  }

  lemma DuplicateSame(s: State, id: Id, b: Bundle, dacs: DacsEnv)
    requires id in s.entries && s.nextId !in s.entries && DacsOk(Touch(s, id))
    ensures SameFiles(s, Acknowledge(Touch(s, id), b.custodian, b.flow, b.seqNum, dacs))
  {
    var s1 := Touch(s, id);
    AcknowledgeSame(s1, b.custodian, b.flow, b.seqNum, dacs);
    SameChain(s, s1, Acknowledge(s1, b.custodian, b.flow, b.seqNum, dacs));
  }

  lemma SameChain(s: State, s1: State, s2: State)
    ensures SameFiles(s, s1) && SameFiles(s1, s2) ==> SameFiles(s, s2)
  {
  }

  // ----- every step and every run ------------------------------------------------------------------------

  /** A step orphans a file exactly if it is one of the two, and no step takes an orphaned file away. */
  lemma StepLeaks(s: State, ev: Event, sid: nat)
    requires Inv(s) && Enabled(s, ev)
    ensures Orphan(Apply(s, ev), sid) <==> Orphan(s, sid) || LeakStep(s, ev, sid)
  {
    match ev
    case Arrive(b, allocOk, offload, dacs, env) => ArriveLeaks(s, b, allocOk, offload, dacs, env, sid);
    case Look(env) => LookLeaks(s, env, sid);
    case EntryGone(id) => GoneSame(s, id, sid);
    case _ =>
      QuietSame(s, ev);
      SameOrphans(s, Apply(s, ev), sid);
  }

  /** The collector only takes entries that were discarded. */
  lemma GoneSame(s: State, id: Id, sid: nat)
    requires Inv(s) && id in s.recycle
    ensures Orphan(DestroyEntry(s, id), sid) <==> Orphan(s, sid)
  {
    RecycledEntry(s, id);
    assert s.entries[id].state == Undefined;
    var s' := DestroyEntry(s, id);
    assert forall x :: x in s.entries && x != id ==> x in s'.entries && s'.entries[x] == s.entries[x];
  }

  lemma QuietSame(s: State, ev: Event)
    requires Inv(s) && Enabled(s, ev) && !ev.Arrive? && !ev.Look? && !ev.EntryGone?
    ensures SameFiles(s, Apply(s, ev))
  {
    match ev
    case Tick(clock) =>
    case RemoteAck(flow, seqs) => RemoteSame(s, flow, seqs);
    case Poll(bound, due) => TakeDueSame(s, due);
    case Send(id, clock) =>
      InFlight(s, id);
      EgressSame(s, id, clock);
    case RefGone(id) => RefSame(s, id);
  }

  lemma EgressSame(s: State, id: Id, clock: nat)
    requires id in s.entries && s.entries[id].ref.Some?
    ensures SameFiles(s, Egress(s, id, clock))
  {
  }

  lemma RefSame(s: State, id: Id)
    requires id in s.entries
    ensures SameFiles(s, DestroyRef(s, id))
  {
  }

  /** Some step of the run orphans the file. */
  ghost predicate LeaksIn(s: State, evs: seq<Event>, sid: nat)
    requires Inv(s) && CanRun(s, evs)
    decreases |evs|
  {
    evs != [] &&
    (LeakStep(s, evs[0], sid) || (ApplyKeeps(s, evs[0]); LeaksIn(Apply(s, evs[0]), evs[1..], sid)))
  }

  /** Over any run, a file is orphaned exactly if it was before or one of its steps is one of the two; it is there
      for good, and the store is never told to release it. */
  lemma {:induction false} LeakOverRun(s: State, evs: seq<Event>, sid: nat)
    requires Inv(s) && CanRun(s, evs)
    ensures Orphan(Run(s, evs), sid) <==> Orphan(s, sid) || LeaksIn(s, evs, sid)
    ensures Orphan(s, sid) || LeaksIn(s, evs, sid) ==> sid in Run(s, evs).files && sid !in Run(s, evs).released
    decreases |evs|
  {
    if evs != [] {
      ApplyKeeps(s, evs[0]);
      StepLeaks(s, evs[0], sid);
      LeakOverRun(Apply(s, evs[0]), evs[1..], sid);
    }
  }

  /** An entry that is neither discarded nor held over has this storage identifier. */
  ghost predicate Owned(s: State, sid: nat) {
    exists id :: id in s.entries && s.entries[id].who.sid == sid && Live(s.entries[id]) && s.entries[id].state != Delete
  }

  /** In every run from the empty cache, a file belongs to such an entry exactly if no step of the run has orphaned
      it. */
  lemma FilesHaveEntries(now: nat, evs: seq<Event>, sid: nat)
    requires now > 0 && (InitInv(now); CanRun(Init(now), evs))
    ensures var s := Run(Init(now), evs);
      sid in s.files ==> (Owned(s, sid) <==> !LeaksIn(Init(now), evs, sid))
  {
    InitInv(now);
    LeakOverRun(Init(now), evs, sid);
    var s := Run(Init(now), evs);
    if sid in s.files && !LeaksIn(Init(now), evs, sid) {
      var id :| id in s.entries && s.entries[id].who.sid == sid && s.entries[id].state != Undefined;
      assert s.entries[id].state != Delete;
    }
  }
}
