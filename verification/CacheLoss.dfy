/** When the cache can lose a bundle it holds custody of. */
module CacheLoss {
  import opened CacheModel
  import opened CacheInv
  import opened CacheArrive
  import opened CacheRun
  import opened CacheSafety
  import opened CacheTheorems

  /** If the entry is in custody, its bundle is in memory with all its blocks, or in a file that brings it
      back with all its blocks. */
  ghost predicate Recoverable(s: State, id: Id) {
    id in s.entries && Live(s.entries[id]) && s.entries[id].flags.custody ==>
      var e := s.entries[id];
      (e.ref.Some? && e.ref.value.intact) || (e.who.sid in s.files && s.files[e.who.sid].intact)
  }

  ghost predicate AlwaysRecoverable(s: State, id: Id)
    requires Inv(s)
  {
    forall evs :: CanRun(s, evs) ==> Recoverable(Run(s, evs), id)
  }

  /** A bundle from a queue, seen for the first time and not sent by anyone yet. */
  ghost predicate Fresh(s: State, b: Bundle)
    requires Inv(s)
  {
    BundleOk(b) && b.isRef && !b.delivery.egressed && FindBundle(s, s.bundleIndex, b.flow, b.seqNum).None?
  }

  /** The state after the arrival of a fresh bundle. */
  ghost function Stored(s: State, b: Bundle, offload: Offload, dacs: DacsEnv, env: Env): (s': State)
    requires Inv(s) && Fresh(s, b)
    ensures Inv(s')
  {
    StoreNewKeeps(s, b, offload, dacs, env);
    StoreNew(s, b, offload, dacs, env)
  }

  lemma StoredByArrival(s: State, b: Bundle, offload: Offload, dacs: DacsEnv, env: Env)
    requires Inv(s) && Fresh(s, b)
    ensures Stored(s, b, offload, dacs, env) == Apply(s, Arrive(b, true, offload, dacs, env))
  {
  }

  /** Whatever happens afterwards, the bundle is not lost. */
  ghost predicate NeverLost(s: State, b: Bundle, offload: Offload)
    requires Inv(s) && Fresh(s, b)
  {
    forall dacs, env :: AlwaysRecoverable(Stored(s, b, offload, dacs, env), s.nextId)
  }

  // ----- the entry that is stored ---------------------------------------------------------------

  /** The new entry `first` after its first evaluation. */
  ghost predicate Launched(now: nat, first: Entry, e: Entry, refAllocOk: bool) {
    && e.who == first.who && e.flags.custody && e.ref == first.ref && !e.flags.timeWait
    && (now >= first.who.expireTime ==> e.state == Undefined)
    && (now < first.who.expireTime ==> e.state == Queue && e.flags.queued == refAllocOk)
  }

  lemma ExecuteNew(s: State, id: Id, env: Env)
    requires id in s.entries && s.entries[id].state == Idle && s.entries[id].ref.Some?
    requires s.entries[id].flags == Flags(true, true, false, false, false)
    ensures id in Execute(s, id, env).entries && Execute(s, id, env).files == s.files
    ensures Launched(s.now, s.entries[id], Execute(s, id, env).entries[id], env.refAllocOk)
  {
    var e := s.entries[id];
    CommitShape(s, id, Settled(s.now, e, Restored(s, e, env), env.refAllocOk), env);
  }

  lemma StoreNewEntry(s: State, b: Bundle, offload: Offload, dacs: DacsEnv, env: Env, s1: State)
    requires IndicesHold(s) && b.isRef && s1 == AddEntry(s, b, offload) && DacsOk(s1) && BundlesOk(s1) && EntriesOk(s1)
    ensures s.nextId in StoreNew(s, b, offload, dacs, env).entries
    ensures Launched(s.now, NewEntry(s, b, offload), StoreNew(s, b, offload, dacs, env).entries[s.nextId],
      env.refAllocOk)
  {
    assert s.nextId in s1.bundleIndex;
    if offload.Saved? {
      AcknowledgeKeeps(s1, b.custodian, b.flow, b.seqNum, dacs, s.nextId);
      AcknowledgeNow(s1, b.custodian, b.flow, b.seqNum, dacs);
      ExecuteNew(Acknowledge(s1, b.custodian, b.flow, b.seqNum, dacs), s.nextId, env);
    } else {
      ExecuteNew(s1, s.nextId, env);
    }
  }

  lemma StoredEntry(s: State, b: Bundle, offload: Offload, dacs: DacsEnv, env: Env)
    requires Inv(s) && Fresh(s, b)
    ensures var s' := Stored(s, b, offload, dacs, env);
      s.nextId in s'.entries && Launched(s.now, NewEntry(s, b, offload), s'.entries[s.nextId], env.refAllocOk)
  {
    AddEntryKeeps(s, b, offload);
    StoreNewEntry(s, b, offload, dacs, env, AddEntry(s, b, offload));
  }

  // ----- what is safe ---------------------------------------------------------------------------

  /** A stored bundle that was written with its payload last, or was never to be written, stays recoverable. */
  lemma {:induction false} SafeRun(s: State, evs: seq<Event>, id: Id)
    requires Inv(s) && CanRun(s, evs) && id < s.nextId
    requires id in s.entries ==>
      (s.entries[id].who.fromRef && Safe(s.entries[id].who)) || !Live(s.entries[id])
    ensures Recoverable(Run(s, evs), id)
    decreases |evs|
  {
    if evs == [] {
      if id in s.entries {
        assert EntryOk(s.entries[id], s.now);
      }
    } else {
      var s1 := Apply(s, evs[0]);
      ApplyKeeps(s, evs[0]);
      StepKeys(s, evs[0]);
      if id in s.entries && id in s1.entries {
        StepEvolves(s, evs[0], id);
      }
      SafeRun(s1, evs[1..], id);
    }
  }

  // ----- what is not ------------------------------------------------------------------------------

  /** An undelivered entry whose copy was destroyed, with a place in the store that does not hold it. */
  ghost predicate Doomed(s: State, id: Id) {
    && id in s.entries && id in s.pending
    && var e := s.entries[id];
       e.state == Queue && !e.flags.queued && e.flags.custody && e.ref.Some? && !e.ref.value.egressed
       && !Safe(e.who)
  }

  lemma DoomedNow(s: State, id: Id, env: Env)
    requires Inv(s) && Doomed(s, id) && s.pending[0] == id
    ensures !Recoverable(LookAtNext(s, env), id)
  {
    PopDetaches(s);
    var s0, e := s.(pending := s.pending[1..]), s.entries[id];
    CommitShape(s0, id, Settled(s.now, e, Restored(s0, e, env), env.refAllocOk), env);
  }

  lemma DoomedLater(s: State, id: Id, env: Env)
    requires Inv(s) && Doomed(s, id) && s.pending[0] != id
    ensures Doomed(LookAtNext(s, env), id) && |LookAtNext(s, env).pending| < |s.pending|
  {
    PopDetaches(s);
    LookPops(s, env);
    ExecuteOthers(s.(pending := s.pending[1..]), s.pending[0], env, id);
  }

  /** Evaluations, and copies that are destroyed. */
  ghost predicate OnlyLooks(evs: seq<Event>) { forall i :: 0 <= i < |evs| ==> evs[i].Look? || evs[i].RefGone? }

  lemma LooksCons(ev: Event, evs: seq<Event>)
    ensures OnlyLooks(evs) && (ev.Look? || ev.RefGone?) ==> OnlyLooks([ev] + evs)
  {
  }

  lemma {:induction false} DoomedRun(s: State, id: Id, env: Env) returns (evs: seq<Event>)
    requires Inv(s) && Doomed(s, id)
    ensures CanRun(s, evs) && !Recoverable(Run(s, evs), id) && OnlyLooks(evs)
    decreases |s.pending|
  {
    var s1 := LookAtNext(s, env);
    ApplyKeeps(s, Look(env));
    if s.pending[0] == id {
      DoomedNow(s, id, env);
      RunCons(s, Look(env), s1, []);
      LooksCons(Look(env), []);
      evs := [Look(env)] + [];
    } else {
      DoomedLater(s, id, env);
      var rest := DoomedRun(s1, id, env);
      RunCons(s, Look(env), s1, rest);
      LooksCons(Look(env), rest);
      evs := [Look(env)] + rest;
    }
  }

  /** The same entry while its copy is in flight. */
  ghost predicate AtRisk(s: State, id: Id) {
    && id in s.refs && id in s.entries
    && s.entries[id].flags.custody && !Safe(s.entries[id].who)
    && s.entries[id].ref.Some? && !s.entries[id].ref.value.egressed
  }

  lemma RefGoneDooms(s: State, id: Id)
    requires Inv(s) && AtRisk(s, id)
    ensures Doomed(DestroyRef(s, id), id)
  {
    InFlight(s, id);
    RemoveSpec(s.pending, id);
  }

  lemma LostFromFlight(s: State, id: Id, env: Env) returns (evs: seq<Event>)
    requires Inv(s) && AtRisk(s, id)
    ensures CanRun(s, evs) && !Recoverable(Run(s, evs), id) && OnlyLooks(evs)
  {
    RefGoneDooms(s, id);
    var s1 := Apply(s, RefGone(id));
    ApplyKeeps(s, RefGone(id));
    var rest := DoomedRun(s1, id, env);
    RunCons(s, RefGone(id), s1, rest);
    LooksCons(RefGone(id), rest);
    evs := [RefGone(id)] + rest;
  }

  lemma LaunchedAtRisk(s: State, id: Id, now: nat, first: Entry)
    requires RefsOk(s) && now < first.who.expireTime
    ensures id in s.entries && Launched(now, first, s.entries[id], true) && Hollow(first) ==> AtRisk(s, id)
  {
    assert id in s.entries && s.entries[id].flags.queued ==> s.refs[id] == 1;
  }

  /** A new entry with a place in the store that does not hold it. */
  ghost predicate Hollow(first: Entry) {
    first.ref.Some? && !first.ref.value.egressed && !Safe(first.who)
  }

  /** The store is not asked to write the bundle, or writes it all with the payload last. */
  predicate NewSafe(b: Bundle, offload: Offload) { offload.NotConfigured? || (offload.Saved? && b.payloadLast) }

  /** If the file does not hold the bundle, one undelivered copy is enough to lose it. */
  lemma LostBundle(s: State, b: Bundle, offload: Offload, dacs: DacsEnv)
    requires Inv(s) && Fresh(s, b) && s.now < b.expireTime && !NewSafe(b, offload)
    ensures !NeverLost(s, b, offload)
  {
    var env := Env(true, true);
    var s1 := Stored(s, b, offload, dacs, env);
    StoredEntry(s, b, offload, dacs, env);
    LaunchedAtRisk(s1, s.nextId, s.now, NewEntry(s, b, offload));
    var evs := LostFromFlight(s1, s.nextId, env);
    assert !AlwaysRecoverable(s1, s.nextId);
  }

  /** A bundle taken into custody can be lost exactly if it is alive on arrival and the store was asked
      to write it and did not, or wrote it with a block after its payload. */
  lemma LossCondition(s: State, b: Bundle, offload: Offload)
    requires Inv(s) && Fresh(s, b)
    ensures NeverLost(s, b, offload) <==>
      offload.NotConfigured? || (offload.Saved? && b.payloadLast) || s.now >= b.expireTime
  {
    if s.now < b.expireTime && !NewSafe(b, offload) {
      LostBundle(s, b, offload, DacsEnv(b.flow, 0, 0, false));
    } else {
      forall dacs, env ensures AlwaysRecoverable(Stored(s, b, offload, dacs, env), s.nextId) {
        NotLost(s, b, offload, dacs, env);
      }
    }
  }

  lemma NotLost(s: State, b: Bundle, offload: Offload, dacs: DacsEnv, env: Env)
    requires Inv(s) && Fresh(s, b) && (NewSafe(b, offload) || s.now >= b.expireTime)
    ensures AlwaysRecoverable(Stored(s, b, offload, dacs, env), s.nextId)
  {
    StoredEntry(s, b, offload, dacs, env);
    var s1 := Stored(s, b, offload, dacs, env);
    assert EntriesOk(s1);
    forall evs | CanRun(s1, evs) ensures Recoverable(Run(s1, evs), s.nextId) {
      SafeRun(s1, evs, s.nextId);
    }
  }
}
