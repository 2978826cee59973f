/** How custody of a bundle ends, by what the bundle and the store say on its arrival. */
module CacheRelease {
  import opened CacheModel
  import opened CacheInv
  import opened CacheRun
  import opened CacheSafety
  import opened CacheTheorems
  import opened CacheLoss
  import opened CacheProgress
  import opened CacheTrip
  import opened CacheCustody

  /** Whatever happens without an acknowledgement that names the bundle, custody of it does not end. */
  ghost predicate HeldUnlessNamed(s: State, id: Id, flow: Addr, seqNum: nat)
    requires Inv(s)
  {
    forall evs :: CanRun(s, evs) && !NamedIn(evs, flow, seqNum) && id in Run(s, evs).entries ==>
      Run(s, evs).entries[id].flags.custody
  }

  /** Custody of the bundle ends by an acknowledgement only. */
  ghost predicate OnlyByAck(s: State, b: Bundle, offload: Offload)
    requires Inv(s) && Fresh(s, b)
  {
    forall dacs, env :: HeldUnlessNamed(Stored(s, b, offload, dacs, env), s.nextId, b.flow, b.seqNum)
  }

  // ----- held ---------------------------------------------------------------------------------------------

  /** A bundle that stays tracked is in custody until it expires or an acknowledgement names it. */
  lemma TrackedToTheEnd(s: State, b: Bundle, offload: Offload, dacs: DacsEnv, env: Env, evs: seq<Event>)
    requires Inv(s) && Fresh(s, b) && StaysTracked(b, offload)
    requires CanRun(Stored(s, b, offload, dacs, env), evs) && !NamedIn(evs, b.flow, b.seqNum)
    ensures var s' := Run(Stored(s, b, offload, dacs, env), evs);
      && (s.nextId in s'.entries ==> s'.entries[s.nextId].flags.custody)
      && (s'.now < b.expireTime ==> s.nextId in s'.entries && Live(s'.entries[s.nextId]))
  {
    StoredKept(s, b, offload, dacs, env);
    KeptOverRun(Stored(s, b, offload, dacs, env), evs, s.nextId, NewEntry(s, b, offload).who);
  }

  /** A discarded entry keeps the flag it had. */
  ghost predicate Shelved(s: State, id: Id, flow: Addr, seqNum: nat) {
    && id < s.nextId
    && (id in s.entries ==>
          && !Live(s.entries[id]) && s.entries[id].flags.custody
          && s.entries[id].who.flow == flow && s.entries[id].who.seqNum == seqNum)
  }

  lemma {:induction false} ShelvedOverRun(s: State, evs: seq<Event>, id: Id, flow: Addr, seqNum: nat)
    requires Inv(s) && CanRun(s, evs) && Shelved(s, id, flow, seqNum) && !NamedIn(evs, flow, seqNum)
    ensures Shelved(Run(s, evs), id, flow, seqNum)
    decreases |evs|
  {
    if evs != [] {
      NamedNext(evs, flow, seqNum);
      ApplyKeeps(s, evs[0]);
      StepKeys(s, evs[0]);
      var s1 := Apply(s, evs[0]);
      if id in s1.entries {
        StepEvolves(s, evs[0], id);
      }
      ShelvedOverRun(s1, evs[1..], id, flow, seqNum);
    }
  }

  lemma ExpiredHeld(s: State, b: Bundle, offload: Offload, dacs: DacsEnv, env: Env)
    requires Inv(s) && Fresh(s, b) && s.now >= b.expireTime
    ensures HeldUnlessNamed(Stored(s, b, offload, dacs, env), s.nextId, b.flow, b.seqNum)
  {
    var s1 := StoredFacts(s, b, offload, dacs, env);
    forall evs | CanRun(s1, evs) && !NamedIn(evs, b.flow, b.seqNum)
      ensures s.nextId in Run(s1, evs).entries ==> Run(s1, evs).entries[s.nextId].flags.custody
    {
      ShelvedOverRun(s1, evs, s.nextId, b.flow, b.seqNum);
    }
  }

  lemma TrackedHeld(s: State, b: Bundle, offload: Offload, dacs: DacsEnv, env: Env)
    requires Inv(s) && Fresh(s, b) && StaysTracked(b, offload)
    ensures HeldUnlessNamed(Stored(s, b, offload, dacs, env), s.nextId, b.flow, b.seqNum)
  {
    forall evs | CanRun(Stored(s, b, offload, dacs, env), evs) && !NamedIn(evs, b.flow, b.seqNum)
      ensures var s' := Run(Stored(s, b, offload, dacs, env), evs);
        s.nextId in s'.entries ==> s'.entries[s.nextId].flags.custody
    {
      TrackedToTheEnd(s, b, offload, dacs, env, evs);
    }
  }

  // ----- let go -------------------------------------------------------------------------------------------

  ghost predicate NoAcks(evs: seq<Event>) { forall i :: 0 <= i < |evs| ==> !evs[i].RemoteAck? }

  /** The run ends custody of the entry without any acknowledgement. */
  ghost predicate LetsGo(s: State, evs: seq<Event>, id: Id)
    requires Inv(s)
  {
    CanRun(s, evs) && NoAcks(evs) && id in Run(s, evs).entries && !Run(s, evs).entries[id].flags.custody
  }

  /** The states from which some run does. */
  ghost function LettingGo(id: Id): iset<State> { iset s: State | Inv(s) && exists evs :: LetsGo(s, evs, id) }

  lemma LetGoNow(s: State, id: Id)
    requires s in Sound() && id in s.entries && !s.entries[id].flags.custody
    ensures s in LettingGo(id)
  {
    assert LetsGo(s, [], id);
  }

  lemma LetGoCons(s: State, ev: Event, s1: State, evs: seq<Event>, id: Id)
    requires Inv(s) && Enabled(s, ev) && !ev.RemoteAck? && s1 == Apply(s, ev) && Inv(s1) && LetsGo(s1, evs, id)
    ensures LetsGo(s, [ev] + evs, id)
  {
    NoAcksCons(ev, evs);
    RunCons(s, ev, s1, evs);
  }

  lemma NoAcksCons(ev: Event, evs: seq<Event>)
    requires !ev.RemoteAck? && NoAcks(evs)
    ensures NoAcks([ev] + evs)
  {
  }

  lemma ByRun(s: State, evs: seq<Event>, id: Id)
    requires Inv(s) && LetsGo(s, evs, id)
    ensures s in LettingGo(id)
  {
  }

  lemma SomeRun(s: State, id: Id) returns (evs: seq<Event>)
    requires s in LettingGo(id)
    ensures Inv(s) && LetsGo(s, evs, id)
  {
    evs :| LetsGo(s, evs, id);
  }

  lemma LetGoLater(s: State, ev: Event, s1: State, id: Id)
    requires Inv(s) && Enabled(s, ev) && !ev.RemoteAck? && s1 == Apply(s, ev) && s1 in LettingGo(id)
    ensures s in LettingGo(id)
  {
    var evs := SomeRun(s1, id);
    LetGoCons(s, ev, s1, evs, id);
    ByRun(s, [ev] + evs, id);
  }

  lemma {:induction false} LetGoLooks(s: State, envs: seq<Env>, id: Id)
    requires s in Sound() && LooksEnd(s, envs) in LettingGo(id)
    ensures s in LettingGo(id)
    decreases |envs|
  {
    if envs != [] {
      LooksNext(s, envs);
      LetGoLooks(NextOf(s, envs[0]), envs[1..], id);
      LetGoLater(s, Look(envs[0]), NextOf(s, envs[0]), id);
    }
  }

  lemma LetGoHeld(s: State, id: Id, flow: Addr, seqNum: nat)
    requires s in LettingGo(id)
    ensures Inv(s) && !HeldUnlessNamed(s, id, flow, seqNum)
  {
    var evs := SomeRun(s, id);
    assert !NamedIn(evs, flow, seqNum);
  }

  /** A bundle that nobody is to acknowledge is let go when a copy of it went out: no acknowledgement is needed. */
  lemma TripLetsGo(s: State, id: Id, clock: nat, envs: seq<Env>, env: Env)
    requires Inv(s) && id in s.refs && clock > 0 && |envs| > |s.pending| && AllAnswer(envs, env)
    requires id in s.entries && s.entries[id].ref.Some? && s.entries[id].ref.value.policy != CustodyTracking
    ensures LetsGo(s, Trip(id, clock, envs), id)
  {
    InFlight(s, id);
    TripNoAcks(id, clock, envs);
    var s' := TripSeen(s, id, clock, envs, env);
  }

  lemma TripNoAcks(id: Id, clock: nat, envs: seq<Env>)
    ensures NoAcks(Trip(id, clock, envs))
  {
    LooksOnly(envs);
  }

  lemma LocalLetsGo(s: State, id: Id)
    requires Inv(s) && id in s.refs
    requires id in s.entries && s.entries[id].ref.Some? && s.entries[id].ref.value.policy != CustodyTracking
    ensures s in LettingGo(id)
  {
    var envs := seq(|s.pending| + 1, _ => WILLING);
    TripLetsGo(s, id, 1, envs, WILLING);
    ByRun(s, Trip(id, 1, envs), id);
  }

  lemma {:induction false} LooksOnly(envs: seq<Env>)
    ensures forall i :: 0 <= i < |Looks(envs)| ==> Looks(envs)[i].Look?
    decreases |envs|
  {
    if envs != [] {
      LooksOnly(envs[1..]);
    }
  }

  // ----- a file without its record --------------------------------------------------------------------------

  /** In custody, not sent yet, and the file it will be read from does not ask for custody tracking. */
  ghost predicate Forgetful(s: State, id: Id) {
    && id in s.entries && s.now < s.entries[id].who.expireTime
    && var e := s.entries[id];
       && e.flags.custody && !e.flags.timeWait && e.who.sid in s.files
       && s.files[e.who.sid].policy != CustodyTracking
  }

  lemma LookForgetful(s: State, id: Id)
    requires s in Sound() && id in s.pending && Forgetful(s, id)
    requires var e := s.entries[id];
      (e.state == Queue && !e.flags.queued && e.ref.Some? && !e.ref.value.egressed) || (e.state == Idle && e.ref.None?)
    ensures var s' := LooksEnd(s, seq(|s.pending|, _ => WILLING));
      && Inv(s') && Forgetful(s', id)
      && (s.entries[id].state == Queue ==>
            s'.entries[id].state == Idle && s'.entries[id].ref.None? && s'.entries[id].timeKey != 0)
      && (s.entries[id].state == Idle ==>
            id in s'.refs && s'.entries[id].ref == Some(s.files[s.entries[id].who.sid]))
  {
    var envs := seq(|s.pending|, _ => WILLING);
    LooksSeen(s, envs, WILLING, id);
    var s' := LooksEnd(s, envs);
    assert SeenOnce(s, s', id, WILLING);
    FlightCount(s', id);
    assert FilesOk(s);
  }

  /** A copy that is lost has the bundle read back from its file, which does not ask for custody tracking. */
  lemma TornLetsGo(s: State, id: Id)
    requires Inv(s) && id in s.refs && Forgetful(s, id) && s.entries[id].ref.Some? && !s.entries[id].ref.value.egressed
    ensures s in LettingGo(id)
  {
    InFlight(s, id);
    var s1 := GoneReturns(s, id);
    LookForgetful(s1, id);
    var envs1 := seq(|s1.pending|, _ => WILLING);
    var s2 := LooksEnd(s1, envs1);
    IdleLetsGo(s2, id);
    LetGoLooks(s1, envs1, id);
    LetGoLater(s, RefGone(id), s1, id);
  }

  lemma IdleLetsGo(s: State, id: Id)
    requires Inv(s) && Forgetful(s, id) && s.entries[id].state == Idle && s.entries[id].ref.None?
    requires s.entries[id].timeKey != 0
    ensures s in LettingGo(id)
  {
    var ev := Poll(0, [id]);
    var s1 := Apply(s, ev);
    ApplyKeeps(s, ev);
    TakeDueHas(s, [id], id);
    TakeDuePending(s, [id], id);
    LookForgetful(s1, id);
    var envs := seq(|s1.pending|, _ => WILLING);
    LocalLetsGo(LooksEnd(s1, envs), id);
    LetGoLooks(s1, envs, id);
    LetGoLater(s, ev, s1, id);
  }

  // ----- the condition ----------------------------------------------------------------------------------------

  lemma ArrivalLetsGo(s: State, b: Bundle, offload: Offload, dacs: DacsEnv)
    requires Inv(s) && Fresh(s, b) && s.now < b.expireTime && !StaysTracked(b, offload)
    ensures Stored(s, b, offload, dacs, WILLING) in LettingGo(s.nextId)
  {
    var id := s.nextId;
    var s1 := StoredFacts(s, b, offload, dacs, WILLING);
    FlightCount(s1, id);
    if AcceptedPolicy(b, offload) != CustodyTracking {
      LocalLetsGo(s1, id);
    } else {
      TornFile(s, b, dacs, WILLING);
      TornLetsGo(s1, id);
    }
  }

  function AcceptedPolicy(b: Bundle, offload: Offload): Policy {
    if offload.NotConfigured? then b.delivery.policy else AcceptedDelivery(b).policy
  }

  lemma TornFile(s: State, b: Bundle, dacs: DacsEnv, env: Env)
    requires Inv(s) && Fresh(s, b)
    ensures var s' := Stored(s, b, Torn, dacs, env); s.lastSid + 1 in s'.files && s'.files[s.lastSid + 1] == BLANK
  {
    TornStored(s, b, dacs, env);
  }

  lemma TornStored(s: State, b: Bundle, dacs: DacsEnv, env: Env)
    requires IndicesHold(s) && b.isRef
    ensures StoreNew(s, b, Torn, dacs, env).files == s.files[s.lastSid + 1 := BLANK]
  {
    ExecuteNew(AddEntry(s, b, Torn), s.nextId, env);
  }

  /** A bundle for this node that a store takes, or one that does not ask for custody tracking: its first trip
      ends custody, without an acknowledgement. */
  lemma DeliveryReleases(s: State, b: Bundle, offload: Offload, dacs: DacsEnv, clock: nat, envs: seq<Env>, env: Env)
    requires Inv(s) && Fresh(s, b) && s.now < b.expireTime
    requires b.delivery.policy != CustodyTracking || (b.destinedHere && !offload.NotConfigured?)
    requires clock > 0 && |envs| > |Stored(s, b, offload, dacs, WILLING).pending| && AllAnswer(envs, env)
    ensures LetsGo(Stored(s, b, offload, dacs, WILLING), Trip(s.nextId, clock, envs), s.nextId)
  {
    var s1 := StoredFacts(s, b, offload, dacs, WILLING);
    FlightCount(s1, s.nextId);
    TripLetsGo(s1, s.nextId, clock, envs, env);
  }

  /** Custody of a bundle ends by an acknowledgement only exactly if it has expired on arrival, or asks for custody
      tracking and is not for this node, if a store takes it, and its file is not left without a record. */
  lemma ReleaseCondition(s: State, b: Bundle, offload: Offload)
    requires Inv(s) && Fresh(s, b)
    ensures OnlyByAck(s, b, offload) <==>
      || s.now >= b.expireTime
      || (b.delivery.policy == CustodyTracking && (offload.NotConfigured? || (!b.destinedHere && !offload.Torn?)))
  {
    if s.now >= b.expireTime {
      forall dacs, env ensures HeldUnlessNamed(Stored(s, b, offload, dacs, env), s.nextId, b.flow, b.seqNum) {
        ExpiredHeld(s, b, offload, dacs, env);
      }
    } else if StaysTracked(b, offload) {
      forall dacs, env ensures HeldUnlessNamed(Stored(s, b, offload, dacs, env), s.nextId, b.flow, b.seqNum) {
        TrackedHeld(s, b, offload, dacs, env);
      }
    } else {
      var dacs := DacsEnv(b.flow, 0, 0, false);
      ArrivalLetsGo(s, b, offload, dacs);
      LetGoHeld(Stored(s, b, offload, dacs, WILLING), s.nextId, b.flow, b.seqNum);
    }
  }
}
