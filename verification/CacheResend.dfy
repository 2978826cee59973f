/** When a bundle whose custody is tracked is sent again. */
module CacheResend {
  import opened CacheModel
  import opened CacheInv
  import opened CacheRun
  import opened CacheSafety
  import opened CacheLoss
  import opened CacheProgress
  import opened CacheTrip
  import opened CacheCustody

  /** The entry of a tracked bundle of which a copy went out at this time and is gone. */
  ghost predicate WentOut(e: Entry, clock: nat, interval: nat) {
    && e.state == Queue && e.flags.custody && !e.flags.queued && e.ref.Some?
    && e.ref.value.policy == CustodyTracking
    && e.ref.value.egressed && e.ref.value.egressTime == clock && e.ref.value.retxInterval == interval
  }

  /** Until the time `due` the entry is not sent: it waits in the idle state, or has been let go. */
  ghost predicate Resting(s: State, id: Id, who: Identity, due: nat) {
    && id < s.nextId
    && (id in s.entries ==>
          && s.entries[id].who == who && s.entries[id].state in {Idle, Delete, Undefined}
          && (s.entries[id].state == Idle ==>
                && s.entries[id].flags.timeWait && s.entries[id].actionTime == due
                && (who.sid == 0 ==> s.entries[id].ref.Some?)))
  }

  /** Before it expires it waits in custody. */
  ghost predicate Staying(s: State, id: Id, who: Identity) {
    s.now < who.expireTime ==> id in s.entries && s.entries[id].state == Idle && s.entries[id].flags.custody
  }

  // ----- the first look -------------------------------------------------------------------------------------

  lemma OutAfter(e: Entry, clock: nat, interval: nat, now: nat, file: Option<Delivery>, env: Env)
    requires WentOut(e, clock, interval)
    ensures var e' := After(now, e, file, env);
      && e'.state == Idle && e'.flags.custody && !e'.flags.queued && !e'.flags.forward && e'.who == e.who
      && e'.flags.timeWait && e'.actionTime == clock + interval && (e.who.sid == 0 ==> e'.ref.Some?)
  {
  }

  /** The first round that finds the entry makes it idle, and no copy is in flight. */
  lemma FirstRound(s: State, r: Turn, env: Env, id: Id, clock: nat, interval: nat) returns (s': State)
    requires Inv(s) && CanRound(s, r, env) && id in s.entries && FoundBy(s, id, r.clock)
    requires WentOut(s.entries[id], clock, interval)
    ensures s' == Rounded(s, r, env) && id in s'.entries && s'.entries[id].state == Idle && s'.refs[id] == 0
    ensures !s'.entries[id].flags.forward
    ensures Resting(s', id, s.entries[id].who, clock + interval) && Staying(s', id, s.entries[id].who)
  {
    s' := Rounded(s, r, env);
    var key := RoundSees(s, r, env, id);
    OutAfter(s.entries[id].(timeKey := key), clock, interval, r.clock, FileOf(s, s.entries[id].who), env);
    FlightCount(s', id);
    assert EntriesOk(s');
  }

  // ----- until the time has come ------------------------------------------------------------------------------

  lemma RestingSettled(now: nat, e: Entry, restored: Option<Delivery>, ok: bool)
    requires e.state == Idle && e.flags.timeWait && now < e.actionTime
    ensures var e' := Settled(now, e, restored, ok);
      && e'.who == e.who && e'.state in {Idle, Delete, Undefined} && (e'.state == Idle ==> e' == e)
      && (now < e.who.expireTime && e.flags.custody ==> e' == e)
  {
  }

  lemma LookResting(s: State, env: Env, id: Id, who: Identity, due: nat)
    requires Inv(s) && s.now < due && Resting(s, id, who, due)
    ensures Resting(LookAtNext(s, env), id, who, due)
    ensures Staying(s, id, who) ==> Staying(LookAtNext(s, env), id, who)
  {
    ClockRuns(s, Look(env));
    StepKeys(s, Look(env));
    if s.pending != [] && s.pending[0] == id {
      SelfResting(s, env, id);
    } else if id in s.entries {
      LookAtOther(s, env, id);
    }
  }

  lemma SelfResting(s: State, env: Env, id: Id)
    requires Inv(s) && s.pending != [] && s.pending[0] == id
    ensures var s' := LookAtNext(s, env);
      && id in s.entries && id in s'.entries && s'.entries[id].who == s.entries[id].who
      && (s.entries[id].state in {Delete, Undefined} ==> s'.entries[id].state in {Delete, Undefined})
      && (s.entries[id].state == Idle && s.entries[id].flags.timeWait && s.now < s.entries[id].actionTime ==>
            && s'.entries[id].state in {Idle, Delete, Undefined}
            && (s'.entries[id].state == Idle ||
                (s.now < s.entries[id].who.expireTime && s.entries[id].flags.custody) ==>
                s'.entries[id] == s.entries[id].(timeKey := s'.entries[id].timeKey)))
  {
    PopDetaches(s);
    var s0, e := s.(pending := s.pending[1..]), s.entries[id];
    assert EntryOk(e, s.now);
    var e' := Settled(s.now, e, Restored(s0, e, env), env.refAllocOk);
    SettledFollows(s.now, e, Restored(s0, e, env), env.refAllocOk);
    CommitShape(s0, id, e', env);
    if e.state == Idle && e.flags.timeWait && s.now < e.actionTime {
      RestingSettled(s.now, e, Restored(s0, e, env), env.refAllocOk);
    }
  }

  lemma MildResting(s: State, s': State, id: Id, who: Identity, due: nat)
    requires Resting(s, id, who, due) && AllMild(s, s') && KeysGrow(s, s') && s'.now >= s.now
    ensures Resting(s', id, who, due) && (Staying(s, id, who) ==> Staying(s', id, who))
  {
  }

  lemma StepResting(s: State, ev: Event, id: Id, who: Identity, due: nat)
    requires Inv(s) && Enabled(s, ev) && s.now < due && Resting(s, id, who, due)
    ensures Resting(Apply(s, ev), id, who, due)
    ensures Staying(s, id, who) && !Names(ev, who.flow, who.seqNum) ==> Staying(Apply(s, ev), id, who)
  {
    match ev
    case Look(env) => LookResting(s, env, id, who, due);
    case RemoteAck(flow, seqs) => RemoteResting(s, flow, seqs, id, who, due);
    case EntryGone(x) =>
    case _ =>
      MildEvents(s, ev);
      StepKeys(s, ev);
      ClockRuns(s, ev);
      MildResting(s, Apply(s, ev), id, who, due);
  }

  lemma RemoteResting(s: State, flow: Addr, seqs: seq<nat>, id: Id, who: Identity, due: nat)
    requires Inv(s) && Resting(s, id, who, due)
    ensures Resting(RemoteDacs(s, flow, seqs), id, who, due)
    ensures Staying(s, id, who) && !(who.flow == flow && who.seqNum in seqs) ==>
      Staying(RemoteDacs(s, flow, seqs), id, who)
  {
    RemoteDacsKeys(s, flow, seqs);
    RemoteClock(s, flow, seqs);
    if id in s.entries {
      RemoteAckExact(s, flow, seqs, id);
    }
  }

  /** Over any run that ends before that time the entry rests, and stays unless an acknowledgement names it. */
  lemma {:induction false} RestingOverRun(s: State, evs: seq<Event>, id: Id, who: Identity, due: nat)
    requires Inv(s) && CanRun(s, evs) && Resting(s, id, who, due) && Run(s, evs).now < due
    ensures Resting(Run(s, evs), id, who, due)
    ensures Staying(s, id, who) && !NamedIn(evs, who.flow, who.seqNum) ==> Staying(Run(s, evs), id, who)
    decreases |evs|
  {
    if evs != [] {
      ClockOverRun(s, evs);
      NamedNext(evs, who.flow, who.seqNum);
      ApplyKeeps(s, evs[0]);
      StepResting(s, evs[0], id, who, due);
      RestingOverRun(Apply(s, evs[0]), evs[1..], id, who, due);
    }
  }

  lemma RestingUnsent(s: State, id: Id, who: Identity, due: nat)
    requires Inv(s) && Resting(s, id, who, due)
    ensures s.refs[id] == 0
  {
    if id in s.refs {
      InFlight(s, id);
    }
  }

  // ----- when the time has come ---------------------------------------------------------------------------------

  /** The round at that time, if the bundle has not expired and is at hand. */
  lemma DueRound(s: State, r: Turn, id: Id, who: Identity, due: nat)
    requires Inv(s) && CanRound(s, r, WILLING) && Resting(s, id, who, due) && Staying(s, id, who)
    requires due <= r.clock < who.expireTime && (Safe(who) || who.sid in s.files)
    ensures Rounded(s, r, WILLING).refs[id] == 1
  {
    assert EntryOk(s.entries[id], s.now);
    assert StoreOk(s);
    FoundInTime(s, id, r.clock);
    OneRound(s, r, id);
  }

  /** A tracked bundle that was sent at time `clock` and whose copy is gone.  The first round that finds it makes it
      idle.  After that no run that ends before `clock + interval` has a copy of it in flight, and unless an
      acknowledgement names it, exactly one is in flight after a round at that time or later, if the bundle is
      still at hand and has not expired. */
  lemma SentAgain(s: State, first: Turn, env: Env, evs: seq<Event>, again: Turn, id: Id, clock: nat, interval: nat)
    requires Inv(s) && CanRound(s, first, env) && id in s.entries && FoundBy(s, id, first.clock)
    requires WentOut(s.entries[id], clock, interval)
    requires CanRun(Rounded(s, first, env), evs)
    ensures var s1, who := Rounded(s, first, env), s.entries[id].who;
      && id in s1.entries && s1.entries[id].state == Idle && s1.refs[id] == 0
      && var s2 := Run(s1, evs);
         s2.now < clock + interval ==>
         && s2.refs[id] == 0
         && (!NamedIn(evs, who.flow, who.seqNum) && CanRound(s2, again, WILLING)
             && clock + interval <= again.clock < who.expireTime && (Safe(who) || who.sid in s2.files) ==>
               Rounded(s2, again, WILLING).refs[id] == 1)
  {
    var who, due := s.entries[id].who, clock + interval;
    var s1 := FirstRound(s, first, env, id, clock, interval);
    var s2 := Run(s1, evs);
    if s2.now < due {
      RestingOverRun(s1, evs, id, who, due);
      RestingUnsent(s2, id, who, due);
      if !NamedIn(evs, who.flow, who.seqNum) && CanRound(s2, again, WILLING)
        && due <= again.clock < who.expireTime && (Safe(who) || who.sid in s2.files) {
        DueRound(s2, again, id, who, due);
      }
    }
  }

  // ----- from the arrival on ------------------------------------------------------------------------------------

  /** A tracked bundle on its arrival; its copy is sent at this time and is gone. */
  lemma ArrivalGoesOut(s: State, b: Bundle, offload: Offload, dacs: DacsEnv, clock: nat) returns (s1: State)
    requires Inv(s) && Fresh(s, b) && s.now < b.expireTime && clock > 0
    requires b.delivery.policy == CustodyTracking && (offload.NotConfigured? || !b.destinedHere)
    ensures var s0 := Stored(s, b, offload, dacs, WILLING);
      CanRun(s0, Trip(s.nextId, clock, [])) && s1 == Run(s0, Trip(s.nextId, clock, []))
    ensures s.nextId in s1.pending && s.nextId in s1.entries
    ensures WentOut(s1.entries[s.nextId], clock, b.delivery.retxInterval)
    ensures s1.entries[s.nextId].who == NewEntry(s, b, offload).who
  {
    var s0 := StoredFacts(s, b, offload, dacs, WILLING);
    FlightCount(s0, s.nextId);
    s1 := TripRuns(s0, s.nextId, clock, []);
  }

  /** From the arrival of a bundle whose custody is tracked and that stays in memory or is written: its copy is sent
      at `clock` and lost.  No copy is in flight after the next round, nor before `clock` plus the interval that the
      bundle names; one is in flight after a round from then on. */
  lemma LostCopyResent(s: State, b: Bundle, offload: Offload, dacs: DacsEnv, clock: nat, s1: State,
                       first: Turn, evs: seq<Event>, again: Turn)
    requires Inv(s) && Fresh(s, b) && s.now < b.expireTime && clock > 0 && NewSafe(b, offload)
    requires b.delivery.policy == CustodyTracking && (offload.NotConfigured? || !b.destinedHere)
    requires var s0 := Stored(s, b, offload, dacs, WILLING);
      CanRun(s0, Trip(s.nextId, clock, [])) && s1 == Run(s0, Trip(s.nextId, clock, []))
    requires CanRound(s1, first, WILLING) && CanRun(Rounded(s1, first, WILLING), evs)
    requires !NamedIn(evs, b.flow, b.seqNum)
    ensures var s2, s3 := Rounded(s1, first, WILLING), Run(Rounded(s1, first, WILLING), evs);
      && s2.refs[s.nextId] == 0
      && (s3.now < clock + b.delivery.retxInterval ==>
            && s3.refs[s.nextId] == 0
            && (CanRound(s3, again, WILLING) && clock + b.delivery.retxInterval <= again.clock < b.expireTime ==>
                  Rounded(s3, again, WILLING).refs[s.nextId] == 1))
  {
    var _ := ArrivalGoesOut(s, b, offload, dacs, clock);
    SentAgain(s1, first, WILLING, evs, again, s.nextId, clock, b.delivery.retxInterval);
  }
}
