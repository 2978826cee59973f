/** Two runs of the cache from its start that leave a file behind. */
module LeakRuns {
  import opened CacheModel
  import opened CacheInv
  import opened CacheArrive
  import opened CacheRun
  import opened CacheTheorems
  import opened CacheLeak

  const SENDER: Addr := Addr(1, 1)
  const NO_DACS: DacsEnv := DacsEnv(Addr(0, 0), 0, 0, false)

  /** A bundle that expires at that time. */
  function Expiring(time: nat): Bundle {
    Bundle(SENDER, 0, time, Delivery(LocalAck, false, 0, 0, true), true, None, false, true)
  }

  /** A bundle that has expired on arrival: whatever follows, its file stays. */
  lemma LateArrivalLeaks(evs: seq<Event>)
    requires (InitInv(1); CanRun(Init(1), [Arrive(Expiring(1), true, Saved, NO_DACS, Env(true, true))] + evs))
    ensures var run := [Arrive(Expiring(1), true, Saved, NO_DACS, Env(true, true))] + evs;
      1 in Run(Init(1), run).files && 1 !in Run(Init(1), run).released
  {
    var s, ev := Init(1), Arrive(Expiring(1), true, Saved, NO_DACS, Env(true, true));
    InitInv(1);
    var run := [ev] + evs;
    assert run[0] == ev && LeakStep(s, ev, 1);
    LeakOverRun(s, run, 1);
  }

  /** A bundle whose copy is lost and that is acknowledged too late: it is found expired in the idle state. */
  const LATE_RUN: seq<Event> :=
    [Arrive(Expiring(2), true, Saved, NO_DACS, Env(true, true))] + ([RefGone(0)] + ([Look(Env(true, true))] +
    ([RemoteAck(SENDER, [0])] + ([Tick(2)] + [Look(Env(true, true))]))))

  const FILE: Delivery := Delivery(LocalAck, false, 0, 0, true)

  /** The cache with this entry, which is on these lists, and its file. */
  function OnlyEntry(now: nat, e: Entry, pending: seq<Id>, idle: seq<Id>, refs: multiset<Id>): State {
    State(now, map[0 := e], 1, pending, idle, [], refs, [0], [], map[1 := FILE], 1, {})
  }

  /** The entry in the queue state and in the idle state. */
  function Sent(queued: bool): Entry {
    Entry(Queue, Flags(true, true, false, queued, true), Some(FILE), 0, 1 + IDLE_RETRY_TIME, [], 1, Known())
  }

  function Back(custody: bool): Entry {
    Entry(Idle, Flags(true, custody, false, false, true), None, 0, 1 + FAST_RETRY_TIME, [], 1, Known())
  }

  function Known(): Identity { Identity(SENDER, 0, 2, 1, Addr(0, 0), Addr(0, 0), true, true) }

  lemma LateArrive()
    ensures StoreBundle(Init(1), Expiring(2), true, Saved, NO_DACS, Env(true, true))
         == OnlyEntry(1, Sent(true), [], [0], multiset{0})
  {
    var s, b, env := Init(1), Expiring(2), Env(true, true);
    var s1 := AddEntry(s, b, Saved);
    var e := NewEntry(s, b, Saved);
    assert s1.entries == map[0 := e] && s1.files == map[1 := FILE];
    var e1 := Settled(1, e, Restored(s1, e, env), true);
    assert e1 == Sent(true).(timeKey := 0);
    assert Commit(s1, 0, e1, env).entries == map[0 := Sent(true)];
  }

  lemma LateGone()
    ensures DestroyRef(OnlyEntry(1, Sent(true), [], [0], multiset{0}), 0)
         == OnlyEntry(1, Sent(false), [0], [], multiset{})
  {
    assert Remove([0][1..], 0) == [];
    assert Remove([0], 0) == Remove([0][1..], 0);
    assert map[0 := Sent(true)][0 := Sent(false)] == map[0 := Sent(false)];
  }

  lemma LateLook()
    ensures Execute(OnlyEntry(1, Sent(false), [], [], multiset{}), 0, Env(true, true))
         == OnlyEntry(1, Back(true), [], [0], multiset{})
  {
    var s0, env := OnlyEntry(1, Sent(false), [], [], multiset{}), Env(true, true);
    var e1 := Settled(1, Sent(false), Restored(s0, Sent(false), env), true);
    assert e1 == Back(true).(timeKey := 1 + IDLE_RETRY_TIME);
    assert Commit(s0, 0, e1, env).entries == map[0 := Back(true)];
  }

  lemma LateAck()
    ensures RemoteDacs(OnlyEntry(1, Back(true), [], [0], multiset{}), SENDER, [0])
         == OnlyEntry(1, Back(false), [0], [], multiset{})
  {
    var s := OnlyEntry(1, Back(true), [], [0], multiset{});
    assert FindBundle(s, s.bundleIndex, SENDER, [0][0]) == Some(0);
    assert Remove([0][1..], 0) == [];
    assert Remove([0], 0) == Remove([0][1..], 0);
    assert map[0 := Back(true)][0 := Back(true)][0 := Back(false)] == map[0 := Back(false)];
    assert [0][1..] == [];
    assert Released(s, 0).entries == map[0 := Back(false)];
  }

  /** The states from which these steps can follow and orphan the file. */
  ghost function Leaking(evs: seq<Event>, sid: nat): iset<State> {
    iset s: State | Inv(s) && CanRun(s, evs) && LeaksIn(s, evs, sid)
  }

  lemma LeaksLater(s: State, ev: Event, s1: State, evs: seq<Event>, sid: nat)
    requires Inv(s) && Enabled(s, ev) && Apply(s, ev) == s1 && s1 in Leaking(evs, sid)
    ensures s in Leaking([ev] + evs, sid)
  {
    RunCons(s, ev, s1, evs);
    assert ([ev] + evs)[1..] == evs;
  }

  lemma LeaksNow(s: State, env: Env, sid: nat)
    requires s in Sound() && LeakStep(s, Look(env), sid)
    ensures s in Leaking([Look(env)], sid)
  {
    ApplyKeeps(s, Look(env));
    RunCons(s, Look(env), LookAtNext(s, env), []);
    assert [Look(env)] + [] == [Look(env)];
  }

  // One lemma for each kind of step, so that the states below need not be taken apart.

  lemma ByArrival(s: State, b: Bundle, offload: Offload, dacs: DacsEnv, env: Env, s1: State, evs: seq<Event>, sid: nat)
    requires s in Sound() && BundleOk(b)
    ensures IndicesHold(s) && (StoreBundle(s, b, true, offload, dacs, env) == s1 ==> s1 in Sound())
    ensures StoreBundle(s, b, true, offload, dacs, env) == s1 && s1 in Leaking(evs, sid) ==>
      s in Leaking([Arrive(b, true, offload, dacs, env)] + evs, sid)
  {
    var ev := Arrive(b, true, offload, dacs, env);
    ApplyKeeps(s, ev);
    if Apply(s, ev) == s1 && s1 in Leaking(evs, sid) {
      LeaksLater(s, ev, s1, evs, sid);
    }
  }

  lemma ByRefGone(s: State, id: Id, s1: State, evs: seq<Event>, sid: nat)
    requires s in Sound() && id in s.refs
    ensures id in s.entries && (DestroyRef(s, id) == s1 ==> s1 in Sound())
    ensures DestroyRef(s, id) == s1 && s1 in Leaking(evs, sid) ==> s in Leaking([RefGone(id)] + evs, sid)
  {
    ApplyKeeps(s, RefGone(id));
    if Apply(s, RefGone(id)) == s1 && s1 in Leaking(evs, sid) {
      LeaksLater(s, RefGone(id), s1, evs, sid);
    }
  }

  lemma ByLook(s: State, id: Id, s0: State, env: Env, s1: State, evs: seq<Event>, sid: nat)
    requires s in Sound() && s.pending == [id] && s0 == s.(pending := [])
    ensures id in s0.entries && (s0.entries[id].state == Queue ==> s0.entries[id].ref.Some?)
    ensures Execute(s0, id, env) == s1 ==> s1 in Sound()
    ensures Execute(s0, id, env) == s1 && s1 in Leaking(evs, sid) ==> s in Leaking([Look(env)] + evs, sid)
  {
    PopDetaches(s);
    ApplyKeeps(s, Look(env));
    assert s.pending[1..] == [];
    if LookAtNext(s, env) == s1 && s1 in Leaking(evs, sid) {
      LeaksLater(s, Look(env), s1, evs, sid);
    }
  }

  lemma ByAck(s: State, flow: Addr, seqs: seq<nat>, s1: State, evs: seq<Event>, sid: nat)
    requires s in Sound()
    ensures IndicesHold(s) && (RemoteDacs(s, flow, seqs) == s1 ==> s1 in Sound())
    ensures RemoteDacs(s, flow, seqs) == s1 && s1 in Leaking(evs, sid) ==>
      s in Leaking([RemoteAck(flow, seqs)] + evs, sid)
  {
    ApplyKeeps(s, RemoteAck(flow, seqs));
    if RemoteDacs(s, flow, seqs) == s1 && s1 in Leaking(evs, sid) {
      LeaksLater(s, RemoteAck(flow, seqs), s1, evs, sid);
    }
  }

  lemma ByTick(s: State, clock: nat, evs: seq<Event>, sid: nat)
    requires s in Sound() && clock >= s.now
    ensures s.(now := clock) in Sound()
    ensures s.(now := clock) in Leaking(evs, sid) ==> s in Leaking([Tick(clock)] + evs, sid)
  {
    ApplyKeeps(s, Tick(clock));
    if s.(now := clock) in Leaking(evs, sid) {
      LeaksLater(s, Tick(clock), s.(now := clock), evs, sid);
    }
  }

  /** The run leads to a look at the expired entry, and the file stays after it. */
  lemma LateLookLeaks()
    ensures Init(1) in Leaking(LATE_RUN, 1)
  {
    InitInv(1);
    var env, b := Env(true, true), Expiring(2);
    var s1, s2 := OnlyEntry(1, Sent(true), [], [0], multiset{0}), OnlyEntry(1, Sent(false), [0], [], multiset{});
    var s3, s4 := OnlyEntry(1, Back(true), [], [0], multiset{}), OnlyEntry(1, Back(false), [0], [], multiset{});
    var evs5, evs4 := [Look(env)], [Tick(2)] + [Look(env)];
    var evs3 := [RemoteAck(SENDER, [0])] + evs4;
    var evs2 := [Look(env)] + evs3;
    var evs1 := [RefGone(0)] + evs2;
    LateArrive();
    ByArrival(Init(1), b, Saved, NO_DACS, env, s1, evs1, 1);
    LateGone();
    ByRefGone(s1, 0, s2, evs2, 1);
    LateLook();
    ByLook(s2, 0, OnlyEntry(1, Sent(false), [], [], multiset{}), env, s3, evs3, 1);
    LateAck();
    ByAck(s3, SENDER, [0], s4, evs4, 1);
    ByTick(s4, 2, evs5, 1);
    LeaksNow(s4.(now := 2), env, 1);
  }
}
