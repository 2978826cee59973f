/** Runs of the custody cache: what every step and every run keeps. */
module CacheRun {
  import opened CacheModel
  import opened CacheInv
  import opened CacheArrive

  /** The steps of the cache.  `Look` is one turn of the loop over the pending list. */
  datatype Event =
    | Tick(clock: nat)
    | Arrive(b: Bundle, allocOk: bool, offload: Offload, dacs: DacsEnv, env: Env)
    | RemoteAck(flow: Addr, seqs: seq<nat>)
    | Poll(bound: nat, due: seq<Id>)
    | Look(env: Env)
    | Send(id: Id, clock: nat)
    | RefGone(id: Id)
    | EntryGone(id: Id)

  function Init(now: nat): State {
    State(now, map[], 0, [], [], [], multiset{}, [], [], map[], 0, {})
  }

  /** What a poll takes from the time index: every entry whose time has come, and possibly one more. */
  ghost predicate DueOk(s: State, bound: nat, due: seq<Id>) {
    && (forall i :: 0 <= i < |due| ==> due[i] in s.entries && s.entries[due[i]].timeKey != 0)
    && (forall id :: id in s.entries && 0 < s.entries[id].timeKey <= bound ==> id in due)
  }

  /** What the surroundings may do: the clock does not go back, only copies in flight are sent or
      destroyed, and the collector only takes what was discarded. */
  ghost predicate Enabled(s: State, ev: Event) {
    match ev
    case Tick(clock) => clock >= s.now
    case Arrive(b, _, _, _, _) => BundleOk(b)
    case RemoteAck(_, _) => true
    case Poll(bound, due) => DueOk(s, bound, due)
    case Look(_) => true
    case Send(id, clock) => id in s.refs && clock > 0
    case RefGone(id) => id in s.refs
    case EntryGone(id) => id in s.recycle
  }

  ghost function Apply(s: State, ev: Event): State
    requires Inv(s) && Enabled(s, ev)
  {
    match ev
    case Tick(clock) => s.(now := clock)
    case Arrive(b, allocOk, offload, dacs, env) => StoreBundle(s, b, allocOk, offload, dacs, env)
    case RemoteAck(flow, seqs) => RemoteDacs(s, flow, seqs)
    case Poll(bound, due) => TakeDue(s, due)
    case Look(env) => LookAtNext(s, env)
    case Send(id, clock) => InFlight(s, id); Egress(s, id, clock)
    case RefGone(id) => DestroyRef(s, id)
    case EntryGone(id) => DestroyEntry(s, id)
  }

  /** Evaluate the head of the pending list. */
  ghost function LookAtNext(s: State, env: Env): State
    requires Inv(s)
  {
    if s.pending == [] then s
    else PopDetaches(s); Execute(s.(pending := s.pending[1..]), s.pending[0], env)
  }

  lemma PopDetaches(s: State)
    requires Inv(s) && s.pending != []
    ensures var s1 := s.(pending := s.pending[1..]);
      Core(s1) && PlacesOk(s1) && Detached(s1, s.pending[0]) && FlightOk(s.entries[s.pending[0]])
  {
    var s1, id := s.(pending := s.pending[1..]), s.pending[0];
    assert s.pending == [id] + s.pending[1..];
    assert Lists(s) == Lists(s1) + multiset{id};
    assert id in Lists(s) + multiset{};
    assert EntryOk(s.entries[id], s.now);
  }

  /** A copy in flight belongs to a live entry in the queue state that still has its bundle. */
  lemma InFlight(s: State, id: Id)
    requires Inv(s) && id in s.refs
    ensures id in s.entries && s.entries[id].ref.Some? && s.entries[id].state == Queue
    ensures s.refs[id] == 1 && s.entries[id].flags.queued && id !in s.recycle
  {
    assert EntryOk(s.entries[id], s.now);
  }

  lemma TickKeeps(s: State, clock: nat)
    requires Inv(s) && clock >= s.now
    ensures Inv(s.(now := clock))
  {
    assert forall id :: id in s.entries ==> EntryOk(s.entries[id], s.now);
  }

  lemma ApplyKeeps(s: State, ev: Event)
    requires Inv(s) && Enabled(s, ev)
    ensures Inv(Apply(s, ev))
  {
    match ev
    case Tick(clock) => TickKeeps(s, clock);
    case Arrive(b, allocOk, offload, dacs, env) => StoreBundleKeeps(s, b, allocOk, offload, dacs, env);
    case RemoteAck(flow, seqs) => RemoteDacsKeeps(s, flow, seqs);
    case Poll(bound, due) => TakeDueKeeps(s, due);
    case Look(env) =>
      if s.pending != [] {
        PopDetaches(s);
        ExecuteKeeps(s.(pending := s.pending[1..]), s.pending[0], env);
      }
    case Send(id, clock) =>
      InFlight(s, id);
      EgressKeeps(s, id, clock);
    case RefGone(id) => DestroyRefKeeps(s, id);
    case EntryGone(id) => DestroyEntryKeeps(s, id);
  }

  /** The events can happen one after the other. */
  ghost predicate CanRun(s: State, evs: seq<Event>)
    requires Inv(s)
    decreases |evs|
  {
    evs != [] ==> Enabled(s, evs[0]) && (ApplyKeeps(s, evs[0]); CanRun(Apply(s, evs[0]), evs[1..]))
  }

  ghost function Run(s: State, evs: seq<Event>): (s': State)
    requires Inv(s) && CanRun(s, evs)
    ensures Inv(s')
    decreases |evs|
  {
    if evs == [] then s
    else ApplyKeeps(s, evs[0]); Run(Apply(s, evs[0]), evs[1..])
  }

  lemma InitInv(now: nat)
    requires now > 0
    ensures Inv(Init(now))
  {
  }
}
