/** What every operation of the custody cache keeps. */
module CacheInv {
  import opened CacheModel

  // ----- lists ------------------------------------------------------------------------------

  lemma {:induction false} RemoveSpec(l: seq<Id>, x: Id)
    ensures multiset(Remove(l, x)) == multiset(l)[x := 0]
    ensures forall y :: y in Remove(l, x) <==> y in l && y != x
    decreases l
  {
    if l != [] {
      RemoveSpec(l[1..], x);
      assert l == [l[0]] + l[1..];
    }
  }

  ghost function Lists(s: State): multiset<Id> {
    multiset(s.pending) + multiset(s.idle) + multiset(s.recycle)
  }

  /** Every entry is on exactly one list, but for those that are held by the operation under way. */
  ghost predicate Placed(s: State, held: multiset<Id>) {
    Lists(s) + held == multiset(s.entries.Keys)
  }

  ghost predicate OnOneList(s: State) { Placed(s, multiset{}) }

  // ----- one entry ----------------------------------------------------------------------------

  predicate Live(e: Entry) { e.state != Undefined }

  predicate DeliveryOk(d: Delivery) { d.egressed ==> d.egressTime > 0 }

  /** The bundle was never to be written, or was written and can be read back. */
  predicate Safe(who: Identity) { who.sid == 0 || who.saved }

  /** A copy is in flight only in the queue state, and the queue state has the bundle at hand. */
  ghost predicate FlightOk(e: Entry) {
    && (e.flags.queued ==> e.state == Queue)
    && (e.state == Queue ==> e.ref.Some? && e.flags.forward)
    && (e.ref.Some? ==> DeliveryOk(e.ref.value) && (Safe(e.who) ==> e.ref.value.intact))
  }

  /** Custody is never held without the bundle or a place in the store; after custody only metadata is left. */
  ghost predicate CustodyOk(e: Entry) {
    && (Live(e) && e.flags.custody && e.who.fromRef ==> e.ref.Some? || e.who.sid != 0)
    && (e.state == Delete ==> !e.flags.custody && e.ref.None?)
  }

  /** Metadata is waiting out its time since the last hit, or has been hit since it was last checked. */
  ghost predicate AgeOk(e: Entry, now: nat) {
    && (Live(e) && e.state != Delete ==> e.flags.activity)
    && (e.state == Delete && !e.flags.activity ==> e.flags.timeWait && e.actionTime >= e.lastHit + AGE_OUT_TIME)
    && e.lastHit <= now
    && (e.flags.timeWait ==> e.actionTime > 0)
  }

  ghost predicate PayloadOk(e: Entry) { |e.seqs| <= MAX_SEQ_PER_PAYLOAD && NoRepeats(e.seqs) }

  ghost predicate EntryOk(e: Entry, now: nat) {
    FlightOk(e) && CustodyOk(e) && AgeOk(e, now) && PayloadOk(e)
  }

  ghost predicate NoRepeats(l: seq<nat>) { forall i, j :: 0 <= i < j < |l| ==> l[i] != l[j] }

  // ----- the indices ---------------------------------------------------------------------------

  /** Open acknowledgements: under construction, not full, and one per custodian and flow. */
  ghost predicate DacsOk(s: State) {
    && (forall id :: id in s.dacsIndex ==> id in s.entries)
    && (forall id :: id in s.dacsIndex ==>
          s.entries[id].state == GenerateDacs && |s.entries[id].seqs| < MAX_SEQ_PER_PAYLOAD)
    && (forall a, b :: a in s.dacsIndex && b in s.dacsIndex && a != b ==>
          s.entries[a].who.custodian != s.entries[b].who.custodian || s.entries[a].who.acked != s.entries[b].who.acked)
  }

  ghost predicate BundlesOk(s: State) {
    && (forall id :: id in s.bundleIndex ==> id in s.entries)
    && (forall id :: id in s.bundleIndex ==> id !in s.dacsIndex)
    && (forall a, b :: a in s.bundleIndex && b in s.bundleIndex && a != b ==>
          s.entries[a].who.flow != s.entries[b].who.flow || s.entries[a].who.seqNum != s.entries[b].who.seqNum)
  }

  // ----- the store -----------------------------------------------------------------------------

  /** Storage identifiers are used once. */
  ghost predicate SidsOk(s: State) {
    && (forall id :: id in s.entries ==> s.entries[id].who.sid <= s.lastSid)
    && (forall a, b :: a in s.entries && b in s.entries && a != b && s.entries[a].who.sid != 0 ==>
          s.entries[a].who.sid != s.entries[b].who.sid)
    && (forall sid :: sid in s.released ==> sid <= s.lastSid)
    && (forall id :: id in s.entries && s.entries[id].who.saved ==> s.entries[id].who.sid != 0)
  }

  /** A file was not released, holds the bundle of its entry exactly if that is known, and is gone when the entry
      is held over. */
  ghost predicate FilesOk(s: State) {
    && (forall sid :: sid in s.files ==> 0 < sid <= s.lastSid && sid !in s.released && DeliveryOk(s.files[sid]))
    && (forall id :: id in s.entries && s.entries[id].state == Delete ==> s.entries[id].who.sid !in s.files)
    && (forall id :: id in s.entries && s.entries[id].who.sid in s.files ==>
          s.files[s.entries[id].who.sid].intact == s.entries[id].who.saved)
  }

  /** The file of an entry that may still be restored is there if it was written, and was not released. */
  ghost predicate StoreOk(s: State) {
    && SidsOk(s) && FilesOk(s)
    && (forall id ::
          id in s.entries && Live(s.entries[id]) && s.entries[id].state != Delete && s.entries[id].who.sid != 0 ==>
          s.entries[id].who.sid !in s.released && (s.entries[id].who.saved ==> s.entries[id].who.sid in s.files))
  }

  /** `LOCALLY_QUEUED` is set exactly when one undestroyed copy exists. */
  ghost predicate RefsOk(s: State) {
    && (forall id :: id in s.refs ==> id in s.entries)
    && (forall id :: id in s.entries ==> s.refs[id] == if s.entries[id].flags.queued then 1 else 0)
  }

  /** The timer of an idle entry: within the hour, and no later than the action it waits for. */
  ghost predicate TimerOk(e: Entry, now: nat) {
    && Live(e) && 0 < e.timeKey <= now + IDLE_RETRY_TIME
    && (e.flags.timeWait ==> e.timeKey <= e.actionTime)
  }

  /** An idle entry has a timer; a discarded one is dead. */
  ghost predicate PlacesOk(s: State) {
    && (forall id :: id in s.idle && id in s.entries ==> TimerOk(s.entries[id], s.now))
    && (forall id :: id in s.recycle && id in s.entries ==> !Live(s.entries[id]))
  }

  ghost predicate EntriesOk(s: State) {
    && s.now > 0
    && (forall id :: id in s.entries ==> id < s.nextId && EntryOk(s.entries[id], s.now))
  }

  /** Everything but where the entries are. */
  ghost predicate Core(s: State) {
    EntriesOk(s) && DacsOk(s) && BundlesOk(s) && StoreOk(s) && RefsOk(s)
  }

  ghost predicate InvHolding(s: State, held: multiset<Id>) { Core(s) && Placed(s, held) && PlacesOk(s) }

  ghost predicate Inv(s: State) { InvHolding(s, multiset{}) }

  // ----- moving between lists ------------------------------------------------------------------

  lemma MakePendingLists(s: State, id: Id, held: multiset<Id>)
    requires Placed(s, held) && PlacesOk(s) && id in s.entries && id !in held
    ensures Placed(MakePending(s, id), held) && PlacesOk(MakePending(s, id))
  {
    RemoveSpec(s.pending, id);
    RemoveSpec(s.idle, id);
    RemoveSpec(s.recycle, id);
    var s' := MakePending(s, id);
    assert (Lists(s) + held)[id] == 1;
    assert Lists(s') == Lists(s);
  }

  lemma MakePendingKeeps(s: State, id: Id, held: multiset<Id>)
    requires InvHolding(s, held) && id in s.entries && id !in held
    ensures InvHolding(MakePending(s, id), held)
  {
    MakePendingLists(s, id, held);
  }

  // ----- evaluation ----------------------------------------------------------------------------

  /** The entry is on no list. */
  ghost predicate Detached(s: State, id: Id) {
    id in s.entries && Placed(s, multiset{id})
  }

  ghost predicate CanSettle(now: nat, e: Entry, restored: Option<Delivery>) {
    now > 0 && FlightOk(e) && CustodyOk(e) && AgeOk(e, now)
    && (restored.Some? ==> DeliveryOk(restored.value) && (e.who.saved ==> restored.value.intact))
  }

  /** The evaluated entry is in order and has the fixed parts of the old one. */
  ghost predicate SettlesTo(now: nat, e: Entry, restored: Option<Delivery>, e': Entry) {
    && FlightOk(e') && CustodyOk(e') && AgeOk(e', now)
    && e'.state == Evaluated(now, e, restored).0 && e'.who == e.who && e'.seqs == e.seqs && e'.lastHit == e.lastHit
  }

  lemma IdleEvaluated(now: nat, e: Entry, restored: Option<Delivery>)
    requires CanSettle(now, e, restored) && e.state == Idle
    ensures var (next, e1) := Evaluated(now, e, restored);
      && CanSettle(now, e1, restored) && e1.state == Idle
      && e1.who == e.who && e1.seqs == e.seqs && e1.lastHit == e.lastHit
      && (next == Queue ==> e1.ref.Some?) && (next == Delete ==> !e1.flags.custody) && next != GenerateDacs
  {
  }

  lemma MovedFromIdle(now: nat, e: Entry, next: Fsm, ok: bool)
    requires CanSettle(now, e, None) && e.state == Idle && next != Idle && next != GenerateDacs
    requires (next == Queue ==> e.ref.Some?) && (next == Delete ==> !e.flags.custody)
    ensures var e' := Moved(now, e, next, ok);
      && FlightOk(e') && CustodyOk(e') && AgeOk(e', now)
      && e'.state == next && e'.who == e.who && e'.seqs == e.seqs && e'.lastHit == e.lastHit
  {
  }

  lemma SettledIdle(now: nat, e: Entry, restored: Option<Delivery>, ok: bool)
    requires CanSettle(now, e, restored) && e.state == Idle
    ensures SettlesTo(now, e, restored, Settled(now, e, restored, ok))
  {
    IdleEvaluated(now, e, restored);
    var (next, e1) := Evaluated(now, e, restored);
    if next != Idle {
      MovedFromIdle(now, e1, next, ok);
    }
  }

  lemma SettledQueue(now: nat, e: Entry, restored: Option<Delivery>, ok: bool)
    requires CanSettle(now, e, restored) && e.state == Queue
    ensures SettlesTo(now, e, restored, Settled(now, e, restored, ok))
  {
    var e1 := CheckTimer(now, e);
    assert Evaluated(now, e, restored) == (if e.flags.queued then Queue else Idle, e1);
    MovedFromQueue(now, e1, ok);
  }

  lemma MovedFromQueue(now: nat, e: Entry, ok: bool)
    requires CanSettle(now, e, None) && e.state == Queue
    ensures !e.flags.queued ==>
      var e' := Moved(now, e, Idle, ok);
      && FlightOk(e') && CustodyOk(e') && AgeOk(e', now)
      && e'.state == Idle && e'.who == e.who && e'.seqs == e.seqs && e'.lastHit == e.lastHit
  {
  }

  lemma SettledDelete(now: nat, e: Entry, restored: Option<Delivery>, ok: bool)
    requires CanSettle(now, e, restored) && e.state == Delete
    ensures SettlesTo(now, e, restored, Settled(now, e, restored, ok))
  {
  }

  lemma SettledDacs(now: nat, e: Entry, restored: Option<Delivery>, ok: bool)
    requires CanSettle(now, e, restored) && e.state == GenerateDacs
    ensures SettlesTo(now, e, restored, Settled(now, e, restored, ok))
  {
  }

  lemma SettledOk(now: nat, e: Entry, restored: Option<Delivery>, ok: bool)
    requires CanSettle(now, e, restored)
    ensures SettlesTo(now, e, restored, Settled(now, e, restored, ok))
  {
    match e.state
    case Idle => SettledIdle(now, e, restored, ok);
    case Queue => SettledQueue(now, e, restored, ok);
    case Delete => SettledDelete(now, e, restored, ok);
    case GenerateDacs => SettledDacs(now, e, restored, ok);
    case Undefined =>
  }

  /** How an evaluation may change an entry, as far as the rest of the cache is concerned. */
  ghost predicate Follows(now: nat, e: Entry, e': Entry, refAllocOk: bool) {
    && EntryOk(e', now) && e'.who == e.who && e'.seqs == e.seqs && e'.lastHit == e.lastHit
    && e'.flags.queued == (e.flags.queued || (e'.state == Queue && e.state != Queue && refAllocOk))
    && (e'.state == GenerateDacs ==> e.state == GenerateDacs)
    && (e.state == Delete || !Live(e) ==> e'.state == Delete || !Live(e'))
  }

  lemma SettledFollows(now: nat, e: Entry, restored: Option<Delivery>, ok: bool)
    requires CanSettle(now, e, restored) && PayloadOk(e)
    ensures Follows(now, e, Settled(now, e, restored, ok), ok)
  {
    SettledOk(now, e, restored, ok);
  }

  // ----- execution -----------------------------------------------------------------------------

  lemma DetachedAbsent(s: State, id: Id)
    requires Detached(s, id)
    ensures id !in s.pending && id !in s.idle && id !in s.recycle
  {
    assert (Lists(s) + multiset{id})[id] == 1;
  }

  /** Where the entry is after `Commit`. */
  ghost predicate CommittedPlace(s: State, id: Id, e: Entry, s': State) {
    && s'.entries == s.entries[id := if Live(e) then e.(timeKey := NextLook(s.now, e)) else e]
    && s'.idle == (if Live(e) then s.idle + [id] else s.idle)
    && s'.recycle == (if Live(e) then s.recycle else s.recycle + [id])
  }

  /** What the state change does outside the entry. */
  ghost predicate CommittedEffects(s: State, id: Id, was: Fsm, next: Fsm, sid: nat, env: Env, s': State) {
    && s'.dacsIndex == (if was == GenerateDacs && next != GenerateDacs then Remove(s.dacsIndex, id) else s.dacsIndex)
    && s'.refs == (if was != Queue && next == Queue && env.refAllocOk then s.refs + multiset{id} else s.refs)
    && var release := was != Delete && next == Delete && sid != 0;
       s'.files == (if release then s.files - {sid} else s.files)
       && s'.released == (if release then s.released + {sid} else s.released)
  }

  /** The fields of the state after `Commit`. */
  ghost predicate Committed(s: State, id: Id, e: Entry, env: Env, s': State)
    requires id in s.entries
  {
    && s'.now == s.now && s'.nextId == s.nextId && s'.lastSid == s.lastSid
    && s'.pending == s.pending && s'.bundleIndex == s.bundleIndex
    && CommittedPlace(s, id, e, s')
    && CommittedEffects(s, id, s.entries[id].state, e.state, s.entries[id].who.sid, env, s')
  }

  lemma CommitShape(s: State, id: Id, e: Entry, env: Env)
    requires id in s.entries
    ensures Committed(s, id, e, env, Commit(s, id, e, env))
  {
  }

  /** `s1` is `s` with the evaluated entry and the effects of its transition. */
  ghost predicate SettledIn(s: State, id: Id, e: Entry, env: Env, s1: State)
    requires id in s.entries
  {
    && s1 == s.(entries := s.entries[id := e], dacsIndex := s1.dacsIndex, refs := s1.refs, files := s1.files,
      released := s1.released)
    && CommittedEffects(s, id, s.entries[id].state, e.state, s.entries[id].who.sid, env, s1)
  }

  /** `s2` is `s1` with the entry put in its place. */
  ghost predicate PlacedIn(s1: State, id: Id, e: Entry, s2: State) {
    s2 == s1.(entries := s2.entries, idle := s2.idle, recycle := s2.recycle) && CommittedPlace(s1, id, e, s2)
  }

  lemma CommittedIs(s: State, id: Id, e: Entry, env: Env, s1: State, s2: State)
    requires id in s.entries
    ensures SettledIn(s, id, e, env, s1) && PlacedIn(s1, id, e, s2) ==> s2 == Commit(s, id, e, env)
  {
    if SettledIn(s, id, e, env, s1) && PlacedIn(s1, id, e, s2) {
      assert Committed(s, id, e, env, s2);
    }
  }

  lemma CommitLists(s: State, id: Id, e: Entry, env: Env, s': State)
    requires EntriesOk(s) && PlacesOk(s) && Detached(s, id) && EntryOk(e, s.now) && Committed(s, id, e, env, s')
    ensures OnOneList(s') && PlacesOk(s')
  {
    DetachedAbsent(s, id);
    assert Lists(s') == Lists(s) + multiset{id};
    assert s'.entries.Keys == s.entries.Keys;
    assert Live(e) ==> TimerOk(e.(timeKey := NextLook(s.now, e)), s.now);
  }

  lemma CommitStore(s: State, id: Id, e: Entry, env: Env, s': State)
    requires StoreOk(s) && id in s.entries && Follows(s.now, s.entries[id], e, env.refAllocOk)
    requires Committed(s, id, e, env, s')
    ensures StoreOk(s')
  {
    assert forall x :: x in s'.entries ==> s'.entries[x].who == s.entries[x].who;
    CommitFiles(s, id, e, env, s');
  }

  lemma CommitFiles(s: State, id: Id, e: Entry, env: Env, s': State)
    requires SidsOk(s) && FilesOk(s) && id in s.entries && e.who == s.entries[id].who && Committed(s, id, e, env, s')
    ensures SidsOk(s') && FilesOk(s')
  {
    assert forall x :: x in s'.entries ==> s'.entries[x].who == s.entries[x].who;
  }

  lemma CommitIndices(s: State, id: Id, e: Entry, env: Env, s': State)
    requires DacsOk(s) && BundlesOk(s) && id in s.entries && Follows(s.now, s.entries[id], e, env.refAllocOk)
    requires Committed(s, id, e, env, s')
    ensures DacsOk(s') && BundlesOk(s')
  {
    RemoveSpec(s.dacsIndex, id);
    assert forall x :: x in s'.entries ==> s'.entries[x].who == s.entries[x].who;
  }

  lemma CommitRefs(s: State, id: Id, e: Entry, env: Env, s': State)
    requires RefsOk(s) && id in s.entries && Follows(s.now, s.entries[id], e, env.refAllocOk)
    requires FlightOk(s.entries[id]) && Committed(s, id, e, env, s')
    ensures RefsOk(s')
  {
    assert forall x :: x in s.entries && x != id ==> s'.entries[x] == s.entries[x] && s'.refs[x] == s.refs[x];
  }

  lemma CommitEntries(s: State, id: Id, e: Entry, env: Env, s': State)
    requires EntriesOk(s) && id in s.entries && EntryOk(e, s.now) && Committed(s, id, e, env, s')
    ensures EntriesOk(s')
  {
    assert forall x :: x in s.entries && x != id ==> s'.entries[x] == s.entries[x];
  }

  /** Evaluating an entry that was taken off its list keeps everything. */
  lemma ExecuteKeeps(s: State, id: Id, env: Env)
    requires Core(s) && PlacesOk(s) && Detached(s, id)
    ensures Inv(Execute(s, id, env))
  {
    var e := s.entries[id];
    var restored := Restored(s, e, env);
    var e' := Settled(s.now, e, restored, env.refAllocOk);
    var s' := Execute(s, id, env);
    SettledFollows(s.now, e, restored, env.refAllocOk);
    CommitShape(s, id, e', env);
    CommitLists(s, id, e', env, s');
    CommitStore(s, id, e', env, s');
    CommitIndices(s, id, e', env, s');
    CommitRefs(s, id, e', env, s');
    CommitEntries(s, id, e', env, s');
  }

  // ----- smaller changes of one entry ------------------------------------------------------------

  /** A change of flags, timer or delivery data within a state. */
  ghost predicate Tweaks(s: State, id: Id, e: Entry) {
    && id in s.entries
    && var was := s.entries[id];
       && EntryOk(e, s.now) && e.state == was.state && e.who == was.who && e.seqs == was.seqs
       && e.flags.queued == was.flags.queued && (id in s.idle ==> TimerOk(e, s.now))
  }

  /** The entries that are left have the same state and identity. */
  ghost predicate SameKinds(s: State, s': State) {
    && s'.entries.Keys <= s.entries.Keys
    && forall x :: x in s'.entries ==>
         s'.entries[x].who == s.entries[x].who && s'.entries[x].state == s.entries[x].state
  }

  /** The entries that are left also have the same payload. */
  ghost predicate SameParts(s: State, s': State) {
    SameKinds(s, s') && forall x :: x in s'.entries ==> s'.entries[x].seqs == s.entries[x].seqs
  }

  lemma StoreKept(s: State, s': State)
    requires StoreOk(s) && SameKinds(s, s') && s'.lastSid == s.lastSid
    requires s'.files == s.files && s'.released == s.released
    ensures StoreOk(s')
  {
  }

  lemma IndicesKept(s: State, s': State)
    requires DacsOk(s) && BundlesOk(s) && SameParts(s, s')
    requires forall x :: x in s'.dacsIndex ==> x in s.dacsIndex && x in s'.entries
    requires forall x :: x in s'.bundleIndex ==> x in s.bundleIndex && x in s'.entries
    ensures DacsOk(s') && BundlesOk(s')
  {
  }

  lemma PutParts(s: State, id: Id, e: Entry)
    requires id in s.entries && e.who == s.entries[id].who
    requires e.state == s.entries[id].state && e.seqs == s.entries[id].seqs
    ensures SameParts(s, Put(s, id, e)) && Put(s, id, e).entries.Keys == s.entries.Keys
  {
  }

  lemma PutPlaces(s: State, id: Id, e: Entry)
    requires PlacesOk(s) && OnOneList(s) && RefsOk(s) && EntriesOk(s) && Tweaks(s, id, e)
    ensures var s' := Put(s, id, e); PlacesOk(s') && OnOneList(s') && RefsOk(s') && EntriesOk(s')
  {
    assert Put(s, id, e).entries.Keys == s.entries.Keys;
  }

  lemma PutKeeps(s: State, id: Id, e: Entry)
    requires Inv(s) && Tweaks(s, id, e)
    ensures Inv(Put(s, id, e))
  {
    PutParts(s, id, e);
    PutPlaces(s, id, e);
    StoreKept(s, Put(s, id, e));
    IndicesKept(s, Put(s, id, e));
  }

  lemma TouchKeeps(s: State, id: Id)
    requires Inv(s) && id in s.entries
    ensures Inv(Touch(s, id))
  {
    var e := s.entries[id];
    PutKeeps(s, id, e.(flags := e.flags.(activity := true), lastHit := s.now));
  }

  lemma ReleasedKeeps(s: State, id: Id)
    requires Inv(s) && id in s.entries
    ensures Inv(Released(s, id))
  {
    TouchKeeps(s, id);
    var s1 := Touch(s, id);
    var e := s1.entries[id];
    PutKeeps(s1, id, e.(flags := e.flags.(custody := false)));
    MakePendingKeeps(Put(s1, id, e.(flags := e.flags.(custody := false))), id, multiset{});
  }

  lemma EgressKeeps(s: State, id: Id, clock: nat)
    requires Inv(s) && id in s.entries && s.entries[id].ref.Some? && clock > 0
    ensures Inv(Egress(s, id, clock))
  {
    var e := s.entries[id];
    PutKeeps(s, id, e.(ref := Some(e.ref.value.(egressed := true, egressTime := clock))));
  }

  lemma {:induction false} RemoteDacsKeeps(s: State, flow: Addr, seqs: seq<nat>)
    requires Inv(s)
    ensures Inv(RemoteDacs(s, flow, seqs))
    decreases |seqs|
  {
    if seqs != [] {
      FindBundleIn(s, s.bundleIndex, flow, seqs[0]);
      match FindBundle(s, s.bundleIndex, flow, seqs[0])
      case None => RemoteDacsKeeps(s, flow, seqs[1..]);
      case Some(id) =>
        ReleasedKeeps(s, id);
        RemoteDacsKeeps(Released(s, id), flow, seqs[1..]);
    }
  }

  lemma {:induction false} TakeDueKeeps(s: State, due: seq<Id>)
    requires Inv(s) && forall id :: id in due ==> id in s.entries
    ensures Inv(TakeDue(s, due))
    decreases |due|
  {
    if due != [] {
      var id := due[0];
      MakePendingKeeps(s, id, multiset{});
      var s1 := MakePending(s, id);
      RemoveSpec(s.idle, id);
      PutKeeps(s1, id, s1.entries[id].(timeKey := 0));
      TakeDueKeeps(Put(s1, id, s1.entries[id].(timeKey := 0)), due[1..]);
    }
  }

  lemma DestroyRefKeeps(s: State, id: Id)
    requires Inv(s) && id in s.refs
    ensures id in s.entries && Inv(DestroyRef(s, id))
  {
    var e := s.entries[id].(flags := s.entries[id].flags.(queued := false));
    var s1 := Put(s.(refs := s.refs - multiset{id}), id, e);
    PutParts(s, id, e);
    StoreKept(s, s1);
    IndicesKept(s, s1);
    DropRef(s, id, e, s1);
    MakePendingKeeps(s1, id, multiset{});
  }

  lemma DropRef(s: State, id: Id, e: Entry, s1: State)
    requires EntriesOk(s) && RefsOk(s) && OnOneList(s) && PlacesOk(s) && id in s.refs
    requires e == s.entries[id].(flags := s.entries[id].flags.(queued := false))
    requires s1 == Put(s.(refs := s.refs - multiset{id}), id, e)
    ensures EntriesOk(s1) && RefsOk(s1) && OnOneList(s1) && PlacesOk(s1)
  {
    assert EntryOk(e, s.now) by { assert EntryOk(s.entries[id], s.now); }
    DropRefCounts(s, id, e, s1);
    DropRefPlaces(s, id, e, s1);
  }

  lemma DropRefPlaces(s: State, id: Id, e: Entry, s1: State)
    requires OnOneList(s) && PlacesOk(s) && id in s.entries
    requires e == s.entries[id].(flags := s.entries[id].flags.(queued := false))
    requires s1 == s.(entries := s.entries[id := e], refs := s1.refs)
    ensures OnOneList(s1) && PlacesOk(s1)
  {
    assert s1.entries.Keys == s.entries.Keys;
  }

  lemma DropRefCounts(s: State, id: Id, e: Entry, s1: State)
    requires RefsOk(s) && id in s.refs && !e.flags.queued
    requires s1.entries == s.entries[id := e] && s1.refs == s.refs - multiset{id}
    ensures RefsOk(s1)
  {
  }

  /** The collector only destroys entries no copy refers to. */
  lemma DestroyEntryKeeps(s: State, id: Id)
    requires Inv(s) && id in s.recycle
    ensures Inv(DestroyEntry(s, id)) && s.refs[id] == 0
  {
    RecycledEntry(s, id);
    var s' := DestroyEntry(s, id);
    DestroyLists(s, id);
    StoreKept(s, s');
    DestroyIndices(s, id);
  }

  lemma DestroyIndices(s: State, id: Id)
    requires DacsOk(s) && BundlesOk(s)
    ensures DacsOk(DestroyEntry(s, id)) && BundlesOk(DestroyEntry(s, id))
  {
    RemoveSpec(s.bundleIndex, id);
    RemoveSpec(s.dacsIndex, id);
    IndicesKept(s, DestroyEntry(s, id));
  }

  lemma RecycledEntry(s: State, id: Id)
    requires OnOneList(s) && id in s.recycle
    ensures id in s.entries && Lists(s)[id] == 1
  {
    assert id in Lists(s) + multiset{};
  }

  lemma DestroyLists(s: State, id: Id)
    requires OnOneList(s) && PlacesOk(s) && id in s.recycle
    ensures OnOneList(DestroyEntry(s, id)) && PlacesOk(DestroyEntry(s, id))
  {
    RecycledEntry(s, id);
    RemoveSpec(s.recycle, id);
    var s' := DestroyEntry(s, id);
    assert Lists(s') == Lists(s) - multiset{id};
    assert multiset(s'.entries.Keys) == multiset(s.entries.Keys) - multiset{id};
  }
}
