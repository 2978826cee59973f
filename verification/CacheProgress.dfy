/** Entries move on: what a number of polls achieves. */
module CacheProgress {
  import opened CacheModel
  import opened CacheInv
  import opened CacheRun
  import opened CacheTheorems

  // ----- one look --------------------------------------------------------------------------------

  /** What the store has for an entry. */
  function FileOf(s: State, who: Identity): Option<Delivery> {
    if who.sid in s.files then Some(s.files[who.sid]) else None
  }

  /** An entry after an evaluation, with its new timer. */
  function After(now: nat, e: Entry, file: Option<Delivery>, env: Env): Entry
    requires e.state == Queue ==> e.ref.Some?
  {
    var e1 := Settled(now, e, if env.restoreOk then file else None, env.refAllocOk);
    if Live(e1) then e1.(timeKey := NextLook(now, e1)) else e1
  }

  /** The bundle of an entry and its file are `e` and `file` in the state `s`. */
  ghost predicate Has(s: State, id: Id, e: Entry, file: Option<Delivery>) {
    id in s.entries && s.entries[id] == e && FileOf(s, e.who) == file
  }

  /** The evaluation of `e` led to `e'`, and took the file with it if the entry has been let go. */
  ghost predicate Seen(s: State, id: Id, e: Entry, file: Option<Delivery>, e': Entry) {
    Has(s, id, e', if e.state != Delete && e'.state == Delete && e.who.sid != 0 then None else file)
  }

  lemma LookAtSelf(s: State, env: Env, id: Id)
    requires Inv(s) && s.pending != [] && s.pending[0] == id
    ensures id in s.entries && (s.entries[id].state == Queue ==> s.entries[id].ref.Some?)
    ensures var e, file := s.entries[id], FileOf(s, s.entries[id].who);
      Seen(LookAtNext(s, env), id, e, file, After(s.now, e, file, env)) && LookAtNext(s, env).now == s.now
    ensures id !in LookAtNext(s, env).pending
  {
    PopDetaches(s);
    LookPops(s, env);
    var s0, e := s.(pending := s.pending[1..]), s.entries[id];
    DetachedAbsent(s0, id);
    CommitShape(s0, id, Settled(s.now, e, Restored(s0, e, env), env.refAllocOk), env);
    SettledFollows(s.now, e, Restored(s0, e, env), env.refAllocOk);
  }

  /** The next look at an entry that has nothing to wait for is three seconds on; at any other it is an hour on, or
      at the time that it waits for if that comes first. */
  lemma NextLookTime(s: State, env: Env, id: Id)
    requires Inv(s) && s.pending != [] && s.pending[0] == id
    ensures var s' := LookAtNext(s, env);
      id in s'.entries && (Live(s'.entries[id]) ==>
        var e := s'.entries[id];
        && (!e.flags.timeWait && !e.flags.queued ==> e.timeKey == s.now + 3000)
        && (!e.flags.timeWait && e.flags.queued ==> e.timeKey == s.now + 3600000)
        && (e.flags.timeWait ==>
              e.timeKey == if e.actionTime < s.now + 3600000 then e.actionTime else s.now + 3600000))
  {
    LookAtSelf(s, env, id);
  }

  lemma LookAtOther(s: State, env: Env, id: Id)
    requires Inv(s) && id in s.entries && (s.pending == [] || s.pending[0] != id)
    ensures Has(LookAtNext(s, env), id, s.entries[id], FileOf(s, s.entries[id].who)) && LookAtNext(s, env).now == s.now
    ensures id in LookAtNext(s, env).pending <==> id in s.pending
  {
    if s.pending != [] {
      PopDetaches(s);
      LookPops(s, env);
      var x := s.pending[0];
      var s0, e := s.(pending := s.pending[1..]), s.entries[x];
      OtherCommitted(s0, x, Settled(s.now, e, Restored(s0, e, env), env.refAllocOk), env, id);
      assert s.pending == [x] + s0.pending;
    }
  }

  lemma OtherCommitted(s: State, x: Id, e: Entry, env: Env, id: Id)
    requires StoreOk(s) && x in s.entries && id in s.entries && x != id
    ensures Has(Commit(s, x, e, env), id, s.entries[id], FileOf(s, s.entries[id].who))
    ensures Commit(s, x, e, env).now == s.now
  {
    CommitShape(s, x, e, env);
    assert s.entries[id].who.sid in s.files ==> s.entries[id].who.sid != s.entries[x].who.sid;
  }

  // ----- the looks of one round ---------------------------------------------------------------------

  /** The state after a number of looks. */
  ghost function LooksEnd(s: State, envs: seq<Env>): State
    requires s in Sound()
  {
    LooksRun(s, envs);
    Run(s, Looks(envs))
  }

  lemma LooksRun(s: State, envs: seq<Env>)
    requires Inv(s)
    ensures CanRun(s, Looks(envs))
  {
    var look := CacheLooks();
    FlushRuns(look, s, envs);
  }

  ghost function NextOf(s: State, env: Env): (s': State)
    requires s in Sound()
    ensures s' in Sound()
  {
    ApplyKeeps(s, Look(env));
    LookAtNext(s, env)
  }

  lemma LooksNext(s: State, envs: seq<Env>)
    requires s in Sound() && envs != []
    ensures LooksEnd(s, envs) == LooksEnd(NextOf(s, envs[0]), envs[1..])
  {
    var s1 := LookAtNext(s, envs[0]);
    ApplyKeeps(s, Look(envs[0]));
    LooksRun(s1, envs[1..]);
    RunCons(s, Look(envs[0]), s1, Looks(envs[1..]));
  }

  /** An entry that is not pending stays as it is. */
  lemma {:induction false} LooksUnseen(s: State, envs: seq<Env>, id: Id)
    requires s in Sound() && id in s.entries && id !in s.pending
    ensures var s' := LooksEnd(s, envs);
      Has(s', id, s.entries[id], FileOf(s, s.entries[id].who)) && s'.now == s.now && id !in s'.pending
    decreases |envs|
  {
    if envs != [] {
      LookAtOther(s, envs[0], id);
      LooksNext(s, envs);
      LooksUnseen(NextOf(s, envs[0]), envs[1..], id);
    }
  }

  ghost predicate AllAnswer(envs: seq<Env>, env: Env) { forall i :: 0 <= i < |envs| ==> envs[i] == env }

  /** The entry has been looked at once between `s` and `s'`. */
  ghost predicate SeenOnce(s: State, s': State, id: Id, env: Env) {
    && id in s.entries && (s.entries[id].state == Queue ==> s.entries[id].ref.Some?)
    && s'.now == s.now && id !in s'.pending
    && var e, file := s.entries[id], FileOf(s, s.entries[id].who); Seen(s', id, e, file, After(s.now, e, file, env))
  }

  ghost function SeenFrom(s: State, id: Id, env: Env): iset<State> { iset s' | SeenOnce(s, s', id, env) }

  /** An entry that is pending is looked at once. */
  lemma {:induction false} LooksSeen(s: State, envs: seq<Env>, env: Env, id: Id)
    requires s in Sound() && id in s.pending && |envs| >= |s.pending| && AllAnswer(envs, env)
    ensures LooksEnd(s, envs) in SeenFrom(s, id, env)
    decreases |envs|
  {
    if s.pending[0] == id {
      SeenFirst(s, envs, env, id);
    } else {
      SeenLater(s, env, id);
      LooksSeen(NextOf(s, env), envs[1..], env, id);
      SeenNext(s, envs, env, id);
    }
  }

  lemma SeenNext(s: State, envs: seq<Env>, env: Env, id: Id)
    requires s in Sound() && envs != [] && envs[0] == env && id in s.pending && s.pending[0] != id
    ensures LooksEnd(NextOf(s, env), envs[1..]) in SeenFrom(NextOf(s, env), id, env) ==>
      LooksEnd(s, envs) in SeenFrom(s, id, env)
  {
    LooksNext(s, envs);
    SeenLater(s, env, id);
  }

  lemma SeenFirst(s: State, envs: seq<Env>, env: Env, id: Id)
    requires s in Sound() && envs != [] && envs[0] == env && s.pending != [] && s.pending[0] == id
    ensures LooksEnd(s, envs) in SeenFrom(s, id, env)
  {
    LooksNext(s, envs);
    LookAtSelf(s, env, id);
    LooksUnseen(NextOf(s, env), envs[1..], id);
  }

  lemma SeenLater(s: State, env: Env, id: Id)
    requires s in Sound() && id in s.pending && s.pending[0] != id
    ensures var s1 := NextOf(s, env);
      id in s1.pending && |s1.pending| < |s.pending| && SeenFrom(s1, id, env) <= SeenFrom(s, id, env)
  {
    assert id in Lists(s) + multiset{};
    LookAtOther(s, env, id);
    LookPops(s, env);
  }

  // ----- one round: the clock, a poll, and looks at all that is pending ----------------------------------

  /** The poll reads the clock again: `bound` is what it reads. */
  datatype Turn = Turn(clock: nat, bound: nat, due: seq<Id>, envs: seq<Env>)

  function Round(r: Turn): seq<Event> { [Tick(r.clock), Poll(r.bound, r.due)] + Looks(r.envs) }

  /** The surroundings allow the round, answer `env` every time, and let it look at all that is pending. */
  ghost predicate CanRound(s: State, r: Turn, env: Env) {
    && s.now <= r.clock <= r.bound && DueOk(s.(now := r.clock), r.bound, r.due) && AllAnswer(r.envs, env)
    && |r.envs| >= |TakeDue(s.(now := r.clock), r.due).pending|
  }

  ghost function Rounded(s: State, r: Turn, env: Env): (s': State)
    requires Inv(s) && CanRound(s, r, env)
    ensures Inv(s')
  {
    RoundRuns(s, r, env);
    Run(s, Round(r))
  }

  /** The state of the cache when the poll has been done. */
  lemma RoundRuns(s: State, r: Turn, env: Env)
    requires Inv(s) && CanRound(s, r, env)
    ensures var s1 := TakeDue(s.(now := r.clock), r.due);
      Inv(s1) && CanRun(s1, Looks(r.envs)) && CanRun(s, Round(r)) && Run(s, Round(r)) == Run(s1, Looks(r.envs))
  {
    var s0 := s.(now := r.clock);
    TickKeeps(s, r.clock);
    var s1 := TakeDue(s0, r.due);
    TakeDueKeeps(s0, r.due);
    LooksRun(s1, r.envs);
    RunCons(s0, Poll(r.bound, r.due), s1, Looks(r.envs));
    RunCons(s, Tick(r.clock), s0, [Poll(r.bound, r.due)] + Looks(r.envs));
    RoundIs(r);
  }

  /** A poll event of the cache is a round. */
  lemma PollIsRound(look: (State, Env) -> State, s: State, r: Turn, env: Env)
    requires IsLook(look) && Inv(s) && CanRound(s, r, env)
    ensures Flush(look, TakeDue(s.(now := r.clock), r.due), r.envs) == Rounded(s, r, env)
    ensures Rounded(s, r, env).pending == []
  {
    RoundRuns(s, r, env);
    FlushRuns(look, TakeDue(s.(now := r.clock), r.due), r.envs);
  }

  lemma RoundIs(r: Turn)
    ensures Round(r) == [Tick(r.clock)] + ([Poll(r.bound, r.due)] + Looks(r.envs))
  {
  }

  /** A poll changes nothing but keys of the time index. */
  lemma {:induction false} TakeDueHas(s: State, due: seq<Id>, id: Id)
    requires (forall x :: x in due ==> x in s.entries) && id in s.entries
    ensures var s' := TakeDue(s, due);
      && id in s'.entries && s'.entries[id] == s.entries[id].(timeKey := s'.entries[id].timeKey)
      && s'.now == s.now && s'.files == s.files
    decreases |due|
  {
    if due != [] {
      var s1 := MakePending(s, due[0]);
      TakeDueHas(Put(s1, due[0], s1.entries[due[0]].(timeKey := 0)), due[1..], id);
    }
  }

  /** A poll at this time finds the entry. */
  ghost predicate FoundBy(s: State, id: Id, clock: nat)
    requires id in s.entries
  {
    id in s.pending || s.entries[id].timeKey <= clock
  }

  /** That is so an hour later at the latest, and as soon as the time that the entry waits for has come. */
  lemma FoundInTime(s: State, id: Id, clock: nat)
    requires Inv(s) && id in s.entries && Live(s.entries[id])
    requires clock >= s.now + 3600000 || (s.entries[id].flags.timeWait && clock >= s.entries[id].actionTime)
    ensures FoundBy(s, id, clock)
  {
    OnItsList(s, id);
  }

  /** A round looks at an entry that its poll finds, once. */
  lemma RoundSees(s: State, r: Turn, env: Env, id: Id) returns (key: nat)
    requires Inv(s) && CanRound(s, r, env) && id in s.entries && Live(s.entries[id]) && FoundBy(s, id, r.clock)
    ensures s.entries[id].state == Queue ==> s.entries[id].ref.Some?
    ensures var s', e, file := Rounded(s, r, env), s.entries[id].(timeKey := key), FileOf(s, s.entries[id].who);
      Seen(s', id, e, file, After(r.clock, e, file, env)) && s'.now == r.clock && id !in s'.pending
  {
    RoundRuns(s, r, env);
    var s0 := s.(now := r.clock);
    TickKeeps(s, r.clock);
    OnItsList(s, id);
    TakeDuePending(s0, r.due, id);
    TakeDueHas(s0, r.due, id);
    var s1 := TakeDue(s0, r.due);
    LooksSeen(s1, r.envs, env, id);
    assert SeenOnce(s1, Rounded(s, r, env), id, env);
    key := s1.entries[id].timeKey;
  }

  // ----- sending -----------------------------------------------------------------------------------

  const WILLING: Env := Env(true, true)
  const NO_BLOCK: Env := Env(true, false)

  /** The timer of the entry, if it has one, has been reached. */
  predicate TimeCome(now: nat, e: Entry) { e.flags.timeWait ==> now >= e.actionTime }

  /** A bundle in custody that no copy is in flight of, and that nothing but its state keeps from being sent:
      it is at hand, and will be when the queue state has dropped what is in memory. */
  ghost predicate Unsent(e: Entry, file: Option<Delivery>, now: nat) {
    && e.flags.custody && !e.flags.queued && now < e.who.expireTime && TimeCome(now, e)
    && (file.Some? ==> e.who.sid != 0)
    && match e.state
       case Idle => e.ref.Some? || file.Some?
       case Queue => e.ref.Some? && !e.ref.value.egressed && (e.who.sid == 0 || file.Some?)
       case _ => false
  }

  /** Waiting for no more than the fast retry. */
  ghost predicate Retries(e: Entry, now: nat) { !e.flags.timeWait && e.timeKey == now + 3000 }

  lemma UnsentAfter(e: Entry, file: Option<Delivery>, now: nat)
    requires Unsent(e, file, now)
    ensures var e' := After(now, e, file, WILLING);
      && e'.who == e.who && e'.flags.custody && e'.flags.queued == (e.state == Idle)
      && (e.state == Idle ==> e'.state == Queue && e'.flags.forward)
      && (e.state == Queue ==>
            && e'.state == Idle && e'.flags.forward == e.flags.forward && Retries(e', now)
            && (e'.ref.Some? || file.Some?))
  {
  }

  /** In custody, unsent and at hand, as the cache has it. */
  ghost predicate Waiting(s: State, id: Id, clock: nat) {
    && id in s.entries && FoundBy(s, id, clock)
    && Unsent(s.entries[id], FileOf(s, s.entries[id].who), clock)
  }

  /** So it is from this round's fast retry until it expires. */
  ghost predicate WaitsOn(s: State, id: Id, from: nat, who: Identity) {
    && id in s.entries && s.entries[id].who == who
    && forall clock :: from + 3000 <= clock < who.expireTime ==> Waiting(s, id, clock)
  }

  lemma FlightCount(s: State, id: Id)
    requires Inv(s) && id in s.entries
    ensures s.refs[id] == if s.entries[id].flags.queued then 1 else 0
    ensures s.entries[id].state == Queue ==>
      && s.entries[id].ref.Some? && s.entries[id].flags.forward
      && (Safe(s.entries[id].who) ==> s.entries[id].ref.value.intact)
  {
    assert EntryOk(s.entries[id], s.now);
  }

  /** One round leaves exactly one copy in flight if the entry is idle, and none if it is in the queue state:
      then its copy was lost before it was sent, and this round only gets the entry back to idle. */
  lemma OneRound(s: State, r: Turn, id: Id)
    requires Inv(s) && CanRound(s, r, WILLING) && Waiting(s, id, r.clock)
    ensures var s' := Rounded(s, r, WILLING);
      && s'.refs[id] == (if s.entries[id].state == Idle then 1 else 0)
      && id in s'.entries && s'.entries[id].flags.custody && s'.entries[id].flags.forward
      && (s.entries[id].state == Idle ==>
            s'.entries[id].ref.Some? && (Safe(s.entries[id].who) ==> s'.entries[id].ref.value.intact))
      && (s.entries[id].state == Queue ==> s'.entries[id].state == Idle && WaitsOn(s', id, r.clock, s.entries[id].who))
  {
    FlightCount(s, id);
    var key := RoundSees(s, r, WILLING, id);
    UnsentAfter(s.entries[id].(timeKey := key), FileOf(s, s.entries[id].who), r.clock);
    FlightCount(Rounded(s, r, WILLING), id);
  }

  /** A second round, three seconds later, then sends it. */
  lemma TwoRounds(s: State, r: Turn, r': Turn, id: Id)
    requires Inv(s) && CanRound(s, r, WILLING) && CanRound(Rounded(s, r, WILLING), r', WILLING)
    requires Waiting(s, id, r.clock) && s.entries[id].state == Queue
    requires r.clock + 3000 <= r'.clock < s.entries[id].who.expireTime
    ensures Rounded(s, r, WILLING).refs[id] == 0
    ensures Rounded(Rounded(s, r, WILLING), r', WILLING).refs[id] == 1
  {
    OneRound(s, r, id);
    OneRound(Rounded(s, r, WILLING), r', id);
  }

  /** Every reachable state: an idle bundle in custody, at hand and not expired, is in flight after one round
      that is an hour on or past the time it waits for. */
  lemma PollSends(s: State, r: Turn, id: Id)
    requires Reachable(s) && CanRound(s, r, WILLING) && id in s.entries
    requires var e := s.entries[id];
      && e.state == Idle && e.flags.custody && r.clock < e.who.expireTime
      && (e.ref.Some? || e.who.sid in s.files)
      && (if e.flags.timeWait then r.clock >= e.actionTime else r.clock >= s.now + 3600000)
    ensures Inv(s) && CanRun(s, Round(r)) && Run(s, Round(r)).refs[id] == 1
  {
    ReachableInv(s);
    assert EntryOk(s.entries[id], s.now);
    FoundInTime(s, id, r.clock);
    OneRound(s, r, id);
    RoundRuns(s, r, WILLING);
  }

  // ----- without a block for the copy -------------------------------------------------------------------

  lemma BlockedAfter(e: Entry, file: Option<Delivery>, now: nat)
    requires Unsent(e, file, now) && e.state == Idle
    requires (e.ref.Some? ==> !e.ref.value.egressed) && (file.Some? ==> !file.value.egressed)
    requires e.ref.Some? && e.who.sid != 0 ==> file.Some?
    ensures var e' := After(now, e, file, NO_BLOCK);
      && e'.who == e.who && e'.state == Queue && e'.flags.custody && !e'.flags.queued && Retries(e', now)
      && e'.ref.Some? && !e'.ref.value.egressed && (e.who.sid == 0 || file.Some?)
  {
  }

  /** If the pool has no block for the copy, the entry is in the queue state without one, and it takes two more
      rounds to send it. */
  lemma BlockedRound(s: State, r: Turn, id: Id)
    requires Inv(s) && CanRound(s, r, NO_BLOCK) && Waiting(s, id, r.clock) && s.entries[id].state == Idle
    requires s.entries[id].ref.Some? ==>
      !s.entries[id].ref.value.egressed && (s.entries[id].who.sid == 0 || s.entries[id].who.sid in s.files)
    requires s.entries[id].who.sid in s.files ==> !s.files[s.entries[id].who.sid].egressed
    ensures var s' := Rounded(s, r, NO_BLOCK);
      s'.refs[id] == 0 && WaitsOn(s', id, r.clock, s.entries[id].who) && s'.entries[id].state == Queue
  {
    var key := RoundSees(s, r, NO_BLOCK, id);
    BlockedAfter(s.entries[id].(timeKey := key), FileOf(s, s.entries[id].who), r.clock);
    FlightCount(Rounded(s, r, NO_BLOCK), id);
  }

  // ----- acknowledgements ---------------------------------------------------------------------------

  lemma AckAfter(e: Entry, now: nat, file: Option<Delivery>)
    requires e.state == GenerateDacs && TimeCome(now, e) && !e.flags.queued
    ensures var e' := After(now, e, file, WILLING);
      && e'.who == e.who && e'.state == Idle && e'.seqs == e.seqs && e'.ref == e.ref
      && !e'.flags.queued && e'.flags.custody == e.flags.custody && Retries(e', now)
  {
  }

  lemma SentKeepsSeqs(e: Entry, file: Option<Delivery>, now: nat)
    requires Unsent(e, file, now) && e.state == Idle
    ensures var e' := After(now, e, file, WILLING); e'.seqs == e.seqs && e'.state == Queue && e'.flags.queued
  {
  }

  /** An acknowledgement whose time has come is closed by one round and sent by the next, with its numbers. */
  lemma AckSent(s: State, r: Turn, r': Turn, id: Id)
    requires Inv(s) && CanRound(s, r, WILLING) && CanRound(Rounded(s, r, WILLING), r', WILLING)
    requires id in s.entries && FoundBy(s, id, r.clock) && TimeCome(r.clock, s.entries[id])
    requires s.entries[id].state == GenerateDacs && s.entries[id].flags.custody && s.entries[id].ref.Some?
    requires s.entries[id].who.sid == 0 && r.clock + 3000 <= r'.clock < s.entries[id].who.expireTime
    ensures var s1 := Rounded(s, r, WILLING);
      && id !in s1.dacsIndex && id in s1.entries && s1.entries[id].seqs == s.entries[id].seqs && s1.refs[id] == 0
    ensures var s2 := Rounded(Rounded(s, r, WILLING), r', WILLING);
      && id !in s2.dacsIndex && id in s2.entries && s2.entries[id].seqs == s.entries[id].seqs && s2.refs[id] == 1
  {
    var s1 := AckClosed(s, r, id);
    assert Waiting(s1, id, r'.clock);
    SentWithSeqs(s1, r', id);
  }

  lemma SentWithSeqs(s: State, r: Turn, id: Id)
    requires Inv(s) && CanRound(s, r, WILLING) && Waiting(s, id, r.clock) && s.entries[id].state == Idle
    ensures var s' := Rounded(s, r, WILLING);
      s'.refs[id] == 1 && id in s'.entries && s'.entries[id].seqs == s.entries[id].seqs && id !in s'.dacsIndex
  {
    var key := RoundSees(s, r, WILLING, id);
    SentKeepsSeqs(s.entries[id].(timeKey := key), FileOf(s, s.entries[id].who), r.clock);
    FlightCount(Rounded(s, r, WILLING), id);
  }

  lemma AckClosed(s: State, r: Turn, id: Id) returns (s1: State)
    requires Inv(s) && CanRound(s, r, WILLING)
    requires id in s.entries && FoundBy(s, id, r.clock) && TimeCome(r.clock, s.entries[id])
    requires s.entries[id].state == GenerateDacs && s.entries[id].flags.custody && s.entries[id].ref.Some?
    requires s.entries[id].who.sid == 0
    ensures s1 == Rounded(s, r, WILLING) && WaitsOn(s1, id, r.clock, s.entries[id].who) && s1.entries[id].state == Idle
    ensures id !in s1.dacsIndex && s1.entries[id].seqs == s.entries[id].seqs && s1.refs[id] == 0
  {
    s1 := Rounded(s, r, WILLING);
    var key := RoundSees(s, r, WILLING, id);
    NoFile(s, id);
    AckAfter(s.entries[id].(timeKey := key), r.clock, FileOf(s, s.entries[id].who));
    FlightCount(s1, id);
  }

  lemma NoFile(s: State, id: Id)
    requires Inv(s) && id in s.entries && s.entries[id].who.sid == 0
    ensures FileOf(s, s.entries[id].who).None? && (s.entries[id].state != Queue ==> !s.entries[id].flags.queued)
  {
    assert EntryOk(s.entries[id], s.now);
  }

  // ----- after custody ------------------------------------------------------------------------------

  /** A copy of the bundle went out, and nobody is to acknowledge it. */
  ghost predicate Delivered(e: Entry) {
    && e.state == Queue && !e.flags.queued && !e.flags.timeWait
    && e.ref.Some? && e.ref.value.egressed && e.ref.value.policy != CustodyTracking
  }

  /** The steps of an entry whose copy went out: idle without custody, held over, held over once more because
      it was active, discarded. */
  ghost predicate Ending(e: Entry, step: nat, now: nat) {
    match step
    case 0 => Delivered(e)
    case 1 => e.state == Idle && !e.flags.custody && !e.flags.forward && e.flags.activity && e.timeKey == now + 3000
    case 2 => e.state == Delete && e.flags.activity && HeldOver(e, now)
    case 3 => e.state == Delete && !e.flags.activity && HeldOver(e, now)
    case _ => e.state == Undefined
  }

  ghost predicate HeldOver(e: Entry, now: nat) {
    e.flags.timeWait && e.actionTime == now + 5000 && e.timeKey == now + 5000
  }

  /** How long the next step takes. */
  function Pause(step: nat): nat { if step == 0 then 0 else if step == 1 then 3000 else 5000 }

  lemma EndingAfter(e: Entry, key: nat, step: nat, before: nat, now: nat, file: Option<Delivery>)
    requires step < 4 && Ending(e, step, before) && now >= before + Pause(step) && e.flags.activity == (step < 3)
    requires step == 1 ==> now < e.who.expireTime
    ensures var e' := After(now, e.(timeKey := key), file, WILLING);
      && Ending(e', step + 1, now) && e'.who == e.who && (step < 2 ==> e'.flags.activity)
  {
    match step
    case 0 =>
    case 1 =>
    case 2 =>
    case 3 =>
  }

  /** The entry has come this far, and its file is there until it is held over. */
  ghost predicate EndedUpTo(s: State, id: Id, step: nat, who: Identity, file: Option<Delivery>) {
    && id in s.entries && s.entries[id].who == who && Ending(s.entries[id], step, s.now)
    && FileOf(s, who) == (if step >= 2 && who.sid != 0 then None else file)
    && (step >= 4 ==> id in s.recycle)
  }

  lemma EndingRound(s: State, r: Turn, id: Id, step: nat, who: Identity, file: Option<Delivery>)
    requires Inv(s) && CanRound(s, r, WILLING) && step < 4 && EndedUpTo(s, id, step, who, file)
    requires r.clock >= s.now + Pause(step) && (step == 0 ==> FoundBy(s, id, r.clock))
    requires step == 1 ==> r.clock < who.expireTime
    ensures EndedUpTo(Rounded(s, r, WILLING), id, step + 1, who, file) && Rounded(s, r, WILLING).now == r.clock
    ensures Rounded(s, r, WILLING).refs[id] == 0
  {
    var e := s.entries[id];
    assert EntryOk(e, s.now);
    var key := RoundSees(s, r, WILLING, id);
    EndingAfter(e, key, step, s.now, r.clock, FileOf(s, who));
    var s' := Rounded(s, r, WILLING);
    FlightCount(s', id);
    assert (Lists(s') + multiset{})[id] == 1;
  }

  /** The rounds, one after the other. */
  ghost predicate CanEnd(s: State, rs: seq<Turn>, step: nat, expireTime: nat)
    requires Inv(s)
    decreases |rs|
  {
    rs != [] ==>
      && CanRound(s, rs[0], WILLING) && rs[0].clock >= s.now + Pause(step) && (step == 1 ==> rs[0].clock < expireTime)
      && CanEnd(Rounded(s, rs[0], WILLING), rs[1..], step + 1, expireTime)
  }

  ghost function AllRounds(s: State, rs: seq<Turn>, step: nat, expireTime: nat): (s': State)
    requires Inv(s) && CanEnd(s, rs, step, expireTime)
    ensures Inv(s')
    decreases |rs|
  {
    if rs == [] then s else AllRounds(Rounded(s, rs[0], WILLING), rs[1..], step + 1, expireTime)
  }

  /** A bundle whose copy went out without custody tracking is held over by the second round, which releases its
      file, and discarded by the fourth, if nothing asks for it; no earlier round discards it. */
  lemma {:induction false} DeliveredEnds(s: State, rs: seq<Turn>, id: Id, step: nat, who: Identity,
                                         file: Option<Delivery>)
    requires Inv(s) && EndedUpTo(s, id, step, who, file) && step + |rs| <= 4 && CanEnd(s, rs, step, who.expireTime)
    requires step == 0 && rs != [] ==> FoundBy(s, id, rs[0].clock)
    ensures EndedUpTo(AllRounds(s, rs, step, who.expireTime), id, step + |rs|, who, file)
    decreases |rs|
  {
    if rs != [] {
      EndingRound(s, rs[0], id, step, who, file);
      DeliveredEnds(Rounded(s, rs[0], WILLING), rs[1..], id, step + 1, who, file);
    }
  }
}
