/** One trip of a copy: it is sent, it is destroyed, and its entry is looked at. */
module CacheTrip {
  import opened CacheModel
  import opened CacheInv
  import opened CacheRun
  import opened CacheTheorems
  import opened CacheProgress

  function Trip(id: Id, clock: nat, envs: seq<Env>): seq<Event> {
    [Send(id, clock)] + ([RefGone(id)] + Looks(envs))
  }

  /** The entry when the copy that was sent at this time is gone. */
  function Sent(e: Entry, clock: nat): Entry
    requires e.ref.Some?
  {
    e.(ref := Some(e.ref.value.(egressed := true, egressTime := clock)), flags := e.flags.(queued := false))
  }

  lemma {:induction false} RemoveShorter(l: seq<Id>, x: Id)
    ensures |Remove(l, x)| <= |l|
    decreases l
  {
    if l != [] {
      RemoveShorter(l[1..], x);
    }
  }

  /** The copy of the entry is gone, and the entry will be looked at. */
  ghost predicate Returned(s: State, id: Id, e: Entry, s1: State) {
    && s1 in Sound() && id in s1.pending && |s1.pending| <= |s.pending| + 1
    && id in s1.entries && s1.entries[id] == e && s1.now == s.now && s1.files == s.files
  }

  lemma GoneReturns(s: State, id: Id) returns (s1: State)
    requires Inv(s) && id in s.refs
    ensures Enabled(s, RefGone(id)) && s1 == Apply(s, RefGone(id)) && id in s.entries
    ensures Returned(s, id, s.entries[id].(flags := s.entries[id].flags.(queued := false)), s1)
  {
    s1 := Apply(s, RefGone(id));
    ApplyKeeps(s, RefGone(id));
    RemoveShorter(s.pending, id);
  }

  lemma SendStep(s: State, id: Id, clock: nat) returns (s1: State)
    requires Inv(s) && id in s.refs && clock > 0
    ensures Enabled(s, Send(id, clock)) && s1 == Apply(s, Send(id, clock)) && s1 in Sound() && id in s1.refs
    ensures id in s.entries && s.entries[id].ref.Some?
    ensures var e := s.entries[id];
      s1 == Put(s, id, e.(ref := Some(e.ref.value.(egressed := true, egressTime := clock))))
  {
    InFlight(s, id);
    s1 := Apply(s, Send(id, clock));
    ApplyKeeps(s, Send(id, clock));
  }

  lemma TripRuns(s: State, id: Id, clock: nat, envs: seq<Env>) returns (s1: State)
    requires Inv(s) && id in s.refs && clock > 0
    ensures id in s.entries && s.entries[id].ref.Some? && Returned(s, id, Sent(s.entries[id], clock), s1)
    ensures CanRun(s, Trip(id, clock, envs)) && Run(s, Trip(id, clock, envs)) == LooksEnd(s1, envs)
  {
    var s0 := SendStep(s, id, clock);
    s1 := GoneReturns(s0, id);
    LooksRun(s1, envs);
    RunCons(s0, RefGone(id), s1, Looks(envs));
    RunCons(s, Send(id, clock), s0, [RefGone(id)] + Looks(envs));
  }

  /** After a trip the entry is as one evaluation leaves it that finds the copy sent, and gone. */
  lemma TripSeen(s: State, id: Id, clock: nat, envs: seq<Env>, env: Env) returns (s': State)
    requires Inv(s) && id in s.refs && clock > 0 && |envs| > |s.pending| && AllAnswer(envs, env)
    ensures CanRun(s, Trip(id, clock, envs)) && s' == Run(s, Trip(id, clock, envs)) && s'.now == s.now
    ensures id in s.entries && s.entries[id].ref.Some? && id !in s'.pending
    ensures var e, file := Sent(s.entries[id], clock), FileOf(s, s.entries[id].who);
      Seen(s', id, e, file, After(s.now, e, file, env))
  {
    var s1 := TripRuns(s, id, clock, envs);
    LooksSeen(s1, envs, env, id);
    s' := LooksEnd(s1, envs);
    assert SeenOnce(s1, s', id, env);
  }
}
