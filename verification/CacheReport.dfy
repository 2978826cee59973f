/** What acknowledgements report, and when they are sent. */
module CacheReport {
  import opened CacheModel
  import opened CacheInv
  import opened CacheArrive
  import opened CacheRun
  import opened CacheSafety
  import opened CacheTheorems
  import opened CacheProgress
  import opened CacheCustody

  // ----- what is reported -------------------------------------------------------------------------------------

  /** There is an open acknowledgement to this custodian for this flow. */
  ghost predicate OpenFor(s: State, custodian: Addr, flow: Addr) {
    exists d :: d in s.dacsIndex && d in s.entries && s.entries[d].who.custodian == custodian
                && s.entries[d].who.acked == flow
  }

  /** The number is appended, and nothing else is. */
  lemma AppendReports(s: State, d: Id, seqNum: nat, x: Id)
    requires DacsOk(s) && d in s.dacsIndex
    ensures var s' := AppendDacs(s, d, seqNum);
      && s'.entries.Keys == s.entries.Keys
      && (x in s.entries ==>
            && s'.entries[x].who == s.entries[x].who
            && (forall q :: q in s'.entries[x].seqs <==> q in s.entries[x].seqs || (x == d && q == seqNum)))
  {
  }

  /** Among the acknowledgements, only the number of this bundle is new, and only if there is room to report it. */
  ghost predicate Reports(s: State, s': State, to: Option<Addr>, flow: Addr, seqNum: nat, allocOk: bool) {
    forall x, f, q :: Acked(s', x, f, q) <==>
      || Acked(s, x, f, q)
      || (to == Some(x) && f == flow && q == seqNum && (allocOk || OpenFor(s, x, f)))
  }

  lemma AcknowledgeFound(s: State, custodian: Addr, flow: Addr, seqNum: nat, dacs: DacsEnv, d: Id)
    requires DacsOk(s) && FindDacs(s, s.dacsIndex, custodian, flow) == Some(d)
    ensures Reports(s, Acknowledge(s, Some(custodian), flow, seqNum, dacs), Some(custodian), flow, seqNum, dacs.allocOk)
  {
    FindDacsIn(s, s.dacsIndex, custodian, flow);
    assert OpenFor(s, custodian, flow);
    var s' := AppendDacs(s, d, seqNum);
    AppendAcks(s, d, seqNum);
    forall x, f, q ensures Acked(s', x, f, q) <==>
      Acked(s, x, f, q) || (x == custodian && f == flow && q == seqNum) {
      AppendAcked(s, d, seqNum, x, f, q);
    }
  }

  lemma AppendAcked(s: State, d: Id, seqNum: nat, x: Addr, f: Addr, q: nat)
    requires DacsOk(s) && d in s.dacsIndex
    ensures Acked(AppendDacs(s, d, seqNum), x, f, q) <==>
      Acked(s, x, f, q) || (x == s.entries[d].who.custodian && f == s.entries[d].who.acked && q == seqNum)
  {
    var s' := AppendDacs(s, d, seqNum);
    AppendAcks(s, d, seqNum);
    forall e ensures e in s'.entries <==> e in s.entries {
      AppendReports(s, d, seqNum, e);
    }
    forall e | e in s.entries
      ensures s'.entries[e].who == s.entries[e].who
      ensures q in s'.entries[e].seqs <==> q in s.entries[e].seqs || (e == d && q == seqNum)
    {
      AppendReports(s, d, seqNum, e);
    }
  }

  lemma AcknowledgeOpened(s: State, custodian: Addr, flow: Addr, seqNum: nat, dacs: DacsEnv)
    requires DacsOk(s) && s.nextId !in s.entries && s.nextId !in s.dacsIndex
    requires FindDacs(s, s.dacsIndex, custodian, flow).None? && dacs.allocOk
    ensures Reports(s, Acknowledge(s, Some(custodian), flow, seqNum, dacs), Some(custodian), flow, seqNum, true)
  {
    FindDacsIn(s, s.dacsIndex, custodian, flow);
    var s1, d := OpenDacs(s, custodian, flow, dacs.self, dacs.seqNum, dacs.clock), s.nextId;
    assert DacsOk(s1);
    assert SamePayloads(s, s1);
    SameAcked(s, s1);
    forall x, f, q ensures Acked(AppendDacs(s1, d, seqNum), x, f, q) <==>
      Acked(s, x, f, q) || (x == custodian && f == flow && q == seqNum) {
      AppendAcked(s1, d, seqNum, x, f, q);
    }
  }

  lemma AcknowledgeReports(s: State, custodian: Option<Addr>, flow: Addr, seqNum: nat, dacs: DacsEnv)
    requires DacsOk(s) && s.nextId !in s.entries && s.nextId !in s.dacsIndex
    ensures Reports(s, Acknowledge(s, custodian, flow, seqNum, dacs), custodian, flow, seqNum, dacs.allocOk)
  {
    if custodian.Some? {
      FindDacsIn(s, s.dacsIndex, custodian.value, flow);
      match FindDacs(s, s.dacsIndex, custodian.value, flow)
      case Some(d) => AcknowledgeFound(s, custodian.value, flow, seqNum, dacs, d);
      case None => if dacs.allocOk { AcknowledgeOpened(s, custodian.value, flow, seqNum, dacs); }
    }
  }

  /** The same payloads, but for entries that have none. */
  ghost predicate SamePayloads(s: State, s': State) {
    && (forall d :: d in s.entries ==>
          d in s'.entries && s'.entries[d].who == s.entries[d].who && s'.entries[d].seqs == s.entries[d].seqs)
    && (forall d :: d in s'.entries && d !in s.entries ==> s'.entries[d].seqs == [])
  }

  lemma SameAcked(s: State, s': State)
    requires SamePayloads(s, s')
    ensures forall x, f, q :: Acked(s', x, f, q) <==> Acked(s, x, f, q)
  {
    forall x, f, q ensures Acked(s', x, f, q) <==> Acked(s, x, f, q) {
      if Acked(s', x, f, q) {
        var d :| d in s'.entries && s'.entries[d].who.custodian == x && s'.entries[d].who.acked == f
                 && q in s'.entries[d].seqs;
        assert d in s.entries;
      }
    }
  }

  lemma ExecutePayloads(s: State, id: Id, env: Env)
    requires id in s.entries && EntryOk(s.entries[id], s.now) && StoreOk(s) && s.now > 0
    ensures SamePayloads(s, Execute(s, id, env))
  {
    var e := s.entries[id];
    SettledFollows(s.now, e, Restored(s, e, env), env.refAllocOk);
    CommitShape(s, id, Settled(s.now, e, Restored(s, e, env), env.refAllocOk), env);
  }

  // ----- an arrival -------------------------------------------------------------------------------------------

  lemma OpenSame(s: State, s': State)
    requires DacsOk(s) && s'.dacsIndex == s.dacsIndex
    requires forall d :: d in s.entries ==> d in s'.entries && s'.entries[d].who == s.entries[d].who
    ensures forall x, f :: OpenFor(s', x, f) <==> OpenFor(s, x, f)
  {
    forall x, f ensures OpenFor(s', x, f) <==> OpenFor(s, x, f) {
      if OpenFor(s, x, f) {
        var d :| d in s.dacsIndex && d in s.entries && s.entries[d].who.custodian == x && s.entries[d].who.acked == f;
        assert d in s'.dacsIndex && d in s'.entries;
      }
    }
  }

  lemma AddEntrySame(s: State, b: Bundle, offload: Offload)
    requires EntriesOk(s) && DacsOk(s)
    ensures SamePayloads(s, AddEntry(s, b, offload))
    ensures forall x, f :: OpenFor(AddEntry(s, b, offload), x, f) <==> OpenFor(s, x, f)
  {
    OpenSame(s, AddEntry(s, b, offload));
  }

  /** The state when the bundle has been acknowledged, before its entry is evaluated. */
  lemma StoreNewSteps(s: State, b: Bundle, offload: Offload, dacs: DacsEnv, env: Env) returns (s1: State, s2: State)
    requires Inv(s) && BundleOk(b) && FindBundle(s, s.bundleIndex, b.flow, b.seqNum).None?
    ensures s1 == AddEntry(s, b, offload) && InvHolding(s1, multiset{s.nextId}) && InvHolding(s2, multiset{s.nextId})
    ensures s2 == if offload.Saved? then Acknowledge(s1, b.custodian, b.flow, b.seqNum, dacs) else s1
    ensures s1.nextId == s.nextId + 1 && s.nextId in s2.entries && s2.entries[s.nextId] == NewEntry(s, b, offload)
    ensures StoreNew(s, b, offload, dacs, env) == Execute(s2, s.nextId, env)
  {
    AddEntryKeeps(s, b, offload);
    s1 := AddEntry(s, b, offload);
    s2 := NewReported(s1, b, offload, dacs, s.nextId);
  }

  lemma StoreNewIs(s: State, b: Bundle, offload: Offload, dacs: DacsEnv, env: Env)
    requires Inv(s) && BundleOk(b) && FindBundle(s, s.bundleIndex, b.flow, b.seqNum).None?
    ensures Apply(s, Arrive(b, true, offload, dacs, env)) == StoreNew(s, b, offload, dacs, env)
  {
  }

  lemma NewReported(s1: State, b: Bundle, offload: Offload, dacs: DacsEnv, id: Id) returns (s2: State)
    requires InvHolding(s1, multiset{id}) && id in s1.bundleIndex
    ensures s2 == if offload.Saved? then Acknowledge(s1, b.custodian, b.flow, b.seqNum, dacs) else s1
    ensures InvHolding(s2, multiset{id}) && id in s2.entries && s2.entries[id] == s1.entries[id]
  {
    AcknowledgeOk(s1, b.custodian, b.flow, b.seqNum, dacs, multiset{id});
    AcknowledgeKeeps(s1, b.custodian, b.flow, b.seqNum, dacs, id);
    s2 := if offload.Saved? then Acknowledge(s1, b.custodian, b.flow, b.seqNum, dacs) else s1;
  }

  /** A bundle that is new is reported to its custodian exactly if the store has taken it, and there is an open
      acknowledgement to put it in or room for another; nothing else is reported by its arrival. */
  lemma FirstReport(s: State, b: Bundle, offload: Offload, dacs: DacsEnv, env: Env)
    requires Inv(s) && BundleOk(b) && FindBundle(s, s.bundleIndex, b.flow, b.seqNum).None?
    ensures Reports(s, Apply(s, Arrive(b, true, offload, dacs, env)),
                    if offload.Saved? then b.custodian else None, b.flow, b.seqNum, dacs.allocOk)
  {
    var s1, s2 := StoreNewSteps(s, b, offload, dacs, env);
    StoreNewIs(s, b, offload, dacs, env);
    AddEntrySame(s, b, offload);
    SameAcked(s, s1);
    assert s1.nextId !in s1.entries && s1.nextId !in s1.dacsIndex;
    AcknowledgeReports(s1, b.custodian, b.flow, b.seqNum, dacs);
    assert EntryOk(s2.entries[s.nextId], s2.now);
    ExecutePayloads(s2, s.nextId, env);
    SameAcked(s2, Execute(s2, s.nextId, env));
  }

  /** A duplicate is reported to its custodian whatever became of the first one, if there is room to. */
  lemma DuplicateReport(s: State, b: Bundle, allocOk: bool, offload: Offload, dacs: DacsEnv, env: Env)
    requires Inv(s) && BundleOk(b) && FindBundle(s, s.bundleIndex, b.flow, b.seqNum).Some?
    ensures Reports(s, Apply(s, Arrive(b, allocOk, offload, dacs, env)), b.custodian, b.flow, b.seqNum, dacs.allocOk)
  {
    var id := FindBundle(s, s.bundleIndex, b.flow, b.seqNum).value;
    FindBundleIn(s, s.bundleIndex, b.flow, b.seqNum);
    TouchKeeps(s, id);
    var s1 := Touch(s, id);
    assert SamePayloads(s, s1);
    SameAcked(s, s1);
    OpenSame(s, s1);
    assert s1.nextId !in s1.entries && s1.nextId !in s1.dacsIndex;
    AcknowledgeReports(s1, b.custodian, b.flow, b.seqNum, dacs);
  }

  // ----- whole runs -------------------------------------------------------------------------------------------

  lemma {:induction false} RemotePayloads(s: State, flow: Addr, seqs: seq<nat>)
    requires Inv(s)
    ensures SamePayloads(s, RemoteDacs(s, flow, seqs))
    decreases |seqs|
  {
    if seqs != [] {
      FindBundleIn(s, s.bundleIndex, flow, seqs[0]);
      match FindBundle(s, s.bundleIndex, flow, seqs[0])
      case None => RemotePayloads(s, flow, seqs[1..]);
      case Some(id) =>
        ReleasedKeeps(s, id);
        RemotePayloads(Released(s, id), flow, seqs[1..]);
        ReleasedPayloads(s, id, RemoteDacs(Released(s, id), flow, seqs[1..]));
    }
  }

  lemma ReleasedPayloads(s: State, id: Id, s': State)
    requires id in s.entries
    ensures SamePayloads(Released(s, id), s') ==> SamePayloads(s, s')
  {
  }

  lemma {:induction false} DuePayloads(s: State, due: seq<Id>)
    requires forall id :: id in due ==> id in s.entries
    ensures SamePayloads(s, TakeDue(s, due))
    decreases |due|
  {
    if due != [] {
      var s1 := MakePending(s, due[0]);
      DuePayloads(Put(s1, due[0], s1.entries[due[0]].(timeKey := 0)), due[1..]);
    }
  }

  lemma LookPayloads(s: State, env: Env)
    requires Inv(s)
    ensures SamePayloads(s, LookAtNext(s, env))
  {
    if s.pending != [] {
      PopDetaches(s);
      assert EntryOk(s.entries[s.pending[0]], s.now);
      ExecutePayloads(s.(pending := s.pending[1..]), s.pending[0], env);
    }
  }

  lemma OtherPayloads(s: State, ev: Event)
    requires Inv(s) && Enabled(s, ev) && !ev.Arrive? && !ev.EntryGone?
    ensures SamePayloads(s, Apply(s, ev))
  {
    match ev
    case RemoteAck(flow, seqs) => RemotePayloads(s, flow, seqs);
    case Poll(bound, due) => DuePayloads(s, due);
    case Look(env) => LookPayloads(s, env);
    case Send(id, clock) => InFlight(s, id);
    case Tick(clock) =>
    case RefGone(id) =>
  }

  /** The event is the arrival of this bundle from this custodian. */
  predicate Brings(ev: Event, custodian: Addr, flow: Addr, seqNum: nat) {
    ev.Arrive? && ev.b.custodian == Some(custodian) && ev.b.flow == flow && ev.b.seqNum == seqNum
  }

  lemma StepReports(s: State, ev: Event, custodian: Addr, flow: Addr, seqNum: nat)
    requires Inv(s) && Enabled(s, ev)
    ensures Acked(Apply(s, ev), custodian, flow, seqNum) ==>
      Acked(s, custodian, flow, seqNum) || Brings(ev, custodian, flow, seqNum)
  {
    match ev
    case Arrive(b, allocOk, offload, dacs, env) =>
      if FindBundle(s, s.bundleIndex, b.flow, b.seqNum).Some? {
        DuplicateReport(s, b, allocOk, offload, dacs, env);
      } else if allocOk {
        FirstReport(s, b, offload, dacs, env);
      }
    case EntryGone(id) =>
    case _ =>
      OtherPayloads(s, ev);
      SameAcked(s, Apply(s, ev));
  }

  ghost predicate BroughtIn(evs: seq<Event>, custodian: Addr, flow: Addr, seqNum: nat) {
    exists i :: 0 <= i < |evs| && Brings(evs[i], custodian, flow, seqNum)
  }

  lemma BroughtNext(evs: seq<Event>, custodian: Addr, flow: Addr, seqNum: nat)
    requires evs != []
    ensures Brings(evs[0], custodian, flow, seqNum) || BroughtIn(evs[1..], custodian, flow, seqNum) ==>
      BroughtIn(evs, custodian, flow, seqNum)
  {
    assert forall i :: 0 <= i < |evs[1..]| ==> evs[1..][i] == evs[i + 1];
  }

  /** Nothing is reported that did not arrive: a custodian is told of a bundle only if it was handed over by it. */
  lemma {:induction false} ReportedArrived(s: State, evs: seq<Event>, custodian: Addr, flow: Addr, seqNum: nat)
    requires Inv(s) && CanRun(s, evs) && Acked(Run(s, evs), custodian, flow, seqNum)
    ensures Acked(s, custodian, flow, seqNum) || BroughtIn(evs, custodian, flow, seqNum)
    decreases |evs|
  {
    if evs != [] {
      BroughtNext(evs, custodian, flow, seqNum);
      ApplyKeeps(s, evs[0]);
      StepReports(s, evs[0], custodian, flow, seqNum);
      ReportedArrived(Apply(s, evs[0]), evs[1..], custodian, flow, seqNum);
    }
  }

  // ----- when it is reported ------------------------------------------------------------------------------------

  /** An acknowledgement that was opened at this time: it is closed ten seconds later and good for a day, and ends
      with its delivery. */
  ghost predicate OpenSince(s: State, id: Id, clock: nat) {
    && id in s.dacsIndex && id in s.entries
    && var e := s.entries[id];
       && e.flags.timeWait && e.actionTime == clock + 10000 && e.who.expireTime == clock + 86400000
       && e.flags.custody && e.who.sid == 0
       && e.ref.Some? && e.ref.value.policy == LocalAck && !e.ref.value.egressed
  }

  /** The states in which it has been opened for this number, and is to be looked at. */
  ghost function Opened(id: Id, clock: nat, seqNum: nat): iset<State> {
    iset s: State | OpenSince(s, id, clock) && s.entries[id].seqs == [seqNum] && id in s.pending
  }

  /** Until it is closed it is open, unless it has the sixteen numbers that it can hold. */
  ghost predicate Collecting(s: State, id: Id, clock: nat, first: nat) {
    && id < s.nextId
    && (id in s.entries ==>
          && (OpenSince(s, id, clock) || (id !in s.dacsIndex && |s.entries[id].seqs| == 16))
          && [first] <= s.entries[id].seqs)
  }

  lemma Opens(s: State, custodian: Addr, flow: Addr, seqNum: nat, dacs: DacsEnv)
    requires DacsOk(s) && s.nextId !in s.entries && s.nextId !in s.dacsIndex && s.nextId !in s.pending
    requires FindDacs(s, s.dacsIndex, custodian, flow).None? && dacs.allocOk
    ensures var s', d := Acknowledge(s, Some(custodian), flow, seqNum, dacs), s.nextId;
      && s' in Opened(d, dacs.clock, seqNum) && s'.entries[d].flags.activity
      && s'.entries[d].ref.value == Delivery(LocalAck, false, 0, 3000, true)
      && s'.entries[d].who
         == Identity(dacs.self, dacs.seqNum, dacs.clock + 86400000, 0, custodian, flow, true, false)
  {
    var s1 := OpenDacs(s, custodian, flow, dacs.self, dacs.seqNum, dacs.clock);
    AppendOpen(s1, s.nextId, seqNum);
  }

  lemma SelfCollecting(s: State, env: Env, id: Id, clock: nat)
    requires Inv(s) && s.pending != [] && s.pending[0] == id && OpenSince(s, id, clock) && s.now < clock + 10000
    ensures OpenSince(LookAtNext(s, env), id, clock)
  {
    PopDetaches(s);
    var s0, e := s.(pending := s.pending[1..]), s.entries[id];
    CommitShape(s0, id, Settled(s.now, e, Restored(s0, e, env), env.refAllocOk), env);
  }

  lemma OtherCollecting(s: State, env: Env, id: Id)
    requires Inv(s) && s.pending != [] && s.pending[0] != id && id in s.entries
    ensures var s' := LookAtNext(s, env);
      id in s'.entries && s'.entries[id] == s.entries[id] && (id in s'.dacsIndex <==> id in s.dacsIndex)
  {
    PopDetaches(s);
    ExecuteOthers(s.(pending := s.pending[1..]), s.pending[0], env, id);
  }

  lemma LookCollecting(s: State, env: Env, id: Id, clock: nat)
    requires Inv(s) && OpenSince(s, id, clock) && s.now < clock + 10000
    ensures OpenSince(LookAtNext(s, env), id, clock)
  {
    if s.pending != [] {
      if s.pending[0] == id {
        SelfCollecting(s, env, id, clock);
      } else {
        OtherCollecting(s, env, id);
      }
    }
  }

  lemma MildCollecting(s: State, s': State, id: Id, clock: nat)
    requires AllMild(s, s') && OpenSince(s, id, clock)
    ensures id in s'.entries && (OpenSince(s', id, clock) || (id !in s'.dacsIndex && |s'.entries[id].seqs| == 16))
  {
  }

  /** A step before that time leaves an open acknowledgement open, unless it fills it. */
  lemma OpenStep(s: State, ev: Event, id: Id, clock: nat)
    requires Inv(s) && Enabled(s, ev) && OpenSince(s, id, clock) && s.now < clock + 10000
    ensures var s' := Apply(s, ev);
      id in s'.entries && (OpenSince(s', id, clock) || (id !in s'.dacsIndex && |s'.entries[id].seqs| == 16))
  {
    match ev
    case Look(env) => LookCollecting(s, env, id, clock);
    case RemoteAck(flow, seqs) => RemoteAckExact(s, flow, seqs, id);
    case EntryGone(x) =>
      RemoveSpec(s.dacsIndex, x);
      assert x in Lists(s) + multiset{};
    case _ =>
      MildEvents(s, ev);
      MildCollecting(s, Apply(s, ev), id, clock);
  }

  lemma StepCollecting(s: State, ev: Event, id: Id, clock: nat, first: nat)
    requires Inv(s) && Enabled(s, ev) && Collecting(s, id, clock, first) && s.now < clock + 10000
    ensures Collecting(Apply(s, ev), id, clock, first)
  {
    StepKeys(s, ev);
    if id in Apply(s, ev).entries {
      StepEvolves(s, ev, id);
      if OpenSince(s, id, clock) {
        OpenStep(s, ev, id, clock);
      }
    }
  }

  lemma {:induction false} CollectingOverRun(s: State, evs: seq<Event>, id: Id, clock: nat, first: nat)
    requires Inv(s) && CanRun(s, evs) && Collecting(s, id, clock, first) && Run(s, evs).now < clock + 10000
    ensures Collecting(Run(s, evs), id, clock, first)
    decreases |evs|
  {
    if evs != [] {
      ClockOverRun(s, evs);
      ApplyKeeps(s, evs[0]);
      StepCollecting(s, evs[0], id, clock, first);
      CollectingOverRun(Apply(s, evs[0]), evs[1..], id, clock, first);
    }
  }

  /** An open acknowledgement is closed by a round from its time on, and sent by another three seconds later. */
  lemma ClosedAndSent(s: State, r: Turn, r': Turn, id: Id, clock: nat)
    requires Inv(s) && OpenSince(s, id, clock)
    requires CanRound(s, r, WILLING) && CanRound(Rounded(s, r, WILLING), r', WILLING)
    requires clock + 10000 <= r.clock && r.clock + 3000 <= r'.clock < clock + 86400000
    ensures var s1, s2 := Rounded(s, r, WILLING), Rounded(Rounded(s, r, WILLING), r', WILLING);
      && id !in s1.dacsIndex && id in s1.entries && s1.entries[id].seqs == s.entries[id].seqs && s1.refs[id] == 0
      && id in s2.entries && s2.entries[id].seqs == s.entries[id].seqs && s2.refs[id] == 1
  {
    FoundInTime(s, id, r.clock);
    AckSent(s, r, r', id);
  }

  // ----- from the arrival on ------------------------------------------------------------------------------------

  lemma DuplicateOpens(s: State, b: Bundle, allocOk: bool, offload: Offload, dacs: DacsEnv, env: Env)
    requires Inv(s) && BundleOk(b) && FindBundle(s, s.bundleIndex, b.flow, b.seqNum).Some?
    requires b.custodian.Some? && !OpenFor(s, b.custodian.value, b.flow) && dacs.allocOk
    ensures Apply(s, Arrive(b, allocOk, offload, dacs, env)) in Opened(s.nextId, dacs.clock, b.seqNum)
  {
    var id := FindBundle(s, s.bundleIndex, b.flow, b.seqNum).value;
    FindBundleIn(s, s.bundleIndex, b.flow, b.seqNum);
    TouchKeeps(s, id);
    var s1 := Touch(s, id);
    OpenSame(s, s1);
    AnyOpens(s1, b.custodian, b.flow, b.seqNum, dacs, multiset{}, s.nextId);
  }

  lemma AnyOpens(s: State, to: Option<Addr>, flow: Addr, seqNum: nat, dacs: DacsEnv, held: multiset<Id>,
                 d: Id)
    requires d == s.nextId && InvHolding(s, held) && to.Some? && !OpenFor(s, to.value, flow) && dacs.allocOk
    ensures Acknowledge(s, to, flow, seqNum, dacs) in Opened(d, dacs.clock, seqNum)
  {
    FoundOpen(s, to.value, flow);
    assert s.nextId !in s.entries && s.nextId !in s.dacsIndex;
    assert s.nextId !in Lists(s) + held;
    Opens(s, to.value, flow, seqNum, dacs);
  }

  lemma FoundOpen(s: State, custodian: Addr, flow: Addr)
    requires DacsOk(s)
    ensures FindDacs(s, s.dacsIndex, custodian, flow).Some? ==> OpenFor(s, custodian, flow)
  {
    FindDacsIn(s, s.dacsIndex, custodian, flow);
    var r := FindDacs(s, s.dacsIndex, custodian, flow);
    if r.Some? {
      var d := r.value;
      assert d in s.dacsIndex && d in s.entries;
    }
  }

  lemma OpenBeside(s: State, id: Id, env: Env, d: Id, clock: nat, seqNum: nat)
    requires id in s.entries && (s.entries[id].state == Queue ==> s.entries[id].ref.Some?)
    requires s in Opened(d, clock, seqNum) && d != id
    ensures Execute(s, id, env) in Opened(d, clock, seqNum)
  {
    ExecuteOthers(s, id, env, d);
  }

  lemma FirstOpened(s: State, b: Bundle, dacs: DacsEnv, env: Env)
    requires Inv(s) && BundleOk(b) && FindBundle(s, s.bundleIndex, b.flow, b.seqNum).None?
    requires b.custodian.Some? && !OpenFor(s, b.custodian.value, b.flow) && dacs.allocOk
    ensures StoreNew(s, b, Saved, dacs, env) in Opened(s.nextId + 1, dacs.clock, b.seqNum)
  {
    var s1, s2 := StoreNewSteps(s, b, Saved, dacs, env);
    AddEntrySame(s, b, Saved);
    AnyOpens(s1, b.custodian, b.flow, b.seqNum, dacs, multiset{s.nextId}, s.nextId + 1);
    OpenBeside(s2, s.nextId, env, s.nextId + 1, dacs.clock, b.seqNum);
  }

  lemma FirstOpens(s: State, b: Bundle, allocOk: bool, offload: Offload, dacs: DacsEnv, env: Env)
    requires allocOk && offload.Saved? && Inv(s) && BundleOk(b) && FindBundle(s, s.bundleIndex, b.flow, b.seqNum).None?
    requires b.custodian.Some? && !OpenFor(s, b.custodian.value, b.flow) && dacs.allocOk
    ensures Apply(s, Arrive(b, allocOk, offload, dacs, env)) in Opened(s.nextId + 1, dacs.clock, b.seqNum)
  {
    StoreNewIs(s, b, Saved, dacs, env);
    FirstOpened(s, b, dacs, env);
  }

  /** The arrival opens an acknowledgement: the bundle is new and is written, or is there already; its custodian
      has no open acknowledgement for the flow; and there is room for one. */
  ghost predicate OpensNew(s: State, b: Bundle, allocOk: bool, offload: Offload, dacs: DacsEnv)
    requires Inv(s)
  {
    && BundleOk(b) && b.custodian.Some? && !OpenFor(s, b.custodian.value, b.flow) && dacs.allocOk
    && (FindBundle(s, s.bundleIndex, b.flow, b.seqNum).Some? || (allocOk && offload.Saved?))
  }

  lemma ArrivalOpens(s: State, b: Bundle, allocOk: bool, offload: Offload, dacs: DacsEnv, env: Env) returns (d: Id)
    requires Inv(s) && OpensNew(s, b, allocOk, offload, dacs)
    ensures d >= s.nextId && Apply(s, Arrive(b, allocOk, offload, dacs, env)) in Opened(d, dacs.clock, b.seqNum)
  {
    if FindBundle(s, s.bundleIndex, b.flow, b.seqNum).Some? {
      DuplicateOpens(s, b, allocOk, offload, dacs, env);
      d := s.nextId;
    } else {
      FirstOpens(s, b, allocOk, offload, dacs, env);
      d := s.nextId + 1;
    }
  }

  /** An acknowledgement that an arrival opens at time `c` collects numbers, beginning with that of the bundle: in any
      run that ends before `c + 10000` it is open and no copy of it is in flight, unless it is full. */
  lemma OpenTenSeconds(s: State, b: Bundle, allocOk: bool, offload: Offload, dacs: DacsEnv, env: Env, evs: seq<Event>)
    returns (d: Id)
    requires Inv(s) && OpensNew(s, b, allocOk, offload, dacs)
    requires var s1 := Apply(s, Arrive(b, allocOk, offload, dacs, env));
      Inv(s1) && CanRun(s1, evs) && Run(s1, evs).now < dacs.clock + 10000
    ensures Apply(s, Arrive(b, allocOk, offload, dacs, env)) in Opened(d, dacs.clock, b.seqNum)
    ensures var s' := Run(Apply(s, Arrive(b, allocOk, offload, dacs, env)), evs);
      d in s'.entries && |s'.entries[d].seqs| < 16 ==>
      OpenSince(s', d, dacs.clock) && s'.refs[d] == 0 && b.seqNum in s'.entries[d].seqs
  {
    var s1 := Apply(s, Arrive(b, allocOk, offload, dacs, env));
    d := ArrivalOpens(s, b, allocOk, offload, dacs, env);
    OpenCollects(s1, d, dacs.clock, b.seqNum);
    CollectingOverRun(s1, evs, d, dacs.clock, b.seqNum);
    var s' := Run(s1, evs);
    if d in s'.entries && |s'.entries[d].seqs| < 16 {
      CollectingUnsent(s', d, dacs.clock, b.seqNum);
    }
  }

  lemma OpenCollects(s: State, d: Id, clock: nat, first: nat)
    requires EntriesOk(s) && s in Opened(d, clock, first)
    ensures Collecting(s, d, clock, first)
  {
  }

  lemma CollectingUnsent(s: State, d: Id, clock: nat, first: nat)
    requires Inv(s) && Collecting(s, d, clock, first) && d in s.entries && |s.entries[d].seqs| < 16
    ensures OpenSince(s, d, clock) && s.refs[d] == 0 && first in s.entries[d].seqs
  {
    FlightCount(s, d);
    assert EntryOk(s.entries[d], s.now);
    assert s.entries[d].seqs[0] == first;
  }
}
