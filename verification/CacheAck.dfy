/** What an acknowledgement to the previous custodian is worth. */
module CacheAck {
  import opened CacheModel
  import opened CacheInv
  import opened CacheArrive
  import opened CacheRun
  import opened CacheSafety
  import opened CacheTheorems
  import opened CacheLoss

  /** The previous custodian has been told that the bundle is here, custody of it is held, and it is lost. */
  ghost predicate FalselyAcked(s: State, b: Bundle, id: Id)
    requires b.custodian.Some?
  {
    Acked(s, b.custodian.value, b.flow, b.seqNum) && !Recoverable(s, id)
  }

  /** Some run after the first arrival of the bundle gets there. */
  ghost predicate CanDeceive(s: State, b: Bundle, offload: Offload)
    requires Inv(s) && Fresh(s, b) && b.custodian.Some?
  {
    exists dacs, env, evs ::
      && CanRun(Stored(s, b, offload, dacs, env), evs)
      && FalselyAcked(Run(Stored(s, b, offload, dacs, env), evs), b, s.nextId)
  }

  // ----- acknowledgements stay ------------------------------------------------------------------------

  /** An evaluation leaves the payload of every entry alone. */
  lemma LookSeqs(s: State, env: Env, d: Id)
    requires Inv(s) && d in s.entries
    ensures var s' := LookAtNext(s, env);
      d in s'.entries && s'.entries[d].who == s.entries[d].who && s'.entries[d].seqs == s.entries[d].seqs
  {
    if s.pending != [] {
      PopDetaches(s);
      var s0, x := s.(pending := s.pending[1..]), s.pending[0];
      var e := s.entries[x];
      assert EntryOk(e, s.now);
      SettledEvolves(s.now, e, Restored(s0, e, env), env.refAllocOk);
      CommitShape(s0, x, Settled(s.now, e, Restored(s0, e, env), env.refAllocOk), env);
    }
  }

  lemma AckedStep(s: State, ev: Event, custodian: Addr, flow: Addr, seqNum: nat)
    requires Inv(s) && Enabled(s, ev) && (ev.Look? || ev.RefGone?) && Acked(s, custodian, flow, seqNum)
    ensures Acked(Apply(s, ev), custodian, flow, seqNum)
  {
    var d :| d in s.entries && s.entries[d].who.custodian == custodian && s.entries[d].who.acked == flow
             && seqNum in s.entries[d].seqs;
    if ev.Look? {
      LookSeqs(s, ev.env, d);
    }
    var s' := Apply(s, ev);
    assert d in s'.entries && s'.entries[d].who == s.entries[d].who && s'.entries[d].seqs == s.entries[d].seqs;
  }

  lemma {:induction false} AckedStays(s: State, evs: seq<Event>, custodian: Addr, flow: Addr, seqNum: nat)
    requires Inv(s) && CanRun(s, evs) && OnlyLooks(evs) && Acked(s, custodian, flow, seqNum)
    ensures Acked(Run(s, evs), custodian, flow, seqNum)
    decreases |evs|
  {
    if evs != [] {
      ApplyKeeps(s, evs[0]);
      AckedStep(s, evs[0], custodian, flow, seqNum);
      AckedStays(Apply(s, evs[0]), evs[1..], custodian, flow, seqNum);
    }
  }

  // ----- the duplicate --------------------------------------------------------------------------------

  lemma StoredIndexed(s: State, b: Bundle, offload: Offload, dacs: DacsEnv, env: Env)
    requires Inv(s) && Fresh(s, b)
    ensures s.nextId in Stored(s, b, offload, dacs, env).bundleIndex
  {
    AddEntryKeeps(s, b, offload);
    var s1 := AddEntry(s, b, offload);
    assert s.nextId in s1.bundleIndex;
    AcknowledgeFrame(s1, b.custodian, b.flow, b.seqNum, dacs);
    AcknowledgeKeeps(s1, b.custodian, b.flow, b.seqNum, dacs, s.nextId);
    var s2 := if offload.Saved? then Acknowledge(s1, b.custodian, b.flow, b.seqNum, dacs) else s1;
    var e := s2.entries[s.nextId];
    CommitShape(s2, s.nextId, Settled(s2.now, e, Restored(s2, e, env), env.refAllocOk), env);
  }

  lemma AcknowledgeRefs(s: State, custodian: Option<Addr>, flow: Addr, seqNum: nat, dacs: DacsEnv)
    requires DacsOk(s)
    ensures Acknowledge(s, custodian, flow, seqNum, dacs).refs == s.refs
  {
    if custodian.Some? {
      FindDacsIn(s, s.dacsIndex, custodian.value, flow);
    }
  }

  /** A duplicate is acknowledged whatever became of the first write, and the entry is as much at risk as before. */
  lemma DuplicateAtRisk(s: State, b: Bundle, offload: Offload, dacs: DacsEnv, env: Env, id: Id)
    requires Inv(s) && BundleOk(b) && id in s.bundleIndex && AtRisk(s, id) && b.custodian.Some? && dacs.allocOk
    requires s.entries[id].who.flow == b.flow && s.entries[id].who.seqNum == b.seqNum
    ensures var s' := Apply(s, Arrive(b, true, offload, dacs, env));
      AtRisk(s', id) && Acked(s', b.custodian.value, b.flow, b.seqNum)
  {
    DuplicateArrival(s, b, true, offload, dacs, env, id);
    DuplicateHits(s, b, true, offload, dacs, env, id);
    TouchHits(s, id);
    var s1 := Touch(s, id);
    AcknowledgeKeeps(s1, b.custodian, b.flow, b.seqNum, dacs, id);
    AcknowledgeRefs(s1, b.custodian, b.flow, b.seqNum, dacs);
  }

  // ----- the condition --------------------------------------------------------------------------------

  lemma Deceived(s: State, b: Bundle, offload: Offload)
    requires Inv(s) && Fresh(s, b) && b.custodian.Some? && s.now < b.expireTime && !NewSafe(b, offload)
    ensures CanDeceive(s, b, offload)
  {
    var dacs, env, id := DacsEnv(b.flow, 0, 0, true), Env(true, true), s.nextId;
    var s1 := Stored(s, b, offload, dacs, env);
    StoredEntry(s, b, offload, dacs, env);
    StoredIndexed(s, b, offload, dacs, env);
    LaunchedAtRisk(s1, id, s.now, NewEntry(s, b, offload));
    var evs := DeceptiveRun(s1, b, offload, dacs, env, id);
  }

  lemma DeceptiveRun(s: State, b: Bundle, offload: Offload, dacs: DacsEnv, env: Env, id: Id) returns (evs: seq<Event>)
    requires Inv(s) && BundleOk(b) && id in s.bundleIndex && AtRisk(s, id) && b.custodian.Some? && dacs.allocOk
    requires s.entries[id].who.flow == b.flow && s.entries[id].who.seqNum == b.seqNum
    ensures CanRun(s, evs) && FalselyAcked(Run(s, evs), b, id)
  {
    var ev := Arrive(b, true, offload, dacs, env);
    DuplicateAtRisk(s, b, offload, dacs, env, id);
    var s1 := Apply(s, ev);
    ApplyKeeps(s, ev);
    var rest := LostFromFlight(s1, id, env);
    AckedStays(s1, rest, b.custodian.value, b.flow, b.seqNum);
    RunCons(s, ev, s1, rest);
    evs := [ev] + rest;
  }

  /** A bundle can be acknowledged and then be lost while custody of it is held exactly if it is alive on its first
      arrival and was not written then with its payload last, although the store was asked to: duplicates are
      acknowledged whatever became of the first write. */
  lemma AckCondition(s: State, b: Bundle, offload: Offload)
    requires Inv(s) && Fresh(s, b) && b.custodian.Some?
    ensures CanDeceive(s, b, offload) <==>
      s.now < b.expireTime && !offload.NotConfigured? && !(offload.Saved? && b.payloadLast)
  {
    if s.now < b.expireTime && !NewSafe(b, offload) {
      Deceived(s, b, offload);
    } else {
      LossCondition(s, b, offload);
    }
  }
}
