/** Arrivals keep the invariant: acknowledgements are opened and filled, bundles are stored. */
module CacheArrive {
  import opened CacheModel
  import opened CacheInv

  // ----- acknowledgements ---------------------------------------------------------------------

  /** `e` is the acknowledgement `id` with another payload. */
  ghost predicate Regrown(s: State, id: Id, e: Entry) {
    id in s.dacsIndex && id in s.entries && PayloadOk(e)
    && var was := s.entries[id];
      (e == was.(seqs := e.seqs, flags := was.flags.(timeWait := e.flags.timeWait))
        && (e.flags.timeWait ==> was.flags.timeWait))
  }

  /** `s1` is `s` with the acknowledgement `id` replaced, which is closed if it is full. */
  ghost predicate Grown(s: State, id: Id, e: Entry, s1: State) {
    && Regrown(s, id, e)
    && (id in s1.dacsIndex ==> |e.seqs| < MAX_SEQ_PER_PAYLOAD)
    && (forall x :: x in s1.dacsIndex ==> x in s.dacsIndex)
    && s1 == s.(entries := s.entries[id := e], dacsIndex := s1.dacsIndex)
  }

  lemma GrownIndices(s: State, id: Id, e: Entry, s1: State)
    requires DacsOk(s) && BundlesOk(s) && Grown(s, id, e, s1)
    ensures DacsOk(s1) && BundlesOk(s1) && SameKinds(s, s1)
  {
    assert SameKinds(s, s1);
  }

  lemma GrownPlaces(s: State, id: Id, e: Entry, s1: State, held: multiset<Id>)
    requires EntriesOk(s) && RefsOk(s) && Placed(s, held) && PlacesOk(s) && DacsOk(s) && Grown(s, id, e, s1)
    ensures EntriesOk(s1) && RefsOk(s1) && Placed(s1, held) && PlacesOk(s1)
  {
    assert EntryOk(e, s.now);
    assert s1.entries.Keys == s.entries.Keys;
  }

  lemma GrownKeeps(s: State, id: Id, e: Entry, s1: State, held: multiset<Id>)
    requires InvHolding(s, held) && Grown(s, id, e, s1)
    ensures InvHolding(s1, held)
  {
    GrownIndices(s, id, e, s1);
    StoreKept(s, s1);
    GrownPlaces(s, id, e, s1, held);
  }

  lemma AppendOpen(s: State, id: Id, seqNum: nat)
    requires id in s.entries && |WithSeq(s.entries[id].seqs, seqNum)| != MAX_SEQ_PER_PAYLOAD
    ensures AppendDacs(s, id, seqNum) == Put(s, id, s.entries[id].(seqs := WithSeq(s.entries[id].seqs, seqNum)))
  {
  }

  lemma AppendFull(s: State, id: Id, seqNum: nat, e: Entry, s1: State)
    requires id in s.entries && |WithSeq(s.entries[id].seqs, seqNum)| == MAX_SEQ_PER_PAYLOAD
    requires e ==
      s.entries[id].(seqs := WithSeq(s.entries[id].seqs, seqNum), flags := s.entries[id].flags.(timeWait := false))
    requires s1 == s.(entries := s.entries[id := e], dacsIndex := Remove(s.dacsIndex, id))
    ensures AppendDacs(s, id, seqNum) == MakePending(s1, id)
  {
  }

  lemma AppendKeeps(s: State, id: Id, seqNum: nat, held: multiset<Id>)
    requires InvHolding(s, held) && id in s.dacsIndex && id !in held
    ensures InvHolding(AppendDacs(s, id, seqNum), held)
  {
    var was := s.entries[id];
    assert PayloadOk(was) by { assert EntryOk(was, s.now); }
    var seqs := WithSeq(was.seqs, seqNum);
    if |seqs| == MAX_SEQ_PER_PAYLOAD {
      var e := was.(seqs := seqs, flags := was.flags.(timeWait := false));
      var s1 := s.(entries := s.entries[id := e], dacsIndex := Remove(s.dacsIndex, id));
      RemoveSpec(s.dacsIndex, id);
      assert Grown(s, id, e, s1);
      GrownKeeps(s, id, e, s1, held);
      MakePendingKeeps(s1, id, held);
      AppendFull(s, id, seqNum, e, s1);
    } else {
      var e := was.(seqs := seqs);
      assert Grown(s, id, e, Put(s, id, e));
      GrownKeeps(s, id, e, Put(s, id, e), held);
      AppendOpen(s, id, seqNum);
    }
  }

  // ----- new entries --------------------------------------------------------------------------

  /** `s1` is `s` with the new entry `e`, indexed and stored, and on no list. */
  ghost predicate Added(s: State, e: Entry, s1: State) {
    && s1.entries == s.entries[s.nextId := e] && s1.nextId == s.nextId + 1 && s1.now == s.now
    && s1.pending == s.pending && s1.idle == s.idle && s1.recycle == s.recycle && s1.refs == s.refs
    && !e.flags.queued && EntryOk(e, s.now)
  }

  ghost predicate AddedToStore(s: State, e: Entry, s1: State) {
    && s1.released == s.released && e.state != Delete
    && (if e.who.sid == 0 then s1.lastSid == s.lastSid && s1.files == s.files && !e.who.saved
        else
          && e.who.sid == s1.lastSid == s.lastSid + 1
          && (forall sid :: sid in s.files ==> sid in s1.files && s1.files[sid] == s.files[sid])
          && (forall sid :: sid in s1.files ==> sid in s.files || sid == e.who.sid)
          && (e.who.saved ==> e.who.sid in s1.files)
          && (e.who.sid in s1.files ==> s1.files[e.who.sid].intact == e.who.saved)
          && forall sid :: sid in s1.files ==> DeliveryOk(s1.files[sid]))
  }

  lemma AddedPlaces(s: State, e: Entry, s1: State, held: multiset<Id>)
    requires EntriesOk(s) && RefsOk(s) && Placed(s, held) && PlacesOk(s) && Added(s, e, s1)
    ensures EntriesOk(s1) && RefsOk(s1) && Placed(s1, held + multiset{s.nextId}) && PlacesOk(s1)
  {
    assert s.nextId !in s.entries;
    assert s1.entries.Keys == s.entries.Keys + {s.nextId};
    AddedLists(s, s1, held);
    assert s.nextId !in Lists(s) + held;
  }

  lemma AddedLists(s: State, s1: State, held: multiset<Id>)
    requires Placed(s, held) && s.nextId !in s.entries
    requires s1.pending == s.pending && s1.idle == s.idle && s1.recycle == s.recycle
    requires s1.entries.Keys == s.entries.Keys + {s.nextId}
    ensures Placed(s1, held + multiset{s.nextId})
  {
    assert multiset(s1.entries.Keys) == multiset(s.entries.Keys) + multiset{s.nextId};
    assert Lists(s1) == Lists(s);
  }

  lemma AddedStore(s: State, e: Entry, s1: State)
    requires EntriesOk(s) && StoreOk(s) && Added(s, e, s1) && AddedToStore(s, e, s1)
    ensures StoreOk(s1)
  {
    assert s.nextId !in s.entries;
  }

  lemma AddedBundle(s: State, e: Entry, s1: State)
    requires EntriesOk(s) && DacsOk(s) && BundlesOk(s) && Added(s, e, s1)
    requires s1.bundleIndex == s.bundleIndex + [s.nextId] && s1.dacsIndex == s.dacsIndex
    requires forall id :: id in s.bundleIndex ==>
      !(s.entries[id].who.flow == e.who.flow && s.entries[id].who.seqNum == e.who.seqNum)
    ensures DacsOk(s1) && BundlesOk(s1)
  {
    assert s.nextId !in s.entries;
  }

  lemma AddedDacs(s: State, e: Entry, s1: State)
    requires EntriesOk(s) && DacsOk(s) && BundlesOk(s) && Added(s, e, s1)
    requires s1.dacsIndex == s.dacsIndex + [s.nextId] && s1.bundleIndex == s.bundleIndex
    requires e.state == GenerateDacs && e.seqs == []
    requires forall id :: id in s.dacsIndex ==>
      !(s.entries[id].who.custodian == e.who.custodian && s.entries[id].who.acked == e.who.acked)
    ensures DacsOk(s1) && BundlesOk(s1)
  {
    assert s.nextId !in s.entries;
  }

  // ----- opening an acknowledgement -------------------------------------------------------------

  /** Put the held entry `id` on the pending list. */
  lemma QueuedPending(s: State, id: Id, held: multiset<Id>)
    requires InvHolding(s, held + multiset{id})
    ensures InvHolding(s.(pending := s.pending + [id]), held)
  {
    var s1 := s.(pending := s.pending + [id]);
    assert Lists(s1) == Lists(s) + multiset{id};
  }

  /** A new acknowledgement that is on no list yet. */
  lemma AddedDacsKeeps(s: State, e: Entry, s1: State, held: multiset<Id>)
    requires InvHolding(s, held) && Added(s, e, s1) && AddedToStore(s, e, s1) && e.state == GenerateDacs && e.seqs == []
    requires s1.dacsIndex == s.dacsIndex + [s.nextId] && s1.bundleIndex == s.bundleIndex
    requires FindDacs(s, s.dacsIndex, e.who.custodian, e.who.acked).None?
    ensures InvHolding(s1, held + multiset{s.nextId})
  {
    FindDacsIn(s, s.dacsIndex, e.who.custodian, e.who.acked);
    AddedPlaces(s, e, s1, held);
    AddedStore(s, e, s1);
    AddedDacs(s, e, s1);
  }

  lemma NewDacsAdded(s: State, custodian: Addr, flow: Addr, self: Addr, seqNum: nat, clock: nat, e: Entry, s1: State)
    requires EntriesOk(s) && e == NewDacs(s.now, custodian, flow, self, seqNum, clock)
    requires s1 ==
      s.(entries := s.entries[s.nextId := e], nextId := s.nextId + 1, dacsIndex := s.dacsIndex + [s.nextId])
    ensures Added(s, e, s1) && AddedToStore(s, e, s1)
  {
  }

  lemma OpenKeeps(s: State, custodian: Addr, flow: Addr, self: Addr, seqNum: nat, clock: nat, held: multiset<Id>)
    requires InvHolding(s, held) && FindDacs(s, s.dacsIndex, custodian, flow).None?
    ensures InvHolding(OpenDacs(s, custodian, flow, self, seqNum, clock), held)
  {
    var e := NewDacs(s.now, custodian, flow, self, seqNum, clock);
    var s1 := s.(entries := s.entries[s.nextId := e], nextId := s.nextId + 1, dacsIndex := s.dacsIndex + [s.nextId]);
    NewDacsAdded(s, custodian, flow, self, seqNum, clock, e, s1);
    AddedDacsKeeps(s, e, s1, held);
    QueuedPending(s1, s.nextId, held);
  }

  /** An acknowledgement keeps the invariant and touches no bundle. */
  lemma AcknowledgeOk(s: State, custodian: Option<Addr>, flow: Addr, seqNum: nat, dacs: DacsEnv, held: multiset<Id>)
    requires InvHolding(s, held) && forall id :: id in s.dacsIndex ==> id !in held
    ensures InvHolding(Acknowledge(s, custodian, flow, seqNum, dacs), held)
  {
    if custodian.Some? {
      FindDacsIn(s, s.dacsIndex, custodian.value, flow);
      match FindDacs(s, s.dacsIndex, custodian.value, flow)
      case Some(id) => AppendKeeps(s, id, seqNum, held);
      case None =>
        if dacs.allocOk {
          OpenKeeps(s, custodian.value, flow, dacs.self, dacs.seqNum, dacs.clock, held);
          HeldIsOld(s, held);
          AppendKeeps(OpenDacs(s, custodian.value, flow, dacs.self, dacs.seqNum, dacs.clock), s.nextId, seqNum, held);
        }
    }
  }

  lemma AcknowledgeNow(s: State, custodian: Option<Addr>, flow: Addr, seqNum: nat, dacs: DacsEnv)
    requires DacsOk(s)
    ensures Acknowledge(s, custodian, flow, seqNum, dacs).now == s.now
  {
    if custodian.Some? {
      FindDacsIn(s, s.dacsIndex, custodian.value, flow);
    }
  }

  lemma HeldIsOld(s: State, held: multiset<Id>)
    requires Placed(s, held) && EntriesOk(s)
    ensures s.nextId !in held
  {
    assert s.nextId !in Lists(s) + held;
  }

  // ----- storing a bundle -----------------------------------------------------------------------

  predicate BundleOk(b: Bundle) { DeliveryOk(b.delivery) && b.delivery.intact }

  lemma AddEntryKeeps(s: State, b: Bundle, offload: Offload)
    requires Inv(s) && BundleOk(b) && FindBundle(s, s.bundleIndex, b.flow, b.seqNum).None?
    ensures InvHolding(AddEntry(s, b, offload), multiset{s.nextId})
  {
    var e, s1 := NewEntry(s, b, offload), AddEntry(s, b, offload);
    FindBundleIn(s, s.bundleIndex, b.flow, b.seqNum);
    NewEntryAdded(s, b, offload);
    AddedPlaces(s, e, s1, multiset{});
    AddedStore(s, e, s1);
    AddedBundle(s, e, s1);
    assert multiset{} + multiset{s.nextId} == multiset{s.nextId};
  }

  lemma NewEntryAdded(s: State, b: Bundle, offload: Offload)
    requires BundleOk(b) && StoreOk(s)
    ensures Added(s, NewEntry(s, b, offload), AddEntry(s, b, offload))
    ensures AddedToStore(s, NewEntry(s, b, offload), AddEntry(s, b, offload))
  {
  }

  lemma StoreNewKeeps(s: State, b: Bundle, offload: Offload, dacs: DacsEnv, env: Env)
    requires Inv(s) && BundleOk(b) && FindBundle(s, s.bundleIndex, b.flow, b.seqNum).None?
    ensures Inv(StoreNew(s, b, offload, dacs, env))
  {
    AddEntryKeeps(s, b, offload);
    var s1 := AddEntry(s, b, offload);
    assert s.nextId in s1.bundleIndex;
    if offload.Saved? {
      AcknowledgeOk(s1, b.custodian, b.flow, b.seqNum, dacs, multiset{s.nextId});
      AcknowledgeKeeps(s1, b.custodian, b.flow, b.seqNum, dacs, s.nextId);
      ExecuteKeeps(Acknowledge(s1, b.custodian, b.flow, b.seqNum, dacs), s.nextId, env);
    } else {
      ExecuteKeeps(s1, s.nextId, env);
    }
  }

  lemma StoreBundleKeeps(s: State, b: Bundle, allocOk: bool, offload: Offload, dacs: DacsEnv, env: Env)
    requires Inv(s) && BundleOk(b)
    ensures Inv(StoreBundle(s, b, allocOk, offload, dacs, env))
  {
    FindBundleIn(s, s.bundleIndex, b.flow, b.seqNum);
    match FindBundle(s, s.bundleIndex, b.flow, b.seqNum)
    case Some(id) =>
      TouchKeeps(s, id);
      AcknowledgeOk(Touch(s, id), b.custodian, b.flow, b.seqNum, dacs, multiset{});
    case None => if allocOk { StoreNewKeeps(s, b, offload, dacs, env); }
  }
}
