/** The order in which pending entries are looked at. */
module CacheLine {
  import opened CacheModel
  import opened CacheInv
  import opened CacheArrive
  import opened CacheRun
  import opened CacheSafety
  import opened CacheTheorems

  /** Those that are looked at before this one. */
  function Ahead(l: seq<Id>, a: Id): set<Id> {
    if l == [] || l[0] == a then {} else {l[0]} + Ahead(l[1..], a)
  }

  lemma {:induction false} AheadIn(l: seq<Id>, a: Id)
    ensures forall x :: x in Ahead(l, a) ==> x in l
    decreases l
  {
    if l != [] && l[0] != a {
      AheadIn(l[1..], a);
    }
  }

  lemma {:induction false} AheadAppend(l: seq<Id>, m: seq<Id>, a: Id)
    requires a in l
    ensures Ahead(l + m, a) == Ahead(l, a)
    decreases l
  {
    if l[0] != a {
      AheadAppend(l[1..], m, a);
      assert (l + m)[1..] == l[1..] + m;
    }
  }

  lemma {:induction false} AheadRemove(l: seq<Id>, x: Id, a: Id)
    requires x != a
    ensures Ahead(Remove(l, x), a) <= Ahead(l, a)
    decreases l
  {
    if l != [] && l[0] != a {
      AheadRemove(l[1..], x, a);
      if l[0] != x {
        assert ([l[0]] + Remove(l[1..], x))[1..] == Remove(l[1..], x);
      }
    }
  }

  /** The entry keeps its place in the line, or is closer to the front. */
  ghost predicate InLine(l: seq<Id>, l': seq<Id>, a: Id) {
    a in l ==> a in l' && Ahead(l', a) <= Ahead(l, a)
  }

  lemma AppendLine(l: seq<Id>, m: seq<Id>, a: Id)
    ensures InLine(l, l + m, a)
  {
    if a in l {
      AheadAppend(l, m, a);
    }
  }

  lemma PendingLine(s: State, x: Id, a: Id)
    requires x != a
    ensures InLine(s.pending, MakePending(s, x).pending, a)
  {
    RemoveSpec(s.pending, x);
    AheadRemove(s.pending, x, a);
    AppendLine(Remove(s.pending, x), [x], a);
  }

  // ----- the steps ----------------------------------------------------------------------------------------------

  /** The step puts the entry at the end of the line anew. */
  ghost predicate Renewed(s: State, ev: Event, a: Id)
    requires Inv(s) && Enabled(s, ev) && a in s.entries
  {
    match ev
    case Arrive(_, _, _, _, _) => a in s.dacsIndex && a !in Apply(s, ev).dacsIndex
    case RemoteAck(flow, seqs) => Named(s, flow, seqs, a)
    case Poll(_, due) => a in due
    case RefGone(id) => id == a
    case _ => false
  }

  lemma AppendDacsLine(s: State, d: Id, seqNum: nat, a: Id)
    requires d in s.entries
    ensures InLine(s.pending, AppendDacs(s, d, seqNum).pending, a)
         || (a == d && AppendDacs(s, d, seqNum).dacsIndex == Remove(s.dacsIndex, d))
  {
    if d != a {
      PendingLine(s, d, a);
    }
  }

  lemma AcknowledgeLine(s: State, to: Option<Addr>, flow: Addr, seqNum: nat, dacs: DacsEnv, a: Id)
    requires DacsOk(s) && a != s.nextId
    ensures var s' := Acknowledge(s, to, flow, seqNum, dacs);
      InLine(s.pending, s'.pending, a) || (a in s.dacsIndex && a !in s'.dacsIndex)
  {
    if to.Some? {
      FindDacsIn(s, s.dacsIndex, to.value, flow);
      match FindDacs(s, s.dacsIndex, to.value, flow)
      case Some(d) =>
        AppendDacsLine(s, d, seqNum, a);
        RemoveSpec(s.dacsIndex, d);
      case None =>
        if dacs.allocOk {
          var s1 := OpenDacs(s, to.value, flow, dacs.self, dacs.seqNum, dacs.clock);
          AppendLine(s.pending, [s.nextId], a);
          AppendDacsLine(s1, s.nextId, seqNum, a);
        }
    }
  }

  lemma {:induction false} DueLine(s: State, due: seq<Id>, a: Id)
    requires (forall x :: x in due ==> x in s.entries) && a !in due
    ensures InLine(s.pending, TakeDue(s, due).pending, a)
    decreases |due|
  {
    if due != [] {
      var s1 := MakePending(s, due[0]);
      PendingLine(s, due[0], a);
      DueLine(Put(s1, due[0], s1.entries[due[0]].(timeKey := 0)), due[1..], a);
    }
  }

  lemma {:induction false} RemoteLine(s: State, flow: Addr, seqs: seq<nat>, a: Id)
    requires Inv(s) && a in s.entries && !Named(s, flow, seqs, a)
    ensures InLine(s.pending, RemoteDacs(s, flow, seqs).pending, a)
    decreases |seqs|
  {
    if seqs != [] {
      FindBundleIn(s, s.bundleIndex, flow, seqs[0]);
      match FindBundle(s, s.bundleIndex, flow, seqs[0])
      case None => RemoteLine(s, flow, seqs[1..], a);
      case Some(id) =>
        assert id != a;
        ReleasedKeeps(s, id);
        ReleasedEntry(s, id, a);
        ReleasedLine(s, id, a);
        RemoteLine(Released(s, id), flow, seqs[1..], a);
    }
  }

  lemma ReleasedLine(s: State, id: Id, a: Id)
    requires id in s.entries && id != a
    ensures InLine(s.pending, Released(s, id).pending, a)
  {
    PendingLine(s, id, a);
  }

  lemma ArriveLine(s: State, b: Bundle, allocOk: bool, offload: Offload, dacs: DacsEnv, env: Env, a: Id)
    requires Inv(s) && BundleOk(b) && a in s.entries
    ensures var s' := StoreBundle(s, b, allocOk, offload, dacs, env);
      InLine(s.pending, s'.pending, a) || (a in s.dacsIndex && a !in s'.dacsIndex)
  {
    FindBundleIn(s, s.bundleIndex, b.flow, b.seqNum);
    match FindBundle(s, s.bundleIndex, b.flow, b.seqNum)
    case Some(id) =>
      TouchKeeps(s, id);
      AcknowledgeLine(Touch(s, id), b.custodian, b.flow, b.seqNum, dacs, a);
    case None => if allocOk { NewLine(s, b, offload, dacs, env, a); }
  }

  lemma NewLine(s: State, b: Bundle, offload: Offload, dacs: DacsEnv, env: Env, a: Id)
    requires Inv(s) && BundleOk(b) && FindBundle(s, s.bundleIndex, b.flow, b.seqNum).None? && a in s.entries
    ensures var s' := StoreNew(s, b, offload, dacs, env);
      InLine(s.pending, s'.pending, a) || (a in s.dacsIndex && a !in s'.dacsIndex)
  {
    AddEntryKeeps(s, b, offload);
    var s1 := AddEntry(s, b, offload);
    assert s.nextId in s1.bundleIndex;
    AcknowledgeLine(s1, b.custodian, b.flow, b.seqNum, dacs, a);
    AcknowledgeKeeps(s1, b.custodian, b.flow, b.seqNum, dacs, s.nextId);
    var s2 := if offload.Saved? then Acknowledge(s1, b.custodian, b.flow, b.seqNum, dacs) else s1;
    ExecuteLine(s2, s.nextId, env, a);
  }

  lemma ExecuteLine(s: State, id: Id, env: Env, a: Id)
    requires id in s.entries && (s.entries[id].state == Queue ==> s.entries[id].ref.Some?) && a != id
    ensures var s' := Execute(s, id, env); s'.pending == s.pending && (a in s'.dacsIndex <==> a in s.dacsIndex)
  {
    CommitShape(s, id, Settled(s.now, s.entries[id], Restored(s, s.entries[id], env), env.refAllocOk), env);
    RemoveSpec(s.dacsIndex, id);
  }

  /** The step looks at the entry. */
  ghost predicate LooksAt(s: State, ev: Event, a: Id) { ev.Look? && s.pending != [] && s.pending[0] == a }

  lemma HeadLine(s: State, a: Id)
    requires Inv(s) && s.pending != [] && s.pending[0] != a && a in s.pending
    ensures a in s.pending[1..] && Ahead(s.pending[1..], a) < Ahead(s.pending, a)
  {
    var x := s.pending[0];
    PopDetaches(s);
    DetachedAbsent(s.(pending := s.pending[1..]), x);
    AheadIn(s.pending[1..], a);
    assert s.pending == [x] + s.pending[1..];
  }

  /** No step lets anyone get ahead of a pending entry, unless it puts the entry at the end anew; and a look at
      another brings it closer. */
  lemma StepLine(s: State, ev: Event, a: Id)
    requires Inv(s) && Enabled(s, ev) && a in s.entries && a in s.pending
    requires !Renewed(s, ev, a) && !LooksAt(s, ev, a)
    ensures var s' := Apply(s, ev);
      a in s'.pending && Ahead(s'.pending, a) <= Ahead(s.pending, a)
      && (ev.Look? ==> Ahead(s'.pending, a) < Ahead(s.pending, a))
  {
    match ev
    case Arrive(b, allocOk, offload, dacs, env) => ArriveLine(s, b, allocOk, offload, dacs, env, a);
    case RemoteAck(flow, seqs) => RemoteLine(s, flow, seqs, a);
    case Poll(bound, due) => DueLine(s, due, a);
    case Look(env) =>
      LookPops(s, env);
      HeadLine(s, a);
    case Send(id, clock) => InFlight(s, id);
    case RefGone(id) => GoneLine(s, id, a);
    case Tick(clock) =>
    case EntryGone(id) =>
  }

  lemma GoneLine(s: State, id: Id, a: Id)
    requires id in s.entries && id != a
    ensures InLine(s.pending, DestroyRef(s, id).pending, a)
  {
    PendingLine(s, id, a);
  }

  lemma IsEntry(s: State, a: Id)
    requires Inv(s) && a in s.pending
    ensures a in s.entries
  {
    assert a in Lists(s) + multiset{};
  }

  // ----- whole runs -----------------------------------------------------------------------------------------------

  /** How often the run takes an entry from the pending list. */
  function LookCount(evs: seq<Event>): nat {
    if evs == [] then 0 else (if evs[0].Look? then 1 else 0) + LookCount(evs[1..])
  }

  /** Some step of the run looks at the entry, or puts it at the end anew. */
  ghost predicate Served(s: State, evs: seq<Event>, a: Id)
    requires Inv(s) && CanRun(s, evs)
    decreases |evs|
  {
    && evs != []
    && (LooksAt(s, evs[0], a) || (a in s.entries && Renewed(s, evs[0], a))
        || (ApplyKeeps(s, evs[0]); Served(Apply(s, evs[0]), evs[1..], a)))
  }

  lemma FewerAhead(x: set<Id>, y: set<Id>)
    ensures x <= y ==> |x| <= |y|
    ensures x < y ==> |x| < |y|
  {
    if x <= y {
      assert y == x + (y - x);
      assert x < y ==> y - x != {};
    }
  }

  /** A pending entry has its turn: in any run with more looks than there are entries ahead of it, it is looked at,
      unless it is put at the end of the line anew. */
  lemma {:induction false} HasItsTurn(s: State, evs: seq<Event>, a: Id)
    requires Inv(s) && CanRun(s, evs) && a in s.pending && LookCount(evs) > |Ahead(s.pending, a)|
    ensures Served(s, evs, a)
    decreases |evs|
  {
    IsEntry(s, a);
    if !LooksAt(s, evs[0], a) && !Renewed(s, evs[0], a) {
      StepLine(s, evs[0], a);
      ApplyKeeps(s, evs[0]);
      var s1 := Apply(s, evs[0]);
      FewerAhead(Ahead(s1.pending, a), Ahead(s.pending, a));
      HasItsTurn(s1, evs[1..], a);
    }
  }
}
