/** The entries of the custody cache and the lists they are on, as fields that the operations update in place.
    The indices are separate objects; the sequences that stand for them here are ghost. */
module CacheImpl {
  import M = CacheModel
  import opened CacheInv
  import opened CacheRun
  import opened CacheTheorems

  type Id = M.Id
  type Fsm = M.Fsm
  type Delivery = M.Delivery

  class Cache {
    var now: nat
    var entries: map<Id, M.Entry>
    var nextId: Id
    var pending: seq<Id>
    var idle: seq<Id>
    var recycle: seq<Id>
    var refs: multiset<Id>
    ghost var bundleIndex: seq<Id>
    ghost var dacsIndex: seq<Id>
    var files: map<nat, Delivery>
    var lastSid: nat
    var released: set<nat>

    ghost function View(): M.State
      reads this
    {
      M.State(now, entries, nextId, pending, idle, recycle, refs, bundleIndex, dacsIndex, files, lastSid, released)
    }

    ghost predicate Valid()
      reads this
    {
      View() in Sound()
    }

    constructor (clock: nat)
      requires clock > 0
      ensures Valid() && View() == Init(clock)
    {
      now, entries, nextId, pending, idle, recycle := clock, map[], 0, [], [], [];
      refs, bundleIndex, dacsIndex, files, lastSid, released := multiset{}, [], [], map[], 0, {};
      new;
      InitInv(clock);
    }

    // ----- the state machine of one entry -----------------------------------------------------

    method CheckTimer(id: Id)
      requires id in entries
      modifies this`entries
      ensures entries == old(entries)[id := M.CheckTimer(now, old(entries[id]))]
    {
      var e := entries[id];
      if e.flags.timeWait && now >= e.actionTime {
        e := e.(flags := e.flags.(timeWait := false));
        e := e.(actionTime := M.TIME_INFINITE);
      }
      entries := entries[id := e];
    }

    method IdleEval(id: Id, env: M.Env) returns (next: Fsm)
      requires id in entries
      modifies this`entries
      ensures var (n, e) := M.IdleEval(now, old(entries[id]), M.Restored(old(View()), old(entries[id]), env));
        next == n && entries == old(entries)[id := e]
    {
      var e := entries[id];
      assert entries == entries[id := e];
      if now >= e.who.expireTime {
        return M.Undefined;
      }
      if !e.flags.custody {
        return M.Delete;
      }
      if !e.flags.timeWait && !e.flags.queued {
        if e.ref.None? && e.who.sid != 0 {
          e := e.(ref := if env.restoreOk && e.who.sid in files then M.Some(files[e.who.sid]) else M.None);
          entries := entries[id := e];
        }
        if e.ref.Some? {
          return M.Queue;
        }
      }
      return M.Idle;
    }

    method DeleteEval(id: Id) returns (next: Fsm)
      requires id in entries
      modifies this`entries
      ensures var (n, e) := M.DeleteEval(now, old(entries[id])); next == n && entries == old(entries)[id := e]
    {
      var e := entries[id];
      assert entries == entries[id := e];
      if !e.flags.timeWait {
        if !e.flags.activity {
          return M.Undefined;
        }
        e := e.(flags := e.flags.(activity := false));
        e := e.(flags := e.flags.(timeWait := true));
        e := e.(actionTime := now + M.AGE_OUT_TIME);
        entries := entries[id := e];
      }
      return M.Delete;
    }

    method GetNextState(id: Id, env: M.Env) returns (next: Fsm)
      requires id in entries
      modifies this`entries
      ensures var (n, e) := M.NextState(now, old(entries[id]), M.Restored(old(View()), old(entries[id]), env));
        next == n && entries == old(entries)[id := e]
    {
      var e := entries[id];
      assert entries == entries[id := e];
      match e.state
      case Undefined => next := M.Undefined;
      case Idle => next := IdleEval(id, env);
      case Queue => next := if e.flags.queued then M.Queue else M.Idle;
      case Delete => next := DeleteEval(id);
      case GenerateDacs => next := if e.flags.timeWait then M.GenerateDacs else M.Idle;
    }

    method QueueExit(id: Id)
      requires id in entries && entries[id].ref.Some?
      modifies this`entries
      ensures entries == old(entries)[id := M.QueueExit(old(entries[id]))]
    {
      var e := entries[id];
      var d := e.ref.value;
      if d.egressed {
        e := e.(flags := e.flags.(forward := false));
        if d.policy != M.CustodyTracking {
          e := e.(flags := e.flags.(custody := false));
        } else {
          e := e.(actionTime := d.egressTime + d.retxInterval);
          e := e.(flags := e.flags.(timeWait := true));
        }
      }
      if e.who.sid != 0 {
        e := e.(ref := M.None);
      }
      entries := entries[id := e];
    }

    method QueueEnter(id: Id, env: M.Env)
      requires id in entries
      modifies this`entries, this`refs
      ensures entries == old(entries)[id := M.QueueEnter(old(entries[id]), env.refAllocOk)]
      ensures refs == if env.refAllocOk then old(refs) + multiset{id} else old(refs)
    {
      var e := entries[id];
      e := e.(flags := e.flags.(forward := true));
      if env.refAllocOk {
        e := e.(flags := e.flags.(queued := true));
        refs := refs + multiset{id};
      }
      entries := entries[id := e];
    }

    method DeleteEnter(id: Id)
      requires id in entries
      modifies this`entries, this`files, this`released
      ensures entries == old(entries)[id := M.DeleteEnter(now, old(entries[id]))]
      ensures var sid := old(entries[id]).who.sid;
        && files == (if sid != 0 then old(files) - {sid} else old(files))
        && released == (if sid != 0 then old(released) + {sid} else old(released))
    {
      var e := entries[id];
      if e.ref.Some? {
        e := e.(ref := M.None);
      }
      if e.who.sid != 0 {
        files := files - {e.who.sid};
        released := released + {e.who.sid};
      }
      e := e.(flags := e.flags.(timeWait := true));
      e := e.(actionTime := now + M.AGE_OUT_TIME);
      entries := entries[id := e];
    }

    /** Exit actions of the old state. */
    method Leave(id: Id)
      requires id in entries && (entries[id].state == M.Queue ==> entries[id].ref.Some?)
      modifies this`entries, this`dacsIndex
      ensures entries == old(entries)[id := M.Left(old(entries[id]))]
      ensures dacsIndex ==
        if old(entries[id]).state == M.GenerateDacs then M.Remove(old(dacsIndex), id) else old(dacsIndex)
    {
      if entries[id].state == M.Queue {
        QueueExit(id);
      } else {
        assert entries == entries[id := entries[id]];
        if entries[id].state == M.GenerateDacs {
          dacsIndex := M.Remove(dacsIndex, id);
        }
      }
    }

    /** Entry actions of the new state. */
    method Enter(id: Id, next: Fsm, env: M.Env)
      requires id in entries
      modifies this`entries, this`refs, this`files, this`released
      ensures entries == old(entries)[id := M.Entered(now, old(entries[id]), next, env.refAllocOk)]
      ensures refs == if next == M.Queue && env.refAllocOk then old(refs) + multiset{id} else old(refs)
      ensures var sid := old(entries[id]).who.sid;
        && files == (if next == M.Delete && sid != 0 then old(files) - {sid} else old(files))
        && released == (if next == M.Delete && sid != 0 then old(released) + {sid} else old(released))
    {
      if next == M.Queue {
        QueueEnter(id, env);
      } else if next == M.Delete {
        DeleteEnter(id);
      } else {
        assert entries == entries[id := entries[id]];
      }
    }

    /** Exit actions of the old state, entry actions of the new one. */
    method TransitionState(id: Id, next: Fsm, env: M.Env)
      requires id in entries && next != entries[id].state && (entries[id].state == M.Queue ==> entries[id].ref.Some?)
      modifies this`entries, this`refs, this`files, this`released, this`dacsIndex
      ensures entries == old(entries)[id := M.Moved(now, old(entries[id]), next, env.refAllocOk)]
      ensures CommittedEffects(old(View()), id, old(entries[id]).state, next, old(entries[id]).who.sid, env, View())
    {
      M.LeftKeepsIdentity(entries[id]);
      Leave(id);
      Enter(id, next, env);
      entries := entries[id := entries[id].(state := next)];
    }

    /** When to look at the entry again. */
    method Reschedule(id: Id)
      requires id in entries
      modifies this`entries
      ensures entries == old(entries)[id := old(entries[id]).(timeKey := M.NextLook(now, old(entries[id])))]
    {
      var e := entries[id];
      var t := now;
      if !e.flags.timeWait && !e.flags.queued {
        t := t + M.FAST_RETRY_TIME;
      } else {
        t := t + M.IDLE_RETRY_TIME;
      }
      if e.flags.timeWait && t > e.actionTime {
        t := e.actionTime;
      }
      if t != e.timeKey {
        e := e.(timeKey := t);
      }
      entries := entries[id := e];
    }

    /** Check the timer and decide on the next state. */
    method Evaluate(id: Id, env: M.Env) returns (next: Fsm)
      requires id in entries
      modifies this`entries
      ensures var (n, e) := M.Evaluated(now, old(entries[id]), M.Restored(old(View()), old(entries[id]), env));
        next == n && entries == old(entries)[id := e]
    {
      CheckTimer(id);
      next := GetNextState(id, env);
    }

    method Shift(id: Id, next: Fsm, env: M.Env)
      requires id in entries && (entries[id].state == M.Queue ==> entries[id].ref.Some?)
      modifies this`entries, this`refs, this`files, this`released, this`dacsIndex
      ensures entries == old(entries)[id := M.Shifted(now, old(entries[id]), next, env.refAllocOk)]
      ensures CommittedEffects(old(View()), id, old(entries[id]).state, next, old(entries[id]).who.sid, env, View())
    {
      if next != entries[id].state {
        TransitionState(id, next, env);
      } else {
        assert entries == entries[id := entries[id]];
      }
    }

    /** Evaluate an entry and make the transition, if there is one. */
    method Settle(id: Id, env: M.Env)
      requires id in entries && (entries[id].state == M.Queue ==> entries[id].ref.Some?)
      modifies this`entries, this`refs, this`files, this`released, this`dacsIndex
      ensures var e := old(entries[id]);
        var e' := M.Settled(now, e, M.Restored(old(View()), e, env), env.refAllocOk);
        SettledIn(old(View()), id, e', env, View())
    {
      M.EvaluatedKeeps(now, entries[id], M.Restored(View(), entries[id], env), env.refAllocOk);
      var next := Evaluate(id, env);
      Shift(id, next, env);
    }

    /** Discard an evaluated entry, or put it on the idle list. */
    method Place(id: Id)
      requires id in entries
      modifies this`entries, this`idle, this`recycle
      ensures PlacedIn(old(View()), id, old(entries[id]), View())
    {
      if entries[id].state == M.Undefined {
        recycle := recycle + [id];
      } else {
        Reschedule(id);
        idle := idle + [id];
      }
    }

    /** Evaluate an entry that was taken off its list, and put it where it belongs. */
    method FsmExecute(id: Id, env: M.Env)
      requires id in entries && (entries[id].state == M.Queue ==> entries[id].ref.Some?)
      modifies this
      ensures View() == M.Execute(old(View()), id, env)
    {
      Settle(id, env);
      ghost var mid := View();
      Place(id);
      CommittedIs(old(View()), id, mid.entries[id], env, mid, View());
    }

    // ----- lists --------------------------------------------------------------------------------

    /** Put an entry at the end of the pending list, whatever list it is on. */
    method MakePending(id: Id)
      modifies this`pending, this`idle, this`recycle
      ensures View() == M.MakePending(old(View()), id)
    {
      idle := M.Remove(idle, id);
      recycle := M.Remove(recycle, id);
      pending := M.Remove(pending, id) + [id];
    }

    /** Have the entries looked at that were taken off the time index. */
    method DoPoll(due: seq<Id>)
      requires forall id :: id in due ==> id in entries
      modifies this
      ensures View() == M.TakeDue(old(View()), due)
    {
      var i := 0;
      while i < |due|
        invariant 0 <= i <= |due| && forall id :: id in due ==> id in entries
        invariant M.TakeDue(old(View()), due) == M.TakeDue(View(), due[i..])
      {
        MakePending(due[i]);
        entries := entries[due[i] := entries[due[i]].(timeKey := 0)];
        i := i + 1;
      }
      assert due[|due|..] == [];
    }

    /** Take the head off the pending list. */
    method PopPending() returns (id: Id)
      requires pending != []
      modifies this`pending
      ensures id == old(pending[0]) && View() == old(View()).(pending := old(pending)[1..])
    {
      id := pending[0];
      pending := pending[1..];
    }

    /** A convergence layer has sent a copy. */
    method RecordEgress(id: Id, clock: nat)
      requires id in entries && entries[id].ref.Some?
      modifies this`entries
      ensures View() == M.Egress(old(View()), id, clock)
    {
      var e := entries[id];
      entries := entries[id := e.(ref := M.Some(e.ref.value.(egressed := true, egressTime := clock)))];
    }

    /** A copy in flight was destroyed. */
    method DestructBlockref(id: Id)
      requires id in entries
      modifies this
      ensures View() == M.DestroyRef(old(View()), id)
    {
      refs := refs - multiset{id};
      entries := entries[id := entries[id].(flags := entries[id].flags.(queued := false))];
      MakePending(id);
    }

    /** The collector destroys a discarded entry. */
    method DestructEntry(id: Id)
      modifies this
      ensures View() == M.DestroyEntry(old(View()), id)
    {
      dacsIndex := M.Remove(dacsIndex, id);
      bundleIndex := M.Remove(bundleIndex, id);
      entries := entries - {id};
      recycle := M.Remove(recycle, id);
    }

    // ----- acknowledgements -----------------------------------------------------------------------

    /** Mark an entry as active. */
    method Touch(id: Id)
      requires id in entries
      modifies this`entries
      ensures View() == M.Touch(old(View()), id)
    {
      entries := entries[id := entries[id].(flags := entries[id].flags.(activity := true), lastHit := now)];
    }

    /** Another custodian has a bundle that was looked up. */
    method Relieve(id: Id)
      requires id in entries
      modifies this
      ensures var e := old(entries[id]);
        View() == M.MakePending(M.Put(old(View()), id, e.(flags := e.flags.(custody := false))), id)
    {
      entries := entries[id := entries[id].(flags := entries[id].flags.(custody := false))];
      MakePending(id);
    }

    /** Add a sequence number to an acknowledgement unless it is there. */
    method AppendDacs(id: Id, seqNum: nat)
      requires id in entries
      modifies this
      ensures View() == M.AppendDacs(old(View()), id, seqNum)
    {
      var e := entries[id];
      var i := 0;
      while i < |e.seqs| && e.seqs[i] != seqNum
        invariant 0 <= i <= |e.seqs| && seqNum !in e.seqs[..i]
      {
        i := i + 1;
      }
      assert e.seqs[..|e.seqs|] == e.seqs;
      if i == |e.seqs| && i < M.MAX_SEQ_PER_PAYLOAD {
        e := e.(seqs := e.seqs + [seqNum]);
      }
      entries := entries[id := e];
      if |e.seqs| == M.MAX_SEQ_PER_PAYLOAD {
        CloseDacs(id);
      }
    }

    /** A full acknowledgement is sent off. */
    method CloseDacs(id: Id)
      requires id in entries
      modifies this
      ensures View() == M.Closed(old(View()), id)
    {
      dacsIndex := M.Remove(dacsIndex, id);
      entries := entries[id := entries[id].(flags := entries[id].flags.(timeWait := false))];
      MakePending(id);
    }

    method OpenDacs(custodian: M.Addr, flow: M.Addr, dacs: M.DacsEnv)
      modifies this
      ensures View() == M.OpenDacs(old(View()), custodian, flow, dacs.self, dacs.seqNum, dacs.clock)
    {
      var id := nextId;
      entries := entries[id := M.NewDacs(now, custodian, flow, dacs.self, dacs.seqNum, dacs.clock)];
      nextId := id + 1;
      dacsIndex := dacsIndex + [id];
      pending := pending + [id];
    }

    // ----- arrivals -------------------------------------------------------------------------------

    /** Write a bundle to the store, if there is one; the identifier is used up in any case. */
    method OffloadBundle(b: M.Bundle, offload: M.Offload) returns (delivery: Delivery, sid: nat)
      modifies this`files, this`lastSid
      ensures delivery == (if offload.NotConfigured? then b.delivery else M.AcceptedDelivery(b))
      ensures sid == (if offload.NotConfigured? then 0 else old(lastSid) + 1)
      ensures lastSid == (if offload.NotConfigured? then old(lastSid) else old(lastSid) + 1)
      ensures files == (if offload.Saved? then old(files)[sid := M.Written(b)]
                        else if offload.Torn? then old(files)[sid := M.BLANK] else old(files))
    {
      delivery, sid := b.delivery, 0;
      if !offload.NotConfigured? {
        if b.delivery.policy == M.CustodyTracking && b.destinedHere {
          delivery := delivery.(policy := M.LocalAck);
        }
        lastSid := lastSid + 1;
        sid := lastSid;
        if offload.Saved? {
          files := files[sid := delivery.(intact := b.payloadLast)];
        } else if offload.Torn? {
          files := files[sid := M.BLANK];
        }
      }
    }

    /** Make an entry for a new bundle, index it and offload it. */
    method AddEntry(b: M.Bundle, offload: M.Offload) returns (id: Id)
      modifies this
      ensures id == old(nextId) && View() == M.AddEntry(old(View()), b, offload)
    {
      id := nextId;
      nextId := id + 1;
      bundleIndex := bundleIndex + [id];
      var delivery, sid := OffloadBundle(b, offload);
      entries := entries[id := M.Entry(M.Idle, M.Flags(true, true, false, false, false),
                                       if b.isRef then M.Some(delivery) else M.None, 0, 0, [], now,
                                       M.Identity(b.flow, b.seqNum, b.expireTime, sid, M.Addr(0, 0), M.Addr(0, 0),
                                                  b.isRef, offload.Saved? && b.payloadLast))];
    }
  }
}
