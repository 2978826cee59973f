/** The three indices of the cache together: bundles and open acknowledgements by name, and all entries by time. */
module Indices {
  import M = CacheModel
  import Shape = RbShape
  import opened CacheIndex
  import opened EntryIndex
  import opened TimeIndex

  /** What the indices hold. */
  datatype Book = Book(bundles: ById, acks: ById, times: Keys)

  class Catalog {
    const bundles: Shelf
    const acks: Shelf
    const timers: Timers

    ghost function Repr(): set<object>
      reads this, bundles, acks, timers
    {
      {this} + bundles.Repr() + acks.Repr() + timers.Repr()
    }

    ghost predicate Apart()
      reads this, bundles, acks, timers
    {
      && bundles.Repr() !! acks.Repr() && bundles.Repr() !! timers.Repr() && acks.Repr() !! timers.Repr()
      && this !in bundles.Repr() && this !in acks.Repr() && this !in timers.Repr()
    }

    ghost predicate Valid()
      reads this, bundles, acks, timers, Repr()
    {
      Apart() && bundles.Valid() && acks.Valid() && timers.Valid()
    }

    ghost function View(): Book
      reads this, bundles, acks, timers
    {
      Book(bundles.names, acks.names, timers.keys)
    }

    constructor (bundles: Shelf, acks: Shelf, timers: Timers)
      requires bundles.Valid() && acks.Valid() && timers.Valid()
      requires bundles.Repr() !! acks.Repr() && bundles.Repr() !! timers.Repr() && acks.Repr() !! timers.Repr()
      ensures Valid() && View() == Book(bundles.names, acks.names, timers.keys)
    {
      this.bundles, this.acks, this.timers := bundles, acks, timers;
    }

    method FindBundle(name: Name) returns (r: M.Option<Id>)
      requires Valid()
      ensures Valid() && View() == old(View()) && Repr() == old(Repr())
      ensures Finds(View().bundles, name, r)
    {
      assert allocated(Repr());
      r := bundles.Find(name);
    }

    method FindAck(name: Name) returns (r: M.Option<Id>)
      requires Valid()
      ensures Valid() && View() == old(View()) && Repr() == old(Repr())
      ensures Finds(View().acks, name, r)
    {
      assert allocated(Repr());
      r := acks.Find(name);
    }

    /** A new bundle has a name and no time yet. */
    method AddBundle(id: Id, name: Name) returns (ghost more: set<object>)
      requires Valid() && id !in View().bundles && !Taken(View().bundles, name) && id !in View().times
      modifies Repr()
      ensures Valid() && fresh(more) && Repr() <= old(Repr()) + more
      ensures View() == old(View()).(bundles := old(View()).bundles[id := name], times := old(View()).times[id := 0])
    {
      more := NameBundle(id, name);
      ghost var extra := AddTimer(id);
      more := Both(more, extra);
    }

    /** A new acknowledgement has a name and no time yet. */
    method AddAck(id: Id, name: Name) returns (ghost more: set<object>)
      requires Valid() && id !in View().acks && !Taken(View().acks, name) && id !in View().times
      modifies Repr()
      ensures Valid() && fresh(more) && Repr() <= old(Repr()) + more
      ensures View() == old(View()).(acks := old(View()).acks[id := name], times := old(View()).times[id := 0])
    {
      more := NameAck(id, name);
      ghost var extra := AddTimer(id);
      more := Both(more, extra);
    }

    method NameBundle(id: Id, name: Name) returns (ghost more: set<object>)
      requires Valid() && id !in View().bundles && !Taken(View().bundles, name)
      modifies Repr()
      ensures Valid() && fresh(more) && Repr() <= old(Repr()) + more
      ensures View() == old(View()).(bundles := old(View()).bundles[id := name])
    {
      assert allocated(Repr());
      bundles.Add(id, name);
      more := bundles.Repr() - old(bundles.Repr());
    }

    method NameAck(id: Id, name: Name) returns (ghost more: set<object>)
      requires Valid() && id !in View().acks && !Taken(View().acks, name)
      modifies Repr()
      ensures Valid() && fresh(more) && Repr() <= old(Repr()) + more
      ensures View() == old(View()).(acks := old(View()).acks[id := name])
    {
      assert allocated(Repr());
      acks.Add(id, name);
      more := acks.Repr() - old(acks.Repr());
    }

    method AddTimer(id: Id) returns (ghost more: set<object>)
      requires Valid() && id !in View().times
      modifies Repr()
      ensures Valid() && fresh(more) && Repr() <= old(Repr()) + more
      ensures View() == old(View()).(times := old(View()).times[id := 0])
    {
      more := GrowTimers(id);
    }

    /** Another timer, which leaves the other indices alone. */
    method GrowTimers(id: Id) returns (ghost more: set<object>)
      requires Apart() && timers.Valid() && id !in timers.keys
      modifies timers
      ensures Apart() && timers.Valid() && timers.keys == old(timers.keys)[id := 0]
      ensures (bundles.Valid() && acks.Valid()) == old(bundles.Valid() && acks.Valid())
      ensures bundles.names == old(bundles.names) && acks.names == old(acks.names)
      ensures fresh(more) && Repr() <= old(Repr()) + more
    {
      assert allocated(Repr());
      timers.Add(id);
      more := timers.Repr() - old(timers.Repr());
    }

    /** An acknowledgement is closed. */
    method CloseAck(id: Id)
      requires Valid()
      modifies Repr()
      ensures Valid() && Repr() <= old(Repr())
      ensures View() == old(View()).(acks := old(View()).acks - {id})
    {
      assert allocated(Repr());
      acks.Remove(id);
    }

    /** An entry is to be looked at at this time. */
    method SetTime(id: Id, t: nat)
      requires Valid() && id in View().times && 0 < t < Shape.KEY_LIMIT
      modifies Repr()
      ensures Valid() && Repr() <= old(Repr())
      ensures View() == old(View()).(times := old(View()).times[id := t])
    {
      assert allocated(Repr());
      timers.Set(id, t);
    }

    /** An evaluated entry: an acknowledgement that was closed leaves its index, and a live entry is scheduled. */
    method Update(id: Id, closed: bool, live: bool, t: nat)
      requires Valid() && id in View().times && (live ==> 0 < t < Shape.KEY_LIMIT)
      modifies Repr()
      ensures Valid() && Repr() <= old(Repr())
      ensures View() == old(View()).(acks := if closed then old(View()).acks - {id} else old(View()).acks,
                                     times := if live then old(View()).times[id := t] else old(View()).times)
    {
      if closed {
        CloseAck(id);
      }
      if live {
        SetTime(id, t);
      }
    }

    /** An entry is destroyed. */
    method Drop(id: Id)
      requires Valid() && id in View().times
      modifies Repr()
      ensures Valid() && Repr() <= old(Repr())
      ensures View() == Book(old(View()).bundles - {id}, old(View()).acks - {id}, old(View()).times - {id})
    {
      assert allocated(Repr());
      acks.Remove(id);
      bundles.Remove(id);
      timers.Drop(id);
    }

    /** What is due leaves the index of times. */
    method Drain(bound: nat) returns (due: seq<Id>)
      requires Valid()
      modifies Repr()
      ensures Valid() && Repr() <= old(Repr())
      ensures Due(old(View()).times, bound, due) && View() == old(View()).(times := Cleared(old(View()).times, due))
    {
      assert allocated(Repr());
      due := timers.Drain(bound);
    }
  }

  /** Two sets of new objects. */
  twostate function Both(new a: set<object>, new b: set<object>): (r: set<object>)
    requires fresh(a) && fresh(b)
    ensures r == a + b && fresh(r)
  {
    a + b
  }

  /** Empty indices. */
  method NewCatalog(bundleHash: Name -> nat, ackHash: Name -> nat) returns (c: Catalog)
    ensures c.Valid() && c.View() == Book(map[], map[], map[])
  {
    var bundles := new Shelf(bundleHash);
    assert allocated(bundles.Repr());
    var acks := new Shelf(ackHash);
    assert allocated(acks.Repr()) && allocated(bundles.Repr());
    var timers := new Timers();
    assert allocated(acks.Repr()) && allocated(bundles.Repr()) && allocated(timers.Repr());
    c := new Catalog(bundles, acks, timers);
  }
}
