/** What the indices hold for a state of the cache, and how each operation changes it. */
module CacheBook {
  import opened CacheModel
  import opened CacheInv
  import opened CacheIndex
  import opened Indices
  import E = EntryIndex
  import T = TimeIndex

  /** The names by which entries are looked up, in the order of the comparators. */
  function BundleName(flow: Addr, seqNum: nat): Name { [seqNum, flow.node, flow.service] }

  function AckName(custodian: Addr, flow: Addr): Name {
    [custodian.node, custodian.service, flow.node, flow.service]
  }

  function BundleNameOf(who: Identity): Name { BundleName(who.flow, who.seqNum) }

  function AckNameOf(who: Identity): Name { AckName(who.custodian, who.acked) }

  /** The index has the bundles of the cache, under their names. */
  ghost predicate BundlesMatch(names: E.ById, s: State) {
    && (forall id :: id in names <==> id in s.bundleIndex && id in s.entries)
    && (forall id :: id in names ==> names[id] == BundleNameOf(s.entries[id].who))
  }

  /** The index has the open acknowledgements, under their names. */
  ghost predicate AcksMatch(names: E.ById, s: State) {
    && (forall id :: id in names <==> id in s.dacsIndex && id in s.entries)
    && (forall id :: id in names ==> names[id] == AckNameOf(s.entries[id].who))
  }

  /** The index has the times of the entries. */
  ghost predicate TimesMatch(times: T.Keys, s: State) {
    times.Keys == s.entries.Keys && forall id :: id in times ==> times[id] == s.entries[id].timeKey
  }

  ghost predicate Matches(book: Book, s: State) {
    BundlesMatch(book.bundles, s) && AcksMatch(book.acks, s) && TimesMatch(book.times, s)
  }

  // ----- lookups ------------------------------------------------------------------------------------

  lemma {:induction false} BundleNamed(who: Identity, flow: Addr, seqNum: nat)
    ensures BundleNameOf(who) == BundleName(flow, seqNum) <==> who.flow == flow && who.seqNum == seqNum
  {
    var a, b := BundleNameOf(who), BundleName(flow, seqNum);
    assert a == b ==> a[0] == b[0] && a[1] == b[1] && a[2] == b[2];
  }

  lemma {:induction false} AckNamed(who: Identity, custodian: Addr, flow: Addr)
    ensures AckNameOf(who) == AckName(custodian, flow) <==> who.custodian == custodian && who.acked == flow
  {
    var a, b := AckNameOf(who), AckName(custodian, flow);
    assert a == b ==> a[0] == b[0] && a[1] == b[1] && a[2] == b[2] && a[3] == b[3];
  }

  /** A search by name is the lookup of the model. */
  lemma {:induction false} FindsBundle(names: E.ById, s: State, flow: Addr, seqNum: nat, r: Option<Id>)
    requires (forall id :: id in s.bundleIndex ==> id in s.entries) && BundlesMatch(names, s)
    requires E.Finds(names, BundleName(flow, seqNum), r)
    ensures r == FindBundle(s, s.bundleIndex, flow, seqNum)
  {
    FindBundleIn(s, s.bundleIndex, flow, seqNum);
    var m := FindBundle(s, s.bundleIndex, flow, seqNum);
    if m.Some? {
      var id := m.value;
      BundleNamed(s.entries[id].who, flow, seqNum);
      assert id in names && names[id] == BundleName(flow, seqNum);
    }
    if r.Some? {
      var id := r.value;
      BundleNamed(s.entries[id].who, flow, seqNum);
    }
  }

  lemma {:induction false} FindsAck(names: E.ById, s: State, custodian: Addr, flow: Addr, r: Option<Id>)
    requires (forall id :: id in s.dacsIndex ==> id in s.entries) && AcksMatch(names, s)
    requires E.Finds(names, AckName(custodian, flow), r)
    ensures r == FindDacs(s, s.dacsIndex, custodian, flow) && (r.Some? ==> r.value in s.entries)
  {
    FindDacsIn(s, s.dacsIndex, custodian, flow);
    var m := FindDacs(s, s.dacsIndex, custodian, flow);
    if m.Some? {
      var id := m.value;
      AckNamed(s.entries[id].who, custodian, flow);
      assert id in names && names[id] == AckName(custodian, flow);
    }
    if r.Some? {
      var id := r.value;
      AckNamed(s.entries[id].who, custodian, flow);
    }
  }

  // ----- operations -----------------------------------------------------------------------------------

  /** The indices see nothing but the identity and the time of the entries. */
  lemma {:induction false} SameBook(book: Book, s: State, s': State)
    requires s'.bundleIndex == s.bundleIndex && s'.dacsIndex == s.dacsIndex && s'.entries.Keys == s.entries.Keys
    requires forall id :: id in s.entries ==>
      s'.entries[id].who == s.entries[id].who && s'.entries[id].timeKey == s.entries[id].timeKey
    ensures Matches(book, s) ==> Matches(book, s')
  {
  }

  lemma {:induction false} TouchBook(book: Book, s: State, id: Id)
    requires id in s.entries
    ensures Matches(book, s) ==> Matches(book, Touch(s, id))
  {
    SameBook(book, s, Touch(s, id));
  }

  lemma {:induction false} RelieveBook(book: Book, s: State, id: Id, e: Entry)
    requires id in s.entries && e.who == s.entries[id].who && e.timeKey == s.entries[id].timeKey
    ensures Matches(book, s) ==> Matches(book, MakePending(Put(s, id, e), id))
  {
    SameBook(book, s, MakePending(Put(s, id, e), id));
  }

  /** An acknowledgement leaves its index. */
  lemma {:induction false} ClosedNames(book: Book, s: State, s': State, id: Id)
    requires s'.bundleIndex == s.bundleIndex && s'.dacsIndex == Remove(s.dacsIndex, id)
    requires s'.entries.Keys == s.entries.Keys
    requires forall x :: x in s.entries ==> s'.entries[x].who == s.entries[x].who
    requires BundlesMatch(book.bundles, s) && AcksMatch(book.acks, s)
    ensures BundlesMatch(book.bundles, s') && AcksMatch(book.acks - {id}, s')
  {
    RemoveSpec(s.dacsIndex, id);
  }

  /** A number is added; an acknowledgement that is full leaves its index. */
  lemma {:induction false} AppendBook(book: Book, s: State, id: Id, seqNum: nat)
    requires id in s.entries && Matches(book, s)
    ensures var s' := AppendDacs(s, id, seqNum);
      && id in s'.entries
      && Matches(if |s'.entries[id].seqs| == MAX_SEQ_PER_PAYLOAD then book.(acks := book.acks - {id}) else book, s')
  {
    var s' := AppendDacs(s, id, seqNum);
    if |s'.entries[id].seqs| == MAX_SEQ_PER_PAYLOAD {
      ClosedNames(book, s, s', id);
    } else {
      SameBook(book, s, s');
    }
  }

  /** A new bundle. */
  lemma {:induction false} NewBundleBook(book: Book, s: State, e: Entry, s': State)
    requires s.nextId !in s.entries && s'.entries == s.entries[s.nextId := e] && e.timeKey == 0 && Matches(book, s)
    requires s'.bundleIndex == s.bundleIndex + [s.nextId] && s'.dacsIndex == s.dacsIndex && s.nextId !in s.dacsIndex
    ensures Matches(book.(bundles := book.bundles[s.nextId := BundleNameOf(e.who)],
                          times := book.times[s.nextId := 0]), s')
  {
  }

  /** A new acknowledgement. */
  lemma {:induction false} NewAckBook(book: Book, s: State, e: Entry, s': State)
    requires s.nextId !in s.entries && s'.entries == s.entries[s.nextId := e] && e.timeKey == 0 && Matches(book, s)
    requires s'.dacsIndex == s.dacsIndex + [s.nextId] && s'.bundleIndex == s.bundleIndex && s.nextId !in s.bundleIndex
    ensures Matches(book.(acks := book.acks[s.nextId := AckNameOf(e.who)], times := book.times[s.nextId := 0]), s')
  {
  }

  /** The book after an evaluation: an acknowledgement that is left is closed, and a live entry gets a new time. */
  ghost function Executed(book: Book, id: Id, was: Entry, e: Entry): Book {
    book.(acks := if was.state == GenerateDacs && e.state != GenerateDacs then book.acks - {id} else book.acks,
          times := if e.state != Undefined then book.times[id := e.timeKey] else book.times)
  }

  lemma {:induction false} ExecuteBook(book: Book, s: State, id: Id, env: Env)
    requires id in s.entries && (s.entries[id].state == Queue ==> s.entries[id].ref.Some?) && Matches(book, s)
    ensures var s' := Execute(s, id, env);
      id in s'.entries && Matches(Executed(book, id, s.entries[id], s'.entries[id]), s')
  {
    var e := s.entries[id];
    var e1 := Settled(s.now, e, Restored(s, e, env), env.refAllocOk);
    CommitShape(s, id, e1, env);
    SettledWho(s.now, e, Restored(s, e, env), env.refAllocOk);
    CommitBook(book, s, id, e1, env, Execute(s, id, env));
  }

  lemma {:induction false} CommitBook(book: Book, s: State, id: Id, e: Entry, env: Env, s': State)
    requires id in s.entries && Committed(s, id, e, env, s') && Matches(book, s)
    requires e.who == s.entries[id].who && e.timeKey == s.entries[id].timeKey
    ensures Matches(Executed(book, id, s.entries[id], s'.entries[id]), s')
  {
    if s.entries[id].state == GenerateDacs && e.state != GenerateDacs {
      ClosedNames(book, s, s', id);
    }
  }

  lemma {:induction false} SettledWho(now: nat, e: Entry, restored: Option<Delivery>, ok: bool)
    requires e.state == Queue ==> e.ref.Some?
    ensures Settled(now, e, restored, ok).who == e.who && Settled(now, e, restored, ok).timeKey == e.timeKey
  {
  }

  lemma {:induction false} DestroyBook(book: Book, s: State, id: Id)
    requires Matches(book, s)
    ensures Matches(Book(book.bundles - {id}, book.acks - {id}, book.times - {id}), DestroyEntry(s, id))
  {
    RemoveSpec(s.dacsIndex, id);
    RemoveSpec(s.bundleIndex, id);
  }

  lemma {:induction false} TakeDueBook(book: Book, s: State, due: seq<Id>)
    requires (forall id :: id in due ==> id in s.entries) && Matches(book, s)
    ensures Matches(book.(times := T.Cleared(book.times, due)), TakeDue(s, due))
    decreases |due|
  {
    if due == [] {
      assert T.Cleared(book.times, due) == book.times;
    } else {
      var id := due[0];
      var s1 := MakePending(s, id);
      var s2 := Put(s1, id, s1.entries[id].(timeKey := 0));
      var book2 := book.(times := book.times[id := 0]);
      assert Matches(book2, s2);
      TakeDueBook(book2, s2, due[1..]);
      ClearedMore(book.times, id, due[1..]);
      assert due == [id] + due[1..];
    }
  }

  lemma {:induction false} ClearedMore(times: T.Keys, id: Id, due: seq<Id>)
    requires id in times
    ensures T.Cleared(times[id := 0], due) == T.Cleared(times, [id] + due)
  {
  }
}
