/** The custody cache as a state and the operations on it. */
module CacheModel {

  const DACS_LIFETIME: nat := 86400000
  const DACS_OPEN_TIME: nat := 10000
  const FAST_RETRY_TIME: nat := 3000
  const IDLE_RETRY_TIME: nat := 3600000
  const AGE_OUT_TIME: nat := 5000
  const TIME_INFINITE: nat := 0xFFFF_FFFF_FFFF_FFFF
  const MAX_SEQ_PER_PAYLOAD: nat := 16

  datatype Option<+T> = None | Some(value: T)

  datatype Addr = Addr(node: nat, service: nat)

  datatype Fsm = Undefined | Idle | Queue | Delete | GenerateDacs

  datatype Policy = NoDelivery | LocalAck | CustodyTracking

  /** The part of a bundle's primary block that records its delivery, which all copies in memory share;
      and whether its other blocks are there, in a block that is in use. */
  datatype Delivery = Delivery(policy: Policy, egressed: bool, egressTime: nat, retxInterval: nat, intact: bool)

  type Id = int

  datatype Flags = Flags(activity: bool, custody: bool, timeWait: bool, queued: bool, forward: bool)

  /** What is fixed when an entry is created.  `custodian` and `acked` are those of an acknowledgement;
      `fromRef` records that the stored block was a reference, `saved` that its file holds the bundle. */
  datatype Identity = Identity(flow: Addr, seqNum: nat, expireTime: nat, sid: nat,
                               custodian: Addr, acked: Addr, fromRef: bool, saved: bool)

  /** `timeKey` is the key of the entry's link in the time index, zero if it is not in it.
      `seqs` is the payload of an acknowledgement, `lastHit` the time of the last lookup that hit. */
  datatype Entry = Entry(state: Fsm, flags: Flags, ref: Option<Delivery>, actionTime: nat, timeKey: nat,
                         seqs: seq<nat>, lastHit: nat, who: Identity)

  /** `refs` are the in-flight copies that have not been destroyed yet; `files` is the offload store. */
  datatype State = State(
    now: nat, entries: map<Id, Entry>, nextId: Id,
    pending: seq<Id>, idle: seq<Id>, recycle: seq<Id>,
    refs: multiset<Id>,
    bundleIndex: seq<Id>, dacsIndex: seq<Id>,
    files: map<nat, Delivery>, lastSid: nat, released: set<nat>)

  /** What the pool and the offload store answer: nothing in the cache decides it. */
  datatype Env = Env(restoreOk: bool, refAllocOk: bool)

  // ----- lists -----------------------------------------------------------------------------

  function Remove(l: seq<Id>, x: Id): seq<Id> {
    if l == [] then [] else if l[0] == x then Remove(l[1..], x) else [l[0]] + Remove(l[1..], x)
  }

  // ----- one entry -------------------------------------------------------------------------

  /** A timer that has been reached is cleared. */
  function CheckTimer(now: nat, e: Entry): Entry {
    if e.flags.timeWait && now >= e.actionTime
    then e.(flags := e.flags.(timeWait := false), actionTime := TIME_INFINITE)
    else e
  }

  function IdleEval(now: nat, e: Entry, restored: Option<Delivery>): (Fsm, Entry) {
    if now >= e.who.expireTime then (Undefined, e)
    else if !e.flags.custody then (Delete, e)
    else if !e.flags.timeWait && !e.flags.queued then
      var ref := if e.ref.None? && e.who.sid != 0 then restored else e.ref;
      (if ref.Some? then Queue else Idle, e.(ref := ref))
    else (Idle, e)
  }

  function DeleteEval(now: nat, e: Entry): (Fsm, Entry) {
    if e.flags.timeWait then (Delete, e)
    else if !e.flags.activity then (Undefined, e)
    else (Delete, e.(flags := e.flags.(activity := false, timeWait := true), actionTime := now + AGE_OUT_TIME))
  }

  function NextState(now: nat, e: Entry, restored: Option<Delivery>): (Fsm, Entry) {
    match e.state
    case Undefined => (Undefined, e)
    case Idle => IdleEval(now, e, restored)
    case Queue => (if e.flags.queued then Queue else Idle, e)
    case Delete => DeleteEval(now, e)
    case GenerateDacs => (if e.flags.timeWait then GenerateDacs else Idle, e)
  }

  /** Leaving the queue state: recorded egress ends local custody, unless custody is tracked, in which
      case a retransmit is scheduled.  The copy in memory is dropped if there is one in the store. */
  function QueueExit(e: Entry): Entry
    requires e.ref.Some?
  {
    var d := e.ref.value;
    var ref := if e.who.sid != 0 then None else e.ref;
    if !d.egressed then e.(ref := ref)
    else if d.policy != CustodyTracking then
      e.(ref := ref, flags := e.flags.(forward := false, custody := false))
    else
      e.(ref := ref, flags := e.flags.(forward := false, timeWait := true), actionTime := d.egressTime + d.retxInterval)
  }

  function QueueEnter(e: Entry, refAllocOk: bool): Entry {
    e.(flags := e.flags.(forward := true, queued := e.flags.queued || refAllocOk))
  }

  function DeleteEnter(now: nat, e: Entry): Entry {
    e.(ref := None, flags := e.flags.(timeWait := true), actionTime := now + AGE_OUT_TIME)
  }

  /** The exit actions of the state of the entry. */
  function Left(e: Entry): Entry
    requires e.state == Queue ==> e.ref.Some?
  {
    if e.state == Queue then QueueExit(e) else e
  }

  /** The entry actions of the next state. */
  function Entered(now: nat, e: Entry, next: Fsm, refAllocOk: bool): Entry {
    if next == Queue then QueueEnter(e, refAllocOk) else if next == Delete then DeleteEnter(now, e) else e
  }

  /** The state change of one entry: exit actions of the old state, then entry actions of the new one. */
  function Moved(now: nat, e: Entry, next: Fsm, refAllocOk: bool): Entry
    requires e.state == Queue ==> e.ref.Some?
  {
    Entered(now, Left(e), next, refAllocOk).(state := next)
  }

  function Evaluated(now: nat, e: Entry, restored: Option<Delivery>): (Fsm, Entry) {
    NextState(now, CheckTimer(now, e), restored)
  }

  /** The transition to `next`, if that is another state. */
  function Shifted(now: nat, e: Entry, next: Fsm, refAllocOk: bool): Entry
    requires e.state == Queue ==> e.ref.Some?
  {
    if next != e.state then Moved(now, e, next, refAllocOk) else e
  }

  /** The entry after evaluation and, if its state changes, the transition. */
  function Settled(now: nat, e: Entry, restored: Option<Delivery>, refAllocOk: bool): Entry
    requires e.state == Queue ==> e.ref.Some?
  {
    var (next, e1) := Evaluated(now, e, restored);
    Shifted(now, e1, next, refAllocOk)
  }

  /** The time of the next look at the entry. */
  function NextLook(now: nat, e: Entry): nat {
    var t := now + if !e.flags.timeWait && !e.flags.queued then FAST_RETRY_TIME else IDLE_RETRY_TIME;
    if e.flags.timeWait && t > e.actionTime then e.actionTime else t
  }

  // ----- the whole cache ---------------------------------------------------------------------

  function Restored(s: State, e: Entry, env: Env): Option<Delivery> {
    if env.restoreOk && e.who.sid in s.files then Some(s.files[e.who.sid]) else None
  }

  /** The effects of a state change outside the entry: an acknowledgement is closed, a copy is put in
      flight, the stored file is released. */
  function Effects(s: State, id: Id, e: Entry, next: Fsm, env: Env): State {
    var s1 := if e.state == GenerateDacs then s.(dacsIndex := Remove(s.dacsIndex, id)) else s;
    if next == Queue && env.refAllocOk then s1.(refs := s1.refs + multiset{id})
    else if next == Delete && e.who.sid != 0 then
      s1.(files := s1.files - {e.who.sid}, released := s1.released + {e.who.sid})
    else s1
  }

  /** Store an evaluated entry and put it where it belongs. */
  function Commit(s: State, id: Id, e: Entry, env: Env): State
    requires id in s.entries
  {
    var before := s.entries[id];
    var s1 := if e.state != before.state then Effects(s, id, before, e.state, env) else s;
    if e.state == Undefined then s1.(entries := s1.entries[id := e], recycle := s1.recycle + [id])
    else s1.(entries := s1.entries[id := e.(timeKey := NextLook(s.now, e))], idle := s1.idle + [id])
  }

  /** Evaluate an entry that was taken off its list. */
  function Execute(s: State, id: Id, env: Env): State
    requires id in s.entries
    requires s.entries[id].state == Queue ==> s.entries[id].ref.Some?
  {
    var e := s.entries[id];
    Commit(s, id, Settled(s.now, e, Restored(s, e, env), env.refAllocOk), env)
  }

  /** Move an entry from whatever list it is on to the end of the pending list. */
  function MakePending(s: State, id: Id): State {
    s.(idle := Remove(s.idle, id), recycle := Remove(s.recycle, id), pending := Remove(s.pending, id) + [id])
  }

  function Put(s: State, id: Id, e: Entry): State { s.(entries := s.entries[id := e]) }

  // ----- lookups -----------------------------------------------------------------------------

  function FindBundle(s: State, index: seq<Id>, flow: Addr, seqNum: nat): Option<Id>
    requires forall id :: id in index ==> id in s.entries
  {
    if index == [] then None
    else
      var id := index[0];
      if s.entries[id].who.flow == flow && s.entries[id].who.seqNum == seqNum then Some(id)
      else FindBundle(s, index[1..], flow, seqNum)
  }

  function FindDacs(s: State, index: seq<Id>, custodian: Addr, flow: Addr): Option<Id>
    requires forall id :: id in index ==> id in s.entries
  {
    if index == [] then None
    else
      var id := index[0];
      if s.entries[id].who.custodian == custodian && s.entries[id].who.acked == flow then Some(id)
      else FindDacs(s, index[1..], custodian, flow)
  }

  /** A lookup that hits marks the entry as active. */
  function Touch(s: State, id: Id): State
    requires id in s.entries
  {
    var e := s.entries[id];
    Put(s, id, e.(flags := e.flags.(activity := true), lastHit := s.now))
  }

  // ----- acknowledgements ----------------------------------------------------------------------

  function NewDacs(now: nat, custodian: Addr, flow: Addr, self: Addr, seqNum: nat, clock: nat): Entry {
    Entry(GenerateDacs, Flags(true, true, true, false, false),
          Some(Delivery(LocalAck, false, 0, FAST_RETRY_TIME, true)), clock + DACS_OPEN_TIME, 0, [], now,
          Identity(self, seqNum, clock + DACS_LIFETIME, 0, custodian, flow, true, false))
  }

  function OpenDacs(s: State, custodian: Addr, flow: Addr, self: Addr, seqNum: nat, clock: nat): State {
    var id := s.nextId;
    s.(entries := s.entries[id := NewDacs(s.now, custodian, flow, self, seqNum, clock)], nextId := id + 1,
       dacsIndex := s.dacsIndex + [id], pending := s.pending + [id])
  }

  /** The payload with `seqNum` in it, if there is room. */
  function WithSeq(seqs: seq<nat>, seqNum: nat): seq<nat> {
    if seqNum !in seqs && |seqs| < MAX_SEQ_PER_PAYLOAD then seqs + [seqNum] else seqs
  }

  /** A full acknowledgement leaves the index and waits no longer. */
  function Closed(s: State, id: Id): State
    requires id in s.entries
  {
    var e := s.entries[id];
    MakePending(Put(s.(dacsIndex := Remove(s.dacsIndex, id)), id, e.(flags := e.flags.(timeWait := false))), id)
  }

  /** Add a sequence number unless it is there already; a full payload is closed and sent off. */
  function AppendDacs(s: State, id: Id, seqNum: nat): State
    requires id in s.entries
  {
    var e := s.entries[id];
    var seqs := WithSeq(e.seqs, seqNum);
    var s1 := Put(s, id, e.(seqs := seqs));
    if |seqs| == MAX_SEQ_PER_PAYLOAD then Closed(s1, id) else s1
  }

  /** What is needed to open an acknowledgement: the cache's own address, its counter, the clock, and
      whether the pool has blocks left. */
  datatype DacsEnv = DacsEnv(self: Addr, seqNum: nat, clock: nat, allocOk: bool)

  function Acknowledge(s: State, custodian: Option<Addr>, flow: Addr, seqNum: nat, dacs: DacsEnv): State
    requires forall id :: id in s.dacsIndex ==> id in s.entries
  {
    if custodian.None? then s
    else
      match FindDacs(s, s.dacsIndex, custodian.value, flow)
      case Some(id) => FindDacsIn(s, s.dacsIndex, custodian.value, flow); AppendDacs(s, id, seqNum)
      case None =>
        if dacs.allocOk then
          AppendDacs(OpenDacs(s, custodian.value, flow, dacs.self, dacs.seqNum, dacs.clock), s.nextId, seqNum)
        else s
  }

  // ----- arrivals ------------------------------------------------------------------------------

  /** A torn file was begun but its record was never written; it reads back as an empty bundle. */
  datatype Offload = NotConfigured | Failed | Torn | Saved

  const BLANK: Delivery := Delivery(NoDelivery, false, 0, 0, false)

  /** A bundle pulled from the egress queue of the cache.  `payloadLast` says that no block follows the
      payload in the list that is written to the store. */
  datatype Bundle = Bundle(flow: Addr, seqNum: nat, expireTime: nat, delivery: Delivery,
                           isRef: bool, custodian: Option<Addr>, destinedHere: bool, payloadLast: bool)

  /** A bundle for this node only needs the acceptance of the local agent. */
  function AcceptedDelivery(b: Bundle): Delivery {
    if b.delivery.policy == CustodyTracking && b.destinedHere then b.delivery.(policy := LocalAck) else b.delivery
  }

  /** What reading a written bundle back brings: a bundle with a block after its payload comes back as one
      that has been recycled. */
  function Written(b: Bundle): Delivery { AcceptedDelivery(b).(intact := b.payloadLast) }

  function NewEntry(s: State, b: Bundle, offload: Offload): Entry {
    var d := if offload.NotConfigured? then b.delivery else AcceptedDelivery(b);
    var sid := if offload.NotConfigured? then 0 else s.lastSid + 1;
    Entry(Idle, Flags(true, true, false, false, false), if b.isRef then Some(d) else None, 0, 0, [], s.now,
          Identity(b.flow, b.seqNum, b.expireTime, sid, Addr(0, 0), Addr(0, 0), b.isRef,
                   offload.Saved? && b.payloadLast))
  }

  /** Add the entry to the bundle index and the store; it is on no list yet. */
  function AddEntry(s: State, b: Bundle, offload: Offload): State {
    var id, sid := s.nextId, s.lastSid + 1;
    var s1 := s.(entries := s.entries[id := NewEntry(s, b, offload)], nextId := id + 1,
      bundleIndex := s.bundleIndex + [id]);
    match offload
    case NotConfigured => s1
    case Failed => s1.(lastSid := sid)
    case Torn => s1.(lastSid := sid, files := s1.files[sid := BLANK])
    case Saved => s1.(lastSid := sid, files := s1.files[sid := Written(b)])
  }

  ghost predicate IndicesHold(s: State) {
    && (forall id :: id in s.bundleIndex ==> id in s.entries)
    && (forall id :: id in s.dacsIndex ==> id in s.entries && id < s.nextId)
  }

  /** A bundle that was not seen before; it is acknowledged only once it is in the store. */
  function StoreNew(s: State, b: Bundle, offload: Offload, dacs: DacsEnv, env: Env): State
    requires IndicesHold(s)
  {
    var id, s1 := s.nextId, AddEntry(s, b, offload);
    var s2 := if offload.Saved? then Acknowledge(s1, b.custodian, b.flow, b.seqNum, dacs) else s1;
    AcknowledgeKeeps(s1, b.custodian, b.flow, b.seqNum, dacs, id);
    Execute(s2, id, env)
  }

  function StoreBundle(s: State, b: Bundle, allocOk: bool, offload: Offload, dacs: DacsEnv, env: Env): State
    requires IndicesHold(s)
  {
    match FindBundle(s, s.bundleIndex, b.flow, b.seqNum)
    case Some(id) =>
      FindBundleIn(s, s.bundleIndex, b.flow, b.seqNum);
      Acknowledge(Touch(s, id), b.custodian, b.flow, b.seqNum, dacs)
    case None => if allocOk then StoreNew(s, b, offload, dacs, env) else s
  }

  /** Another custodian has accepted this bundle. */
  function Released(s: State, id: Id): State
    requires id in s.entries
  {
    var s1 := Touch(s, id);
    var e := s1.entries[id];
    MakePending(Put(s1, id, e.(flags := e.flags.(custody := false))), id)
  }

  /** An acknowledgement from another custodian names a flow and sequence numbers. */
  function RemoteDacs(s: State, flow: Addr, seqs: seq<nat>): State
    requires forall id :: id in s.bundleIndex ==> id in s.entries
    decreases |seqs|
  {
    if seqs == [] then s
    else
      match FindBundle(s, s.bundleIndex, flow, seqs[0])
      case None => RemoteDacs(s, flow, seqs[1..])
      case Some(id) =>
        FindBundleIn(s, s.bundleIndex, flow, seqs[0]);
        RemoteDacs(Released(s, id), flow, seqs[1..])
  }

  // ----- timers and the collector ----------------------------------------------------------------

  /** The links the poll yields are taken off the time index one by one. */
  function TakeDue(s: State, due: seq<Id>): State
    requires forall id :: id in due ==> id in s.entries
    decreases |due|
  {
    if due == [] then s
    else
      var s1 := MakePending(s, due[0]);
      TakeDue(Put(s1, due[0], s1.entries[due[0]].(timeKey := 0)), due[1..])
  }

  /** A copy in flight is destroyed: the entry may be evaluated again. */
  function DestroyRef(s: State, id: Id): State
    requires id in s.entries
  {
    var e := s.entries[id];
    MakePending(Put(s.(refs := s.refs - multiset{id}), id, e.(flags := e.flags.(queued := false))), id)
  }

  /** The collector runs the destructor of a discarded entry. */
  function DestroyEntry(s: State, id: Id): State {
    s.(entries := s.entries - {id}, recycle := Remove(s.recycle, id),
       bundleIndex := Remove(s.bundleIndex, id), dacsIndex := Remove(s.dacsIndex, id))
  }

  /** A convergence layer sends a copy and records it in the shared delivery data. */
  function Egress(s: State, id: Id, clock: nat): State
    requires id in s.entries && s.entries[id].ref.Some?
  {
    var e := s.entries[id];
    Put(s, id, e.(ref := Some(e.ref.value.(egressed := true, egressTime := clock))))
  }

  // ----- lookups return members ----------------------------------------------------------------

  lemma {:induction false} FindBundleIn(s: State, index: seq<Id>, flow: Addr, seqNum: nat)
    requires forall id :: id in index ==> id in s.entries
    ensures var r := FindBundle(s, index, flow, seqNum);
      && (r.Some? ==>
        r.value in index && s.entries[r.value].who.flow == flow && s.entries[r.value].who.seqNum == seqNum)
      && (r.None? ==> forall id :: id in index ==>
        !(s.entries[id].who.flow == flow && s.entries[id].who.seqNum == seqNum))
    decreases index
  {
    if index != [] {
      FindBundleIn(s, index[1..], flow, seqNum);
    }
  }

  lemma {:induction false} FindDacsIn(s: State, index: seq<Id>, custodian: Addr, flow: Addr)
    requires forall id :: id in index ==> id in s.entries
    ensures var r := FindDacs(s, index, custodian, flow);
      && (r.Some? ==>
        r.value in index && s.entries[r.value].who.custodian == custodian && s.entries[r.value].who.acked == flow)
      && (r.None? ==> forall id :: id in index ==>
        !(s.entries[id].who.custodian == custodian && s.entries[id].who.acked == flow))
    decreases index
  {
    if index != [] {
      FindDacsIn(s, index[1..], custodian, flow);
    }
  }

  /** An acknowledgement touches no entry but that of the acknowledgement. */
  lemma AcknowledgeKeeps(s: State, custodian: Option<Addr>, flow: Addr, seqNum: nat, dacs: DacsEnv, id: Id)
    requires forall x :: x in s.dacsIndex ==> x in s.entries && x < s.nextId
    requires id in s.entries && id < s.nextId && id !in s.dacsIndex
    ensures var s' := Acknowledge(s, custodian, flow, seqNum, dacs); id in s'.entries && s'.entries[id] == s.entries[id]
  {
    if custodian.Some? {
      FindDacsIn(s, s.dacsIndex, custodian.value, flow);
    }
  }

  /** Evaluation alone leaves the state; the transition ends in the state it decided on. */
  lemma EvaluatedKeeps(now: nat, e: Entry, restored: Option<Delivery>, refAllocOk: bool)
    requires e.state == Queue ==> e.ref.Some?
    ensures var (n, e1) := Evaluated(now, e, restored);
      && e1.state == e.state && e1.who == e.who && (e.state == Queue ==> e1.ref == e.ref)
      && Settled(now, e, restored, refAllocOk).state == n
  {
  }

  lemma LeftKeepsIdentity(e: Entry)
    requires e.state == Queue ==> e.ref.Some?
    ensures Left(e).who == e.who && Left(e).state == e.state
  {
  }
}
