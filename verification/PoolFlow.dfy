/** Bounded queues between threads: pushing and moving wait for space, and others act meanwhile. */
module PoolFlow {
  import opened Unsigned

  type Block = int

  /** A queue with its counters and its depth limit. */
  datatype Bounded = Bounded(contents: seq<Block>, pushCount: Count, pullCount: Count, limit: Count)

  /** What the program takes for the number of blocks in the queue. */
  function Depth(q: Bounded): Count { Minus(q.pushCount, q.pullCount) }

  function Pushed(q: Bounded, blocks: seq<Block>): Bounded {
    q.(contents := q.contents + blocks, pushCount := Add(q.pushCount, |blocks|))
  }

  function Pulled(q: Bounded, n: nat): Bounded
    requires n <= |q.contents|
  {
    q.(contents := q.contents[n..], pullCount := Add(q.pullCount, n))
  }

  /** The counters give the depth. */
  ghost predicate Counted(q: Bounded) { |q.contents| < COUNT_LIMIT && Depth(q) == |q.contents| }

  lemma PushedCounted(q: Bounded, blocks: seq<Block>)
    requires Counted(q) && |q.contents| + |blocks| < COUNT_LIMIT
    ensures Counted(Pushed(q, blocks))
  {
    CountsMove(q.pushCount, q.pullCount, |blocks|);
  }

  lemma PulledCounted(q: Bounded, n: nat)
    requires Counted(q) && n <= |q.contents|
    ensures Counted(Pulled(q, n))
  {
    CountsMove(q.pushCount, q.pullCount, n);
  }

  /** What other threads can change while the lock is released. */
  datatype World = World(src: Bounded, dst: Bounded)

  /** One wait for the lock: whether it ended in time, and what the others made of the queues. */
  datatype Wake = Wake(inTime: bool, after: World)

  /** The queues after `i` waits. */
  function WorldAfter(w: World, waits: seq<Wake>, i: nat): World
    requires i <= |waits|
  {
    if i == 0 then w else waits[i - 1].after
  }

  const POOL_LIMIT: nat := 0x8000_0000

  /** A pool has fewer than 2^31 blocks, so the sum of two depths does not wrap around. */
  ghost predicate Sized(w: World) {
    && Counted(w.src) && Counted(w.dst)
    && |w.src.contents| < POOL_LIMIT && |w.dst.contents| < POOL_LIMIT
  }

  predicate NoSpace(q: Bounded, quantity: nat) { |q.contents| + quantity > q.limit }

  class Flows {
    var world: World
    /** The waits to come: nothing is known about them. */
    var waits: seq<Wake>

    ghost predicate Valid()
      reads this
    {
      Sized(world) && forall i :: 0 <= i < |waits| ==> Sized(waits[i].after)
    }

    /** After `k` waits, the queues are as the others left them. */
    twostate predicate Waited(k: nat)
      reads this
    {
      && k <= |old(waits)| && waits == old(waits)[k..]
      && world == if k == 0 then old(world) else old(waits)[k - 1].after
    }

    /** After `k` waits the time is over: there was none, or the last wait took too long, or nothing will wake the
        thread. */
    twostate predicate TimeOver(k: nat, timeout: nat)
      reads this
    {
      timeout == 0 || k >= |old(waits)| || (k > 0 && !old(waits)[k - 1].inTime)
    }

    /** Release the lock and wait; without another wake-up the time is over. */
    method LockWait() returns (inTime: bool)
      requires Valid()
      modifies this
      ensures Valid()
      ensures old(waits) == [] ==> !inTime && world == old(world) && waits == []
      ensures old(waits) != [] ==>
        inTime == old(waits)[0].inTime && world == old(waits)[0].after && waits == old(waits)[1..]
    {
      if waits == [] {
        return false;
      }
      world, inTime, waits := waits[0].after, waits[0].inTime, waits[1..];
    }

    method WaitForSpace(quantity: Count, timeout: nat) returns (ok: bool, ghost k: nat)
      requires Valid() && quantity < POOL_LIMIT
      modifies this
      ensures Valid() && Waited(k)
      ensures ok <==> |world.dst.contents| + quantity <= world.dst.limit
      ensures forall i :: 0 <= i < k ==> NoSpace(WorldAfter(old(world), old(waits), i).dst, quantity)
      ensures (k > 0 ==> timeout != 0) && (forall i :: 0 <= i < k - 1 ==> old(waits)[i].inTime)
      ensures !ok ==> TimeOver(k, timeout)
    {
      k := 0;
      var next := Add(Depth(world.dst), quantity);
      var inTime := timeout != 0;
      while next > world.dst.limit && inTime
        invariant Valid() && Waited(k)
        invariant next == |world.dst.contents| + quantity
        invariant forall i :: 0 <= i < k ==> NoSpace(WorldAfter(old(world), old(waits), i).dst, quantity)
        invariant (k > 0 ==> timeout != 0) && (forall i :: 0 <= i < k - 1 ==> old(waits)[i].inTime)
        invariant if inTime then k > 0 ==> old(waits)[k - 1].inTime else TimeOver(k, timeout)
        decreases |waits|, inTime
      {
        ghost var more := waits != [];
        inTime := LockWait();
        k := if more then k + 1 else k;
        next := Add(Depth(world.dst), quantity);
      }
      ok := next <= world.dst.limit;
    }

    method WaitForFill(quantity: Count, timeout: nat) returns (ok: bool, ghost k: nat)
      requires Valid()
      modifies this
      ensures Valid() && Waited(k)
      ensures ok <==> |world.src.contents| >= quantity
      ensures forall i :: 0 <= i < k ==> |WorldAfter(old(world), old(waits), i).src.contents| < quantity
      ensures (k > 0 ==> timeout != 0) && (forall i :: 0 <= i < k - 1 ==> old(waits)[i].inTime)
      ensures !ok ==> TimeOver(k, timeout)
    {
      k := 0;
      var inTime := timeout != 0;
      while Depth(world.src) < quantity && inTime
        invariant Valid() && Waited(k)
        invariant forall i :: 0 <= i < k ==> |WorldAfter(old(world), old(waits), i).src.contents| < quantity
        invariant (k > 0 ==> timeout != 0) && (forall i :: 0 <= i < k - 1 ==> old(waits)[i].inTime)
        invariant if inTime then k > 0 ==> old(waits)[k - 1].inTime else TimeOver(k, timeout)
        decreases |waits|, inTime
      {
        ghost var more := waits != [];
        inTime := LockWait();
        k := if more then k + 1 else k;
      }
      ok := Depth(world.src) >= quantity;
    }

    /** Push a block if there is space in time.  Then the queue is within its limit, and the block is
        last; otherwise only the others changed anything.  `met` is what the last wait ended with. */
    method TryPush(block: Block, timeout: nat) returns (ok: bool, ghost k: nat, ghost met: World)
      requires Valid()
      modifies this
      ensures Sized(met) && k <= |old(waits)| && met == (if k == 0 then old(world) else old(waits)[k - 1].after)
      ensures waits == old(waits)[k..]
      ensures ok <==> |met.dst.contents| < met.dst.limit
      ensures !ok ==> TimeOver(k, timeout)
      ensures forall i :: 0 <= i < k ==> NoSpace(WorldAfter(old(world), old(waits), i).dst, 1)
      ensures world == if ok then met.(dst := Pushed(met.dst, [block])) else met
      ensures ok ==> world.dst.contents == met.dst.contents + [block] && world.dst.limit == met.dst.limit
      ensures Counted(world.dst) && (ok ==> |world.dst.contents| <= world.dst.limit)
    {
      ok, k := WaitForSpace(1, timeout);
      met := world;
      if ok {
        PushedCounted(world.dst, [block]);
        world := world.(dst := Pushed(world.dst, [block]));
      }
    }

    /** Pull the oldest block if there is one in time. */
    method TryPull(timeout: nat) returns (block: Block, ok: bool, ghost k: nat, ghost met: World)
      requires Valid()
      modifies this
      ensures k <= |old(waits)| && waits == old(waits)[k..]
      ensures met == (if k == 0 then old(world) else old(waits)[k - 1].after)
      ensures ok <==> met.src.contents != []
      ensures !ok ==> TimeOver(k, timeout)
      ensures forall i :: 0 <= i < k ==> WorldAfter(old(world), old(waits), i).src.contents == []
      ensures ok ==> block == met.src.contents[0] && world == met.(src := Pulled(met.src, 1))
      ensures ok ==> world.src.contents == met.src.contents[1..] && world.src.limit == met.src.limit
      ensures Counted(world.src) && (!ok ==> world == met)
    {
      ok, k := WaitForFill(1, timeout);
      met, block := world, 0;
      if ok {
        PulledCounted(world.src, 1);
        block := world.src.contents[0];
        world := world.(src := Pulled(world.src, 1));
      }
    }

    /** The length of the source after `j` waits. */
    twostate function SourceAfter(j: nat): nat
      requires j <= |old(waits)|
      reads this
    {
      if j == 0 then |old(world).src.contents| else |old(waits)[j - 1].after.src.contents|
    }

    /** Move everything from one queue to the other if there is space in time: all of it, in order, and
        within the limit, although the source may grow and shrink during the waits.  The last wait was for
        the space `asked`, which is what the source held after `j` waits; the move is made exactly if there
        is that space, and then the source has not grown beyond it. */
    method TryMoveAll(timeout: nat)
      returns (moved: nat, ok: bool, ghost k: nat, ghost met: World, ghost j: nat, ghost asked: nat)
      requires Valid()
      modifies this
      ensures j <= k <= |old(waits)| && waits == old(waits)[k..]
      ensures met == (if k == 0 then old(world) else old(waits)[k - 1].after)
      ensures asked == SourceAfter(j) && (ok <==> |met.dst.contents| + asked <= met.dst.limit)
      ensures ok ==> moved == |met.src.contents| <= asked
      ensures !ok ==> TimeOver(k, timeout)
      ensures ok ==> world == World(Pulled(met.src, moved), Pushed(met.dst, met.src.contents))
      ensures ok ==> world.src.contents == [] && world.dst.contents == met.dst.contents + met.src.contents
      ensures ok ==> world.src.limit == met.src.limit && world.dst.limit == met.dst.limit
      ensures ok ==> |world.dst.contents| <= world.dst.limit
      ensures Counted(world.src) && Counted(world.dst) && (!ok ==> world == met && moved == 0)
    {
      k, j := 0, 0;
      var quantity := Depth(world.src);
      var previous := quantity;
      asked := quantity;
      ghost var i;
      ok, i := WaitForSpace(quantity, timeout);
      k := i;
      quantity := Depth(world.src);
      while ok && quantity > previous
        invariant Valid() && Waited(k) && j <= k
        invariant quantity == |world.src.contents| && previous == asked == SourceAfter(j)
        invariant ok <==> |world.dst.contents| + asked <= world.dst.limit
        invariant !ok ==> TimeOver(k, timeout)
        decreases |waits|, if ok then quantity as int - previous as int else -1
      {
        previous := quantity;
        j, asked := k, quantity;
        ok, i := WaitForSpace(quantity, timeout);
        assert waits == old(waits)[k..][i..] == old(waits)[k + i..];
        k := k + i;
        quantity := Depth(world.src);
      }
      met, moved := world, 0;
      if ok {
        moved := Depth(world.src);
        PulledCounted(world.src, moved);
        PushedCounted(world.dst, world.src.contents);
        world := World(Pulled(world.src, moved), Pushed(world.dst, world.src.contents));
      }
    }
  }

  // ----- first in, first out ----------------------------------------------------------------------------

  /** What a thread does to the queues while it holds the lock.  Every interleaving of threads is a sequence of
      these, on any number of queues. */
  datatype Deed = Push(to: int, block: Block) | Pull(from: int) | Move(from: int, to: int)

  type Queues = map<int, Bounded>

  /** What goes into queue `q`, and what comes out of it. */
  function In(qs: Queues, d: Deed, q: int): seq<Block> {
    match d
    case Push(to, block) => if to == q then [block] else []
    case Pull(_) => []
    case Move(from, to) => if to == q && from in qs && from != q then qs[from].contents else []
  }

  function Out(qs: Queues, d: Deed, q: int): seq<Block> {
    match d
    case Push(_, _) => []
    case Pull(from) => if from == q && q in qs && qs[q].contents != [] then [qs[q].contents[0]] else []
    case Move(from, to) => if from == q && to != q && q in qs then qs[q].contents else []
  }

  function Done(qs: Queues, d: Deed): Queues {
    match d
    case Push(to, block) => if to in qs then qs[to := Pushed(qs[to], [block])] else qs
    case Pull(from) => if from in qs && qs[from].contents != [] then qs[from := Pulled(qs[from], 1)] else qs
    case Move(from, to) =>
      if from in qs && to in qs && from != to then
        qs[from := Pulled(qs[from], |qs[from].contents|)][to := Pushed(qs[to], qs[from].contents)]
      else qs
  }

  function AllDone(qs: Queues, ds: seq<Deed>): Queues
    decreases |ds|
  {
    if ds == [] then qs else AllDone(Done(qs, ds[0]), ds[1..])
  }

  function AllIn(qs: Queues, ds: seq<Deed>, q: int): seq<Block>
    decreases |ds|
  {
    if ds == [] then [] else In(qs, ds[0], q) + AllIn(Done(qs, ds[0]), ds[1..], q)
  }

  function AllOut(qs: Queues, ds: seq<Deed>, q: int): seq<Block>
    decreases |ds|
  {
    if ds == [] then [] else Out(qs, ds[0], q) + AllOut(Done(qs, ds[0]), ds[1..], q)
  }

  /** The queues that a deed names exist. */
  predicate Known(qs: Queues, d: Deed) {
    match d
    case Push(to, _) => to in qs
    case Pull(from) => from in qs
    case Move(from, to) => from in qs && to in qs
  }

  lemma {:induction false} DeedFifo(qs: Queues, d: Deed, q: int)
    requires q in qs && Known(qs, d)
    ensures q in Done(qs, d) && Done(qs, d).Keys == qs.Keys
    ensures Out(qs, d, q) + Done(qs, d)[q].contents == qs[q].contents + In(qs, d, q)
  {
  }

  /** Whatever the threads do in whatever order: what came out of a queue, followed by what is in it, is what was in
      it, followed by what went into it. */
  lemma {:induction false} Fifo(qs: Queues, ds: seq<Deed>, q: int)
    requires q in qs && forall i :: 0 <= i < |ds| ==> Known(qs, ds[i])
    ensures q in AllDone(qs, ds)
    ensures AllOut(qs, ds, q) + AllDone(qs, ds)[q].contents == qs[q].contents + AllIn(qs, ds, q)
    decreases |ds|
  {
    if ds != [] {
      var d, rest, next := ds[0], ds[1..], Done(qs, ds[0]);
      DeedFifo(qs, d, q);
      Fifo(next, rest, q);
      var out, outs := Out(qs, d, q), AllOut(next, rest, q);
      var input, inputs, c := In(qs, d, q), AllIn(next, rest, q), next[q].contents;
      Chain(out, c, qs[q].contents, input, outs, AllDone(next, rest)[q].contents, inputs);
    }
  }

  lemma {:induction false} Chain(out: seq<Block>, c: seq<Block>, b: seq<Block>, input: seq<Block>, outs: seq<Block>,
                                 d: seq<Block>, inputs: seq<Block>)
    requires out + c == b + input && outs + d == c + inputs
    ensures (out + outs) + d == b + (input + inputs)
  {
    calc {
      (out + outs) + d;
      out + (outs + d);
      out + (c + inputs);
      (out + c) + inputs;
      (b + input) + inputs;
      b + (input + inputs);
    }
  }

  const SRC: int := 0
  const DST: int := 1

  function Both(w: World): Queues { map[SRC := w.src, DST := w.dst] }

  datatype Request = ToPush(block: Block) | ToPull | ToMove

  function DeedOf(r: Request): Deed {
    match r
    case ToPush(block) => Push(DST, block)
    case ToPull => Pull(SRC)
    case ToMove => Move(SRC, DST)
  }

  /** The methods do these deeds: whatever sequence of them is called, without others in between, each does its deed
      or nothing. */
  method Serve(f: Flows, requests: seq<Request>) returns (ghost deeds: seq<Deed>)
    requires f.Valid() && f.waits == []
    modifies f
    ensures f.waits == [] && AllDone(Both(old(f.world)), deeds) == Both(f.world)
    ensures forall i :: 0 <= i < |deeds| ==> Known(Both(old(f.world)), deeds[i])
  {
    deeds := [];
    var i := 0;
    while i < |requests| && Fits(f)
      invariant 0 <= i <= |requests| && f.waits == []
      invariant AllDone(Both(old(f.world)), deeds) == Both(f.world) && Counted(f.world.src) && Counted(f.world.dst)
      invariant forall j :: 0 <= j < |deeds| ==> Known(Both(old(f.world)), deeds[j])
    {
      var ok := ServeOne(f, requests[i]);
      if ok {
        DoneMore(Both(old(f.world)), deeds, DeedOf(requests[i]));
        deeds := deeds + [DeedOf(requests[i])];
      }
      i := i + 1;
    }
  }

  /** The queues are shorter than the number of blocks of a pool. */
  predicate Fits(f: Flows)
    reads f
  {
    |f.world.src.contents| < POOL_LIMIT && |f.world.dst.contents| < POOL_LIMIT
  }

  method ServeOne(f: Flows, r: Request) returns (ok: bool)
    requires f.Valid() && f.waits == []
    modifies f
    ensures f.waits == [] && Counted(f.world.src) && Counted(f.world.dst)
    ensures Both(f.world) == if ok then Done(Both(old(f.world)), DeedOf(r)) else Both(old(f.world))
  {
    ghost var k, met, j, asked;
    match r {
      case ToPush(block) =>
        ok, k, met := f.TryPush(block, 0);
      case ToPull =>
        var b;
        b, ok, k, met := f.TryPull(0);
      case ToMove =>
        var n;
        n, ok, k, met, j, asked := f.TryMoveAll(0);
    }
  }

  lemma {:induction false} DoneMore(qs: Queues, ds: seq<Deed>, d: Deed)
    ensures AllDone(qs, ds + [d]) == Done(AllDone(qs, ds), d)
    decreases |ds|
  {
    if ds == [] {
      assert ds + [d] == [d] && [d][1..] == [];
    } else {
      assert (ds + [d])[1..] == ds[1..] + [d];
      DoneMore(Done(qs, ds[0]), ds[1..], d);
    }
  }
}
