/** The memory pool as a state: where every block is, what it holds, and who refers to it. */
module PoolModel {
  import opened Unsigned

  type Id = int

  datatype Option<+T> = None | Some(value: T)

  datatype Kind = Undefined | Api | Generic | Primary | Canonical | Flow | Ref

  /** The one place where a block is.  `Within(o, w)` is list `w` of block `o`. */
  datatype Place = Free | Recycled | Collecting | Loose | Within(owner: Id, second: bool)

  /** `first` and `second` are the lists embedded in a block: the canonical blocks and chunks of a primary
      block, the chunks of a canonical block, the two queues of a flow.  `target` is what a reference block
      refers to.  A block is `doomed` from the release of its last reference until it is recycled. */
  datatype Block = Block(kind: Kind, place: Place, first: seq<Id>, second: seq<Id>,
                         refcount: nat, target: Option<Id>, doomed: bool)

  /** `light` are the references that clients hold outside of reference blocks. */
  datatype State = State(blocks: map<Id, Block>, free: seq<Id>, recycle: seq<Id>, light: multiset<Id>,
                         threshold: nat, watermark: nat)

  const EMPTY: Block := Block(Undefined, Free, [], [], 0, None, false)

  /** The blocks of a new pool go to the free queue one by one. */
  function Laid(count: nat): State {
    if count == 0 then State(map[], [], [], multiset{}, 0, 0)
    else
      var s := Laid(count - 1);
      Put(s, count - 1, EMPTY).(free := s.free + [count - 1])
  }

  /** Thirty percent of the blocks, computed with 32 bits. */
  function Threshold(count: nat): nat { (count * 30) % COUNT_LIMIT / 100 }

  function Created(count: nat): State { Laid(count).(threshold := Threshold(count)) }

  function Put(s: State, id: Id, b: Block): State { s.(blocks := s.blocks[id := b]) }

  // ----- allocation -----------------------------------------------------------------------------

  /** The number of free blocks that an allocation of this priority must leave alone. */
  function Reserve(threshold: nat, priority: nat): nat
    requires threshold < COUNT_LIMIT && priority <= 255
  {
    threshold - (threshold * priority) % COUNT_LIMIT / 255
  }

  function CanAlloc(s: State, kind: Kind, priority: nat): bool
    requires s.threshold < COUNT_LIMIT && priority <= 255
  {
    kind != Undefined && |s.free| > Reserve(s.threshold, priority)
  }

  /** Take the first free block for a new object; it is not in any list. */
  function Alloc(s: State, kind: Kind, target: Option<Id>): State
    requires s.free != []
  {
    var used := 1 + |s.blocks| - |s.free|;
    var s1 := s.(free := s.free[1..], watermark := if used > s.watermark then used else s.watermark);
    Put(s1, s.free[0], EMPTY.(kind := kind, place := Loose, target := target))
  }

  /** Which blocks have which lists. */
  predicate HasList(kind: Kind, second: bool) {
    kind == Primary || kind == Flow || (kind == Canonical && !second)
  }

  // ----- lists ------------------------------------------------------------------------------------

  function List(b: Block, second: bool): seq<Id> { if second then b.second else b.first }

  function WithList(b: Block, second: bool, l: seq<Id>): Block {
    if second then b.(second := l) else b.(first := l)
  }

  /** Append a loose block to a list of another one. */
  function Attach(s: State, id: Id, owner: Id, second: bool): State
    requires id in s.blocks && owner in s.blocks && id != owner
  {
    var s1 := Put(s, id, s.blocks[id].(place := Within(owner, second)));
    Put(s1, owner, WithList(s.blocks[owner], second, List(s.blocks[owner], second) + [id]))
  }

  /** Take the first block off a list. */
  function Detach(s: State, owner: Id, second: bool): State
    requires owner in s.blocks && List(s.blocks[owner], second) != []
    requires var id := List(s.blocks[owner], second)[0]; id in s.blocks && id != owner
  {
    var l := List(s.blocks[owner], second);
    var s1 := Put(s, l[0], s.blocks[l[0]].(place := Loose));
    Put(s1, owner, WithList(s.blocks[owner], second, l[1..]))
  }

  /** Give a loose block back. */
  function Recycle(s: State, id: Id): State
    requires id in s.blocks
  {
    Put(s, id, s.blocks[id].(place := Recycled, doomed := false)).(recycle := s.recycle + [id])
  }

  // ----- collection -------------------------------------------------------------------------------

  /** The collector takes the first recycled block. */
  function CollectStart(s: State): State
    requires s.recycle != [] && s.recycle[0] in s.blocks
  {
    var id := s.recycle[0];
    Put(s.(recycle := s.recycle[1..]), id, s.blocks[id].(place := Collecting))
  }

  /** The lists of a dead block join the recycle queue, one after the other. */
  function Strip(s: State, id: Id): State
    requires id in s.blocks
  {
    var b := s.blocks[id];
    var nested := b.first + b.second;
    s.(blocks := map x | x in s.blocks ::
         if x == id then b.(first := [], second := [])
         else if x in nested then s.blocks[x].(place := Recycled) else s.blocks[x],
       recycle := s.recycle + nested)
  }

  /** The stripped block is free again. */
  function CollectEnd(s: State, id: Id): State {
    Put(s, id, EMPTY).(free := s.free + [id])
  }

  // ----- references -------------------------------------------------------------------------------

  function Raised(b: Block): Block { b.(refcount := b.refcount + 1) }

  /** One reference more, held by a client. */
  function Retain(s: State, id: Id): State
    requires id in s.blocks
  {
    Put(s, id, Raised(s.blocks[id])).(light := s.light + multiset{id})
  }

  /** The count goes down; the block is doomed if that was the last reference. */
  function Dropped(b: Block): Block {
    var n := if b.refcount > 0 then b.refcount - 1 else 0;
    b.(refcount := n, doomed := n == 0)
  }

  function Release(s: State, id: Id): State
    requires id in s.blocks
  {
    Put(s, id, Dropped(s.blocks[id])).(light := s.light - multiset{id})
  }

  /** A reference block for `id`, if the pool has one. */
  function MakeRef(s: State, id: Id): State
    requires s.free != [] && id in s.blocks
  {
    var s1 := Alloc(s, Ref, Some(id));
    if id in s1.blocks then Put(s1, id, Raised(s1.blocks[id])) else s1
  }

  /** The collector lets go of the target of a dead reference block. */
  function Unlink(s: State, id: Id): State
    requires id in s.blocks && s.blocks[id].target.Some? && s.blocks[id].target.value in s.blocks
  {
    var t := s.blocks[id].target.value;
    var s1 := Put(s, id, s.blocks[id].(target := None));
    Put(s1, t, Dropped(s1.blocks[t]))
  }
}
