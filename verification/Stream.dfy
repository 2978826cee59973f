/** Byte streams over lists of blocks. */
module Stream {

  type Byte = int

  /** The bytes of a list of blocks. */
  function Concat(chunks: seq<seq<Byte>>): seq<Byte> {
    if chunks == [] then [] else Concat(chunks[..|chunks| - 1]) + chunks[|chunks| - 1]
  }

  lemma {:induction false} ConcatNext(chunks: seq<seq<Byte>>, k: nat)
    requires k < |chunks|
    ensures Concat(chunks[..k + 1]) == Concat(chunks[..k]) + chunks[k]
  {
    assert chunks[..k + 1][..k] == chunks[..k];
  }

  /** The bytes of the first blocks are the first bytes. */
  lemma {:induction false} ConcatPrefix(chunks: seq<seq<Byte>>, k: nat)
    requires k <= |chunks|
    ensures |Concat(chunks[..k])| <= |Concat(chunks)| && Concat(chunks)[..|Concat(chunks[..k])|] == Concat(chunks[..k])
    decreases |chunks| - k
  {
    if k < |chunks| {
      ConcatNext(chunks, k);
      ConcatPrefix(chunks, k + 1);
      var all, upTo := Concat(chunks), Concat(chunks[..k]);
      assert all[..|upTo|] == all[..|upTo| + |chunks[k]|][..|upTo|];
    } else {
      assert chunks[..k] == chunks;
    }
  }

  lemma {:induction false} SliceOfPrefix(all: seq<Byte>, n: nat, a: nat, b: nat)
    requires a <= b <= n <= |all|
    ensures all[..n][a..b] == all[a..b]
  {
  }

  /** A slice of a block is a slice of the whole. */
  lemma {:induction false} SliceOfBlock(chunks: seq<seq<Byte>>, k: nat, i: nat, j: nat)
    requires k < |chunks| && i <= j <= |chunks[k]|
    ensures var before := |Concat(chunks[..k])|;
      before + j <= |Concat(chunks)| && chunks[k][i..j] == Concat(chunks)[before + i..before + j]
  {
    ConcatNext(chunks, k);
    ConcatPrefix(chunks, k + 1);
    var before := |Concat(chunks[..k])|;
    assert Concat(chunks)[..before + |chunks[k]|] == Concat(chunks[..k]) + chunks[k];
    SliceOfPrefix(Concat(chunks), before + |chunks[k]|, before + i, before + j);
  }

  function Min(a: nat, b: nat): nat { if a < b then a else b }

  function ZeroBytes(n: nat): (z: seq<Byte>)
    ensures |z| == n && forall i :: 0 <= i < n ==> z[i] == 0
  {
    if n == 0 then [] else [0] + ZeroBytes(n - 1)
  }

  /** A stream that reads a list of blocks.  `last` is the block it is in, -1 before the first. */
  class Reader {
    const chunks: seq<seq<Byte>>
    var last: int
    var currPos: nat
    var currLimit: nat
    var position: nat

    /** The position is the number of bytes before the current block, plus the place in it. */
    ghost predicate Valid()
      reads this
    {
      && -1 <= last < |chunks| && currPos <= currLimit
      && currLimit == (if last < 0 then 0 else |chunks[last]|)
      && position == (if last < 0 then 0 else |Concat(chunks[..last])|) + currPos
    }

    constructor (chunks: seq<seq<Byte>>)
      ensures Valid() && this.chunks == chunks && position == 0
    {
      this.chunks := chunks;
      last, currPos, currLimit, position := -1, 0, 0, 0;
    }

    /** At the end of a block, enter the next one; it starts at the same position. */
    method EnterNext() returns (more: bool)
      requires Valid() && currPos >= currLimit
      modifies this
      ensures Valid() && position == old(position)
      ensures more ==> last == old(last) + 1 < |chunks|
      ensures !more ==> last == old(last) && position == |Concat(chunks)|
    {
      if last >= 0 {
        ConcatNext(chunks, last);
      }
      if last + 1 == |chunks| {
        assert chunks[..last + 1] == chunks;
        return false;
      }
      last := last + 1;
      currLimit, currPos := |chunks[last]|, 0;
      return true;
    }

    /** Move forward within the block. */
    method Advance(size: nat) returns (bytes: seq<Byte>)
      requires Valid() && last >= 0 && currPos + size <= currLimit
      modifies this
      ensures Valid() && position == old(position) + size <= |Concat(chunks)| && last == old(last)
      ensures bytes == Concat(chunks)[old(position)..position]
    {
      SliceOfBlock(chunks, last, currPos, currPos + size);
      bytes := chunks[last][currPos..currPos + size];
      currPos, position := currPos + size, position + size;
    }

    /** Read the next bytes, as many as there are. */
    method Read(size: nat) returns (data: seq<Byte>)
      requires Valid()
      modifies this
      ensures Valid() && old(position) <= |Concat(chunks)| && position == old(position) + |data|
      ensures data == Concat(chunks)[old(position)..Min(old(position) + size, |Concat(chunks)|)]
    {
      ghost var all, start := Concat(chunks), position;
      PositionWithin();
      var remain := size;
      data := [];
      while remain > 0
        invariant Valid() && position <= |all| && position == start + |data| && size == |data| + remain
        invariant data == all[start..position]
        decreases remain, |chunks| - last
      {
        if currPos >= currLimit {
          var more := EnterNext();
          if !more {
            break;
          }
        }
        var n := Min(currLimit - currPos, remain);
        var bytes := Advance(n);
        data, remain := data + bytes, remain - n;
      }
      assert position == Min(start + size, |all|);
    }

    /** At the start of a block, go to the end of the one before. */
    method EnterPrevious()
      requires Valid() && currPos == 0 && position > 0
      modifies this
      ensures Valid() && position == old(position) && last == old(last) - 1
    {
      assert last > 0;
      ConcatNext(chunks, last - 1);
      last := last - 1;
      currLimit := |chunks[last]|;
      currPos := currLimit;
    }

    lemma {:induction false} PositionWithin()
      requires Valid()
      ensures position <= |Concat(chunks)|
    {
      if last >= 0 {
        ConcatNext(chunks, last);
        ConcatPrefix(chunks, last + 1);
      }
    }

    /** Move to a position, or to the end if that comes first. */
    method Seek(target: nat) returns (at: nat)
      requires Valid()
      modifies this
      ensures Valid() && at == position == Min(target, |Concat(chunks)|)
    {
      PositionWithin();
      while target > position
        invariant Valid() && position <= |Concat(chunks)|
        decreases target - position, |chunks| - last
      {
        if currPos >= currLimit {
          var more := EnterNext();
          if !more {
            break;
          }
        }
        var bytes := Advance(Min(currLimit - currPos, target - position));
      }
      while target < position
        invariant Valid() && position <= |Concat(chunks)| && (position < target ==> position == |Concat(chunks)|)
        decreases position, last
      {
        if currPos == 0 {
          EnterPrevious();
        }
        var size := Min(currPos, position - target);
        currPos, position := currPos - size, position - size;
      }
      at := position;
    }
  }

  /** The bytes that so many blocks hold. */
  function Supply(blocks: nat, capacity: nat): nat {
    if blocks == 0 then 0 else capacity + Supply(blocks - 1, capacity)
  }

  lemma {:induction false} SupplyIs(blocks: nat, capacity: nat)
    ensures Supply(blocks, capacity) == blocks * capacity
  {
    if blocks > 0 {
      SupplyIs(blocks - 1, capacity);
    }
  }

  /** A stream that writes into new blocks of a fixed capacity; the pool has `available` of them. */
  class Writer {
    const capacity: nat
    var chunks: seq<seq<Byte>>
    var currPos: nat
    var currLimit: nat
    var position: nat
    var available: nat

    ghost function Before(): seq<Byte>
      reads this
      requires chunks != []
    {
      Concat(chunks[..|chunks| - 1])
    }

    /** All blocks but the last are full; the last is used up to the current place, and may hold more
        after a step back. */
    ghost predicate Valid()
      reads this
    {
      && capacity > 0
      && if chunks == [] then currPos == currLimit == position == 0
         else
           && currLimit == capacity && currPos <= |chunks[|chunks| - 1]| <= capacity
           && (forall i :: 0 <= i < |chunks| - 1 ==> |chunks[i]| == capacity)
           && position == |Before()| + currPos
    }

    /** What has been written: the bytes up to the position. */
    ghost function Written(): seq<Byte>
      reads this
      requires Valid()
    {
      if chunks == [] then [] else Before() + chunks[|chunks| - 1][..currPos]
    }

    /** How many more bytes can be written: the rest of the block, and the blocks of the pool. */
    ghost function Room(): int
      reads this
    {
      currLimit - currPos + Supply(available, capacity)
    }

    /** The last block ends at the current place. */
    ghost predicate Trimmed()
      reads this
    {
      chunks == [] || |chunks[|chunks| - 1]| == currPos
    }

    constructor (capacity: nat, available: nat)
      requires capacity > 0
      ensures Valid() && Trimmed() && Written() == [] && this.capacity == capacity && this.available == available
      ensures Room() == Supply(available, capacity) && position == 0
    {
      this.capacity, this.available := capacity, available;
      chunks, currPos, currLimit, position := [], 0, 0, 0;
    }

    /** Append an empty block, if the pool has one. */
    method EnterNew() returns (ok: bool)
      requires Valid() && currPos >= currLimit
      modifies this
      ensures Valid() && position == old(position) && Written() == old(Written()) && ok == (old(available) > 0)
      ensures ok ==> chunks == old(chunks) + [[]] && currPos == 0 && available == old(available) - 1
      ensures !ok ==> chunks == old(chunks) && available == 0 && currPos == old(currPos)
      ensures Room() == old(Room())
    {
      if available == 0 {
        return false;
      }
      ghost var was := chunks;
      if chunks != [] {
        assert was[..|was|] == was;
        ConcatNext(was, |was| - 1);
      }
      available := available - 1;
      chunks := chunks + [[]];
      assert chunks[..|chunks| - 1] == was;
      currPos, currLimit := 0, capacity;
      return true;
    }

    /** Put bytes at the current place; the block then ends with them. */
    method Put(bytes: seq<Byte>)
      requires Valid() && chunks != [] && currPos + |bytes| <= currLimit
      modifies this
      ensures Valid() && Trimmed() && Written() == old(Written()) + bytes && available == old(available)
      ensures position == old(position) + |bytes| && |chunks| == |old(chunks)| && currPos == old(currPos) + |bytes|
      ensures Room() == old(Room()) - |bytes|
    {
      var n := |chunks| - 1;
      ghost var before := chunks[..n];
      chunks := chunks[n := chunks[n][..currPos] + bytes];
      assert chunks[..n] == before;
      currPos, position := currPos + |bytes|, position + |bytes|;
    }

    /** A block with space, if the pool has one. */
    method Ready() returns (ok: bool)
      requires Valid()
      modifies this
      ensures Valid() && position == old(position) && Written() == old(Written())
      ensures ok ==> chunks != [] && currPos < currLimit
      ensures !ok ==> available == 0 && chunks == old(chunks) && currPos == old(currPos)
      ensures (currPos < currLimit ==> ok) && Room() == old(Room()) && (ok <==> Room() > 0)
    {
      ok := true;
      if currPos >= currLimit {
        ok := EnterNew();
      }
    }

    /** The stream holds `start` and then `more`. */
    ghost predicate Holds(start: seq<Byte>, more: seq<Byte>)
      reads this
    {
      Valid() && Written() == start + more && position == |start| + |more|
    }

    /** Write as much as fits the current block. */
    method WritePart(ghost start: seq<Byte>, data: seq<Byte>, n: nat) returns (m: nat)
      requires n < |data| && Holds(start, data[..n]) && chunks != [] && currPos < currLimit
      modifies this
      ensures n < m <= |data| && Holds(start, data[..m]) && Trimmed() && Room() == old(Room()) - (m - n)
    {
      var size := Min(currLimit - currPos, |data| - n);
      m := n + size;
      Put(data[n..m]);
      assert start + data[..n] + data[n..m] == start + (data[..n] + data[n..m]);
      assert data[..m] == data[..n] + data[n..m];
    }

    /** What was written is as long as the position says. */
    lemma {:induction false} WrittenLength()
      requires Valid()
      ensures |Written()| == position
    {
    }

    /** Write data, as much as there is room for. */
    method Write(data: seq<Byte>) returns (n: nat)
      requires Valid()
      modifies this
      ensures Valid() && n <= |data| && Written() == old(Written()) + data[..n] && position == old(position) + n
      ensures Room() == old(Room()) - n >= 0 && (n < |data| ==> Room() == 0)
      ensures Trimmed() <==> old(Trimmed()) || n > 0
    {
      ghost var start, trimmed := Written(), Trimmed();
      WrittenLength();
      n := 0;
      while n < |data|
        invariant 0 <= n <= |data| && Holds(start, data[..n]) && (Trimmed() <==> trimmed || n > 0)
        invariant Room() == old(Room()) - n
      {
        var ok := Ready();
        if !ok {
          break;
        }
        n := WritePart(start, data, n);
      }
    }

    /** Go back to the end of the block before; the last block is given up. */
    method DropBlock()
      requires Valid() && currPos == 0 && position > 0
      modifies this
      ensures Valid() && position == old(position) && Written() == old(Written())
      ensures |chunks| == |old(chunks)| - 1 && currPos == capacity
      ensures available == old(available)
    {
      var n := |chunks| - 1;
      assert n > 0;
      ConcatNext(chunks, n - 1);
      ghost var was := chunks;
      chunks := chunks[..n];
      assert chunks[..n - 1] == was[..n - 1] && chunks[n - 1] == was[n - 1];
      assert chunks[n - 1][..capacity] == chunks[n - 1];
      currLimit, currPos := capacity, capacity;
    }

    /** Move to a position: forward over zeros, as far as there is room; backward by dropping data. */
    method Seek(target: nat) returns (at: nat)
      requires Valid()
      modifies this
      ensures Valid() && at == position
      ensures target >= old(position) ==>
        old(position) <= at <= target && Written() == old(Written()) + ZeroBytes(at - old(position))
          && Room() == old(Room()) - (at - old(position)) >= 0 && (at < target ==> Room() == 0)
      ensures target >= old(position) ==> (Trimmed() <==> old(Trimmed()) || at > old(position))
      ensures target < old(position) ==> at == target && Written() == old(Written())[..target] && !Trimmed()
    {
      SeekForward(target);
      SeekBack(target);
      at := position;
    }

    method SeekForward(target: nat)
      requires Valid()
      modifies this
      ensures Valid()
      ensures if target < old(position) then position == old(position) && Written() == old(Written())
              else
                && old(position) <= position <= target
                && Written() == old(Written()) + ZeroBytes(position - old(position))
                && Room() == old(Room()) - (position - old(position)) >= 0 && (position < target ==> Room() == 0)
      ensures Trimmed() <==> old(Trimmed()) || position > old(position)
    {
      ghost var start := Written();
      WrittenLength();
      assert ZeroBytes(0) == [];
      while target > position
        invariant |start| == old(position) <= position && (position > old(position) ==> position <= target)
        invariant Holds(start, ZeroBytes(position - old(position)))
        invariant Trimmed() <==> old(Trimmed()) || position > old(position)
        invariant Room() == old(Room()) - (position - old(position))
      {
        var ok := Ready();
        if !ok {
          break;
        }
        PutZeros(Min(currLimit - currPos, target - position), position - old(position), start);
      }
    }

    method PutZeros(size: nat, ghost already: nat, ghost start: seq<Byte>)
      requires chunks != [] && 0 < size && currPos + size <= currLimit && Holds(start, ZeroBytes(already))
      modifies this
      ensures Holds(start, ZeroBytes(already + size)) && position == old(position) + size && Trimmed()
      ensures Room() == old(Room()) - size
    {
      ZerosJoin(already, size);
      Put(ZeroBytes(size));
      assert start + ZeroBytes(already) + ZeroBytes(size) == start + (ZeroBytes(already) + ZeroBytes(size));
    }

    method SeekBack(target: nat)
      requires Valid()
      modifies this
      ensures Valid() && available == old(available) && position == Min(target, old(position))
      ensures target >= old(position) ==> Room() == old(Room())
      ensures Written() == old(Written())[..position]
      ensures Trimmed() <==> old(Trimmed()) && position == old(position)
    {
      while target < position
        invariant Valid() && position <= old(position)
        invariant Trimmed() <==> old(Trimmed()) && position == old(position)
        invariant target >= old(position) ==> Room() == old(Room())
        invariant Written() == old(Written())[..position] && available == old(available)
        invariant position < old(position) ==> target <= position
        decreases position, |chunks|
      {
        if currPos == 0 {
          DropBlock();
        }
        StepBack(Min(currPos, position - target));
      }
    }

    /** A step back within the block: its size stays until the next write. */
    method StepBack(size: nat)
      requires Valid() && size <= currPos && chunks != []
      modifies this
      ensures Valid() && position == old(position) - size && Written() == old(Written())[..position]
      ensures chunks == old(chunks) && available == old(available) && currPos == old(currPos) - size
    {
      ghost var was := Written();
      currPos, position := currPos - size, position - size;
      assert Written() == was[..position];
    }

    /** Hand over the blocks.  Their bytes start with what was written, and are no more exactly if the last block
        is trimmed. */
    method Attach() returns (list: seq<seq<Byte>>)
      requires Valid()
      modifies this
      ensures Valid() && Written() == [] && chunks == [] && list == old(chunks)
      ensures old(Written()) <= Concat(list) && (Concat(list) == old(Written()) <==> old(Trimmed()))
    {
      list := chunks;
      if chunks != [] {
        ghost var last := chunks[|chunks| - 1];
        assert chunks == chunks[..|chunks|];
        ConcatNext(chunks, |chunks| - 1);
        assert |last| == currPos ==> last[..currPos] == last;
      }
      chunks, currPos, currLimit, position := [], 0, 0, 0;
    }
  }

  lemma {:induction false} ZerosJoin(a: nat, b: nat)
    ensures ZeroBytes(a) + ZeroBytes(b) == ZeroBytes(a + b)
  {
  }

  /** Copy up to `maxCount` bytes from `seekStart` on, but only whole pieces of blocks that fit the buffer. */
  method CborExport(chunks: seq<seq<Byte>>, maxOut: nat, seekStart: nat, maxCount: nat) returns (out: seq<Byte>)
    ensures |out| <= maxOut && |out| <= maxCount
    ensures var all := Concat(chunks);
      if seekStart > |all| then out == []
      else
        && seekStart + |out| <= |all| && out == all[seekStart..seekStart + |out|]
        && (Min(maxCount, |all| - seekStart) <= maxOut ==> |out| == Min(maxCount, |all| - seekStart))
  {
    var seekLeft: nat, dataLeft: nat, remain: nat := seekStart, maxCount, maxOut;
    out := [];
    var i := 0;
    assert chunks[..0] == [];
    while i < |chunks| && dataLeft > 0
      invariant 0 <= i <= |chunks| && dataLeft + |out| == maxCount && remain + |out| == maxOut
      invariant Exported(chunks, i, seekStart, seekLeft, dataLeft, out)
    {
      var size := |chunks[i]|;
      if seekLeft > size {
        ExportSkips(chunks, i, seekStart, seekLeft, dataLeft, out);
        seekLeft := seekLeft - size;
      } else {
        var from, n := seekLeft, Min(size - seekLeft, dataLeft);
        ExportCopies(chunks, i, seekStart, seekLeft, dataLeft, out, n);
        seekLeft := 0;
        if remain < n {
          break;
        }
        out, remain, dataLeft := out + chunks[i][from..from + n], remain - n, dataLeft - n;
      }
      i := i + 1;
    }
    ExportEnds(chunks, i, seekStart, seekLeft, dataLeft, out);
  }

  lemma {:induction false} SliceJoin(all: seq<Byte>, a: nat, m: nat, b: nat)
    requires a <= m <= b <= |all|
    ensures all[a..m] + all[m..b] == all[a..b]
  {
  }

  /** A block is skipped. */
  lemma {:induction false} ExportSkips(chunks: seq<seq<Byte>>, i: nat, seekStart: nat, seekLeft: nat, dataLeft: nat,
                                       out: seq<Byte>)
    requires i < |chunks| && seekLeft > |chunks[i]| && Exported(chunks, i, seekStart, seekLeft, dataLeft, out)
    ensures Exported(chunks, i + 1, seekStart, seekLeft - |chunks[i]|, dataLeft, out)
  {
    ConcatNext(chunks, i);
  }

  /** A piece of a block is copied. */
  lemma {:induction false} ExportCopies(chunks: seq<seq<Byte>>, i: nat, seekStart: nat, seekLeft: nat, dataLeft: nat,
                                        out: seq<Byte>, n: nat)
    requires i < |chunks| && seekLeft <= |chunks[i]| && dataLeft > 0
    requires Exported(chunks, i, seekStart, seekLeft, dataLeft, out)
    requires n == Min(|chunks[i]| - seekLeft, dataLeft)
    ensures seekStart + |out| + n <= |Concat(chunks)| && out == Concat(chunks)[seekStart..seekStart + |out|]
    ensures Exported(chunks, i + 1, seekStart, 0, dataLeft - n, out + chunks[i][seekLeft..seekLeft + n])
  {
    var all, before := Concat(chunks), |Concat(chunks[..i])|;
    ConcatNext(chunks, i);
    ConcatPrefix(chunks, i + 1);
    SliceOfBlock(chunks, i, seekLeft, seekLeft + n);
    assert seekStart + |out| == before + seekLeft;
    SliceJoin(all, seekStart, seekStart + |out|, seekStart + |out| + n);
  }

  lemma {:induction false} ExportEnds(chunks: seq<seq<Byte>>, i: nat, seekStart: nat, seekLeft: nat, dataLeft: nat,
                                      out: seq<Byte>)
    requires i <= |chunks|
    ensures i == |chunks| && Exported(chunks, i, seekStart, seekLeft, dataLeft, out) ==>
      if seekLeft > 0 then seekStart > |Concat(chunks)| && out == []
      else seekStart + |out| <= |Concat(chunks)| && (dataLeft > 0 ==> seekStart + |out| == |Concat(chunks)|)
  {
    assert i == |chunks| ==> chunks[..i] == chunks;
  }

  /** The bytes of the first `i` blocks were skipped, or copied as far as they were asked for. */
  ghost predicate Exported(chunks: seq<seq<Byte>>, i: nat, seekStart: nat, seekLeft: nat, dataLeft: nat, out: seq<Byte>)
    requires i <= |chunks|
  {
    var before, all := |Concat(chunks[..i])|, Concat(chunks);
    if seekLeft > 0 then before + seekLeft == seekStart && out == []
    else
      && seekStart + |out| <= before <= |all| && out == all[seekStart..seekStart + |out|]
      && (dataLeft > 0 ==> seekStart + |out| == before)
  }
}
