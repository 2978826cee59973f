/** Bundles written to a file and read back. */
module Offload {
  import opened Unsigned
  import Words
  import Table = CrcTable
  import Eng = CrcEngine

  type Byte = int

  type Bits = Words.Bits

  /** The sizes of the structures that are written as they are in memory, and the type and number of a
      canonical block as functions of its header. */
  datatype Layout = Layout(primary: nat, header: nat, data: nat, word: nat, capacity: nat,
                           typeOf: seq<Byte> -> nat, numOf: seq<Byte> -> nat)

  const PAYLOAD_TYPE: nat := 1
  const PAYLOAD_NUM: nat := 1

  /** An extension block has its data in native form, a payload block has three words of size information
      and encoded bytes in chunks. */
  datatype Canonical =
    | Extension(header: seq<Byte>, data: seq<Byte>)
    | Payload(header: seq<Byte>, words: seq<seq<Byte>>, chunks: seq<seq<Byte>>)

  datatype Bundle = Bundle(primary: seq<Byte>, blocks: seq<Canonical>)

  const BLANK: Bundle := Bundle([], [])

  /** The record at the start of the file. */
  datatype Record = Record(numBlocks: nat, numBytes: nat, crc: Bits)

  datatype File = File(record: Record, body: seq<Byte>)

  predicate LayoutOk(l: Layout) { l.primary > 0 && l.header > 0 && l.capacity > 0 }

  predicate CanonicalOk(l: Layout, c: Canonical) {
    && |c.header| == l.header && (c.Payload? <==> l.typeOf(c.header) == PAYLOAD_TYPE)
    && (c.Extension? ==> |c.data| == l.data)
    && (c.Payload? ==> |c.words| == 3 && forall i :: 0 <= i < 3 ==> |c.words[i]| == l.word)
  }

  predicate BundleOk(l: Layout, b: Bundle) {
    |b.primary| == l.primary && forall i :: 0 <= i < |b.blocks| ==> CanonicalOk(l, b.blocks[i])
  }

  // ----- what is written ---------------------------------------------------------------------------

  function Joined(chunks: seq<seq<Byte>>): seq<Byte> {
    if chunks == [] then [] else chunks[0] + Joined(chunks[1..])
  }

  function Image(c: Canonical): seq<Byte> {
    match c
    case Extension(header, data) => header + data
    case Payload(header, words, chunks) => header + (Joined(words) + Joined(chunks))
  }

  function Images(cs: seq<Canonical>): seq<Byte> {
    if cs == [] then [] else Image(cs[0]) + Images(cs[1..])
  }

  function Body(b: Bundle): seq<Byte> { b.primary + Images(b.blocks) }

  // ----- what is read ---------------------------------------------------------------------------------

  /** The rest of the file, and the number of bytes that the record promises. */
  datatype Input = Input(bytes: seq<Byte>, numBytes: nat)

  /** What a read brings, or where it stopped.  The bytes up to `rest` have gone into the check value. */
  datatype Result<+T> = Got(value: T, rest: Input) | Stopped(rest: Input)

  /** A thing that is built up while reading, as far as it went. */
  datatype Partial<+T> = Partial(ok: bool, value: T, rest: Input)

  /** Read `size` bytes, if the record and the file have them. */
  function Take(i: Input, size: nat): Result<seq<Byte>> {
    if i.numBytes < size then Stopped(i)
    else if |i.bytes| < size then Stopped(Input(i.bytes, i.numBytes - size))
    else Got(i.bytes[..size], Input(i.bytes[size..], i.numBytes - size))
  }

  /** All that is left, in chunks of the capacity of a block. */
  function TakeChunks(l: Layout, i: Input): Result<seq<seq<Byte>>>
    requires l.capacity > 0
    decreases i.numBytes
  {
    if i.numBytes == 0 then Got([], i)
    else
      var size := if l.capacity > i.numBytes then i.numBytes else l.capacity;
      match Take(i, size)
      case Stopped(rest) => Stopped(rest)
      case Got(chunk, rest) =>
        match TakeChunks(l, rest)
        case Stopped(end) => Stopped(end)
        case Got(chunks, end) => Got([chunk] + chunks, end)
  }

  function TakePayload(l: Layout, header: seq<Byte>, i: Input): Result<Canonical>
    requires l.capacity > 0
  {
    match Take(i, l.word)
    case Stopped(rest) => Stopped(rest)
    case Got(w0, i0) =>
      match Take(i0, l.word)
      case Stopped(rest) => Stopped(rest)
      case Got(w1, i1) =>
        match Take(i1, l.word)
        case Stopped(rest) => Stopped(rest)
        case Got(w2, i2) =>
          match TakeChunks(l, i2)
          case Stopped(rest) => Stopped(rest)
          case Got(chunks, rest) => Got(Payload(header, [w0, w1, w2], chunks), rest)
  }

  function TakeCanonical(l: Layout, i: Input): Result<Canonical>
    requires l.capacity > 0
  {
    match Take(i, l.header)
    case Stopped(rest) => Stopped(rest)
    case Got(header, i0) =>
      if l.typeOf(header) == PAYLOAD_TYPE then TakePayload(l, header, i0)
      else
        match Take(i0, l.data)
        case Stopped(rest) => Stopped(rest)
        case Got(data, rest) => Got(Extension(header, data), rest)
  }

  /** A block that has the number of the payload at this time goes last, any other goes first. */
  function Inserted(num: nat, list: seq<Canonical>, c: Canonical): seq<Canonical> {
    if num == PAYLOAD_NUM then list + [c] else [c] + list
  }

  function Appended(l: Layout, list: seq<Canonical>, c: Canonical): seq<Canonical> {
    Inserted(l.numOf(c.header), list, c)
  }

  /** A way to read a canonical block. */
  type Reading = Input -> Result<Canonical>

  function Canonicals(l: Layout): Reading
    requires l.capacity > 0
  {
    (i: Input) => TakeCanonical(l, i)
  }

  function TakeBlocks(l: Layout, take: Reading, i: Input, n: nat, list: seq<Canonical>): Partial<seq<Canonical>>
    decreases n
  {
    if n == 0 then Partial(true, list, i)
    else
      match take(i)
      case Stopped(rest) => Partial(false, list, rest)
      case Got(c, rest) => TakeBlocks(l, take, rest, n - 1, Appended(l, list, c))
  }

  /** The bundle in a file, as far as it can be read.  Without any block the bundle is blank. */
  function TakeBundle(l: Layout, i: Input, numBlocks: nat): Partial<Bundle>
    requires l.capacity > 0
  {
    if numBlocks == 0 then Partial(true, BLANK, i)
    else
      match Take(i, l.primary)
      case Stopped(rest) => Partial(false, BLANK, rest)
      case Got(primary, i0) =>
        var t := TakeBlocks(l, Canonicals(l), i0, numBlocks - 1, []);
        Partial(t.ok, Bundle(primary, t.value), t.rest)
  }

  // ----- reading what was written -------------------------------------------------------------------------

  /** Bytes that were written come back, and the rest stays. */
  lemma {:induction false} TakeWritten(a: seq<Byte>, rest: seq<Byte>)
    ensures Take(Input(a + rest, |a + rest|), |a|) == Got(a, Input(rest, |rest|))
  {
    assert (a + rest)[..|a|] == a && (a + rest)[|a|..] == rest;
  }

  /** The bytes in chunks of the capacity. */
  function Chunked(capacity: nat, bytes: seq<Byte>): seq<seq<Byte>>
    requires capacity > 0
    decreases |bytes|
  {
    if bytes == [] then []
    else
      var size := if capacity > |bytes| then |bytes| else capacity;
      [bytes[..size]] + Chunked(capacity, bytes[size..])
  }

  /** Chunking loses nothing. */
  lemma {:induction false} ChunkedJoins(capacity: nat, bytes: seq<Byte>)
    requires capacity > 0
    ensures Joined(Chunked(capacity, bytes)) == bytes
    decreases |bytes|
  {
    if bytes != [] {
      var size := if capacity > |bytes| then |bytes| else capacity;
      ChunkedJoins(capacity, bytes[size..]);
      assert bytes == bytes[..size] + bytes[size..];
    }
  }

  lemma {:induction false} ChunksWritten(l: Layout, bytes: seq<Byte>)
    requires l.capacity > 0
    ensures TakeChunks(l, Input(bytes, |bytes|)) == Got(Chunked(l.capacity, bytes), Input([], 0))
    decreases |bytes|
  {
    if bytes != [] {
      var size := if l.capacity > |bytes| then |bytes| else l.capacity;
      ChunksWritten(l, bytes[size..]);
      assert bytes == bytes[..size] + bytes[size..];
      TakeWritten(bytes[..size], bytes[size..]);
    }
  }

  /** A block as it comes back: the payload in new chunks. */
  function Rechunked(l: Layout, c: Canonical): Canonical
    requires l.capacity > 0
  {
    match c
    case Extension(_, _) => c
    case Payload(header, words, chunks) => Payload(header, words, Chunked(l.capacity, Joined(chunks)))
  }

  lemma {:induction false} ExtensionWritten(l: Layout, c: Canonical, rest: seq<Byte>)
    requires LayoutOk(l) && CanonicalOk(l, c) && c.Extension?
    ensures TakeCanonical(l, Input(Image(c) + rest, |Image(c) + rest|)) == Got(c, Input(rest, |rest|))
  {
    assert Image(c) + rest == c.header + (c.data + rest);
    TakeWritten(c.header, c.data + rest);
    TakeWritten(c.data, rest);
  }

  /** A payload block takes the whole rest of the file. */
  lemma {:induction false} PayloadWritten(l: Layout, c: Canonical, rest: seq<Byte>)
    requires LayoutOk(l) && CanonicalOk(l, c) && c.Payload?
    ensures TakeCanonical(l, Input(Image(c) + rest, |Image(c) + rest|)) == Got(Swallowing(l, c, rest), Input([], 0))
  {
    var w0, w1, w2, tail := c.words[0], c.words[1], c.words[2], Joined(c.chunks) + rest;
    JoinedThree(c.words);
    assert Image(c) + rest == c.header + (w0 + (w1 + (w2 + tail)));
    TakeWritten(c.header, w0 + (w1 + (w2 + tail)));
    TakeWritten(w0, w1 + (w2 + tail));
    TakeWritten(w1, w2 + tail);
    TakeWritten(w2, tail);
    ChunksWritten(l, tail);
    assert [w0, w1, w2] == c.words;
  }

  lemma {:induction false} JoinedThree(w: seq<seq<Byte>>)
    requires |w| == 3
    ensures Joined(w) == w[0] + (w[1] + w[2])
  {
    assert Joined(w[3..]) == [];
    assert w[2..][1..] == w[3..] && w[1..][1..] == w[2..];
    assert Joined(w[2..]) == w[2] && Joined(w[1..]) == w[1] + Joined(w[2..]);
  }

  /** The payload, if there is one, is the last block. */
  ghost predicate PayloadLast(cs: seq<Canonical>) {
    forall i :: 0 <= i < |cs| - 1 ==> cs[i].Extension?
  }

  ghost predicate AllOk(l: Layout, cs: seq<Canonical>) {
    forall i :: 0 <= i < |cs| ==> CanonicalOk(l, cs[i])
  }

  /** A payload block as it comes back when `rest` follows it. */
  function Swallowing(l: Layout, c: Canonical, rest: seq<Byte>): Canonical
    requires l.capacity > 0 && c.Payload?
  {
    Payload(c.header, c.words, Chunked(l.capacity, Joined(c.chunks) + rest))
  }

  /** The list of blocks that reading is meant to build up. */
  function Rebuilt(l: Layout, cs: seq<Canonical>, list: seq<Canonical>): seq<Canonical>
    requires l.capacity > 0
    decreases |cs|
  {
    if cs == [] then list else Rebuilt(l, cs[1..], Appended(l, list, Rechunked(l, cs[0])))
  }

  /** The list of blocks that reading does build up: it ends with the first payload, which takes in all
      the blocks after it. */
  function ReadUp(l: Layout, cs: seq<Canonical>, list: seq<Canonical>): seq<Canonical>
    requires l.capacity > 0
    decreases |cs|
  {
    if cs == [] then list
    else if cs[0].Payload? then Appended(l, list, Swallowing(l, cs[0], Images(cs[1..])))
    else ReadUp(l, cs[1..], Appended(l, list, cs[0]))
  }

  /** `take` brings back extension blocks, and payload blocks with all that follows. */
  ghost predicate Reads(l: Layout, take: Reading)
    requires l.capacity > 0
  {
    && (forall c, rest {:trigger take(Written(c, rest))} :: CanonicalOk(l, c) ==>
          take(Written(c, rest)) ==
          if c.Extension? then Got(c, Input(rest, |rest|)) else Got(Swallowing(l, c, rest), Input([], 0)))
    && take(Input([], 0)) == Stopped(Input([], 0))
  }

  /** The input that starts with a block and continues with `rest`. */
  function Written(c: Canonical, rest: seq<Byte>): Input { Input(Image(c) + rest, |Image(c) + rest|) }

  lemma {:induction false} CanonicalsRead(l: Layout)
    requires LayoutOk(l)
    ensures Reads(l, Canonicals(l))
  {
    var take := Canonicals(l);
    forall c, rest | CanonicalOk(l, c)
      ensures take(Written(c, rest)) ==
        if c.Extension? then Got(c, Input(rest, |rest|)) else Got(Swallowing(l, c, rest), Input([], 0))
    {
      if c.Extension? {
        ExtensionWritten(l, c, rest);
      } else {
        PayloadWritten(l, c, rest);
      }
    }
  }

  lemma {:induction false} ImagesFirst(cs: seq<Canonical>)
    requires cs != []
    ensures Input(Images(cs), |Images(cs)|) == Written(cs[0], Images(cs[1..]))
  {
  }

  /** All bytes are read in any case, but the blocks are all there only if none follows a payload. */
  lemma {:induction false} BlocksWritten(l: Layout, take: Reading, cs: seq<Canonical>, list: seq<Canonical>)
    requires LayoutOk(l) && Reads(l, take) && AllOk(l, cs)
    ensures TakeBlocks(l, take, Input(Images(cs), |Images(cs)|), |cs|, list)
         == Partial(PayloadLast(cs), ReadUp(l, cs, list), Input([], 0))
    decreases |cs|
  {
    if cs != [] {
      var c, tail := cs[0], cs[1..];
      assert CanonicalOk(l, c);
      ImagesFirst(cs);
      if c.Extension? {
        BlocksWritten(l, take, tail, Appended(l, list, c));
        PayloadLastNext(cs);
      } else {
        NothingLeft(l, take, |tail|, Appended(l, list, Swallowing(l, c, Images(tail))));
      }
    }
  }

  lemma {:induction false} PayloadLastNext(cs: seq<Canonical>)
    requires cs != [] && cs[0].Extension?
    ensures PayloadLast(cs) == PayloadLast(cs[1..])
  {
    var tail := cs[1..];
    forall i | 0 <= i < |cs| - 1 && PayloadLast(tail) ensures cs[i].Extension? {
      if i > 0 {
        assert tail[i - 1].Extension?;
      }
    }
    forall i | 0 <= i < |tail| - 1 && PayloadLast(cs) ensures tail[i].Extension? {
      assert cs[i + 1].Extension?;
    }
  }

  /** When all bytes have been read, no further block can be. */
  lemma {:induction false} NothingLeft(l: Layout, take: Reading, n: nat, list: seq<Canonical>)
    requires LayoutOk(l) && Reads(l, take)
    ensures TakeBlocks(l, take, Input([], 0), n, list) == Partial(n == 0, list, Input([], 0))
  {
  }

  /** With nothing after the payload, reading builds up what it is meant to. */
  lemma {:induction false} ReadUpRebuilds(l: Layout, cs: seq<Canonical>, list: seq<Canonical>)
    requires l.capacity > 0 && PayloadLast(cs)
    ensures ReadUp(l, cs, list) == Rebuilt(l, cs, list)
    decreases |cs|
  {
    if cs != [] {
      var c, tail := cs[0], cs[1..];
      if c.Extension? {
        PayloadLastNext(cs);
        ReadUpRebuilds(l, tail, Appended(l, list, c));
      } else {
        assert tail == [] && Joined(c.chunks) + Images(tail) == Joined(c.chunks);
      }
    }
  }

  /** Extension blocks come back in reverse order, before the payload. */
  lemma {:induction false} RebuiltOrder(l: Layout, cs: seq<Canonical>, list: seq<Canonical>)
    requires l.capacity > 0 && forall i :: 0 <= i < |cs| ==> cs[i].Extension? && l.numOf(cs[i].header) != PAYLOAD_NUM
    ensures Rebuilt(l, cs, list) == Backwards(cs) + list
    decreases |cs|
  {
    if cs != [] {
      RebuiltOrder(l, cs[1..], [cs[0]] + list);
    }
  }

  function Backwards(cs: seq<Canonical>): seq<Canonical> {
    if cs == [] then [] else Backwards(cs[1..]) + [cs[0]]
  }

  lemma {:induction false} RebuiltAppend(l: Layout, cs: seq<Canonical>, c: Canonical, list: seq<Canonical>)
    requires l.capacity > 0
    ensures Rebuilt(l, cs + [c], list) == Appended(l, Rebuilt(l, cs, list), Rechunked(l, c))
    decreases |cs|
  {
    if cs == [] {
      assert (cs + [c])[1..] == [] && cs + [c] == [c];
    } else {
      assert (cs + [c])[1..] == cs[1..] + [c];
      RebuiltAppend(l, cs[1..], c, Appended(l, list, Rechunked(l, cs[0])));
    }
  }

  // ----- files ---------------------------------------------------------------------------------------

  /** The check value of a sequence of bytes; which one is left open here, see `CrcCheck`. */
  type Checker = seq<Byte> -> Bits

  /** The file after a success.  The counts of the record have 32 bits. */
  function Saved(check: Checker, b: Bundle): File {
    File(Record((1 + |b.blocks|) % COUNT_LIMIT, |Body(b)| % COUNT_LIMIT, check(Body(b))), Body(b))
  }

  /** `Recycled` is a success with a bundle whose blocks have gone to the recycle queue. */
  datatype Outcome = Mismatch | Restored(bundle: Bundle) | Recycled(bundle: Bundle)

  /** The bytes before `rest`. */
  function Before(bytes: seq<Byte>, rest: seq<Byte>): seq<Byte> {
    if |rest| <= |bytes| then bytes[..|bytes| - |rest|] else bytes
  }

  /** Read the bundle and compare the check value of the bytes that were read.  An incomplete bundle is
      recycled, and handed over all the same if the check value is right. */
  function Restore(l: Layout, check: Checker, f: File): Outcome
    requires l.capacity > 0
  {
    var t := TakeBundle(l, Input(f.body, f.record.numBytes), f.record.numBlocks);
    if check(Before(f.body, t.rest.bytes)) != f.record.crc then Mismatch
    else if t.ok then Restored(t.value)
    else Recycled(t.value)
  }

  /** How many bytes of the file are read, and go into the check value. */
  function BytesRead(l: Layout, f: File): nat
    requires l.capacity > 0
  {
    |Before(f.body, TakeBundle(l, Input(f.body, f.record.numBytes), f.record.numBlocks).rest.bytes)|
  }

  /** A file is accepted exactly if the bytes that are read have the check value of its record, and no more are
      read than there are and than the record promises. */
  lemma {:induction false} AcceptedIfChecked(l: Layout, check: Checker, f: File)
    requires l.capacity > 0
    ensures BytesRead(l, f) <= |f.body| && BytesRead(l, f) <= f.record.numBytes
    ensures Restore(l, check, f) != Mismatch <==> check(f.body[..BytesRead(l, f)]) == f.record.crc
  {
    var i := Input(f.body, f.record.numBytes);
    BundleWithin(l, i, f.record.numBlocks);
    var rest := TakeBundle(l, i, f.record.numBlocks).rest.bytes;
    assert Before(f.body, rest) == f.body[..BytesRead(l, f)];
  }

  lemma {:induction false} BundleWritten(l: Layout, b: Bundle)
    requires LayoutOk(l) && BundleOk(l, b)
    ensures TakeBundle(l, Input(Body(b), |Body(b)|), 1 + |b.blocks|)
         == Partial(PayloadLast(b.blocks), Bundle(b.primary, ReadUp(l, b.blocks, [])), Input([], 0))
  {
    TakeWritten(b.primary, Images(b.blocks));
    CanonicalsRead(l);
    BlocksWritten(l, Canonicals(l), b.blocks, []);
  }

  lemma {:induction false} ImagesGrow(l: Layout, cs: seq<Canonical>)
    requires LayoutOk(l) && AllOk(l, cs)
    ensures |cs| <= |Images(cs)|
    decreases |cs|
  {
    if cs != [] {
      assert CanonicalOk(l, cs[0]);
      ImagesGrow(l, cs[1..]);
    }
  }

  /** What comes back from the file of a bundle.  If nothing follows the payload it is the bundle: the same
      primary data and the same blocks, but for their order and for the chunks of the payload.  Otherwise
      it is a success all the same, with a recycled bundle that ends with the payload. */
  lemma {:induction false} RoundTrip(l: Layout, check: Checker, b: Bundle)
    requires LayoutOk(l) && BundleOk(l, b) && |Body(b)| < COUNT_LIMIT
    ensures Restore(l, check, Saved(check, b)) ==
            if PayloadLast(b.blocks) then Restored(Bundle(b.primary, Rebuilt(l, b.blocks, [])))
            else Recycled(Bundle(b.primary, ReadUp(l, b.blocks, [])))
  {
    BundleWritten(l, b);
    SavedExactly(l, check, b);
    RestoreSaved(l, check, Body(b), 1 + |b.blocks|, PayloadLast(b.blocks), Bundle(b.primary, ReadUp(l, b.blocks, [])));
    if PayloadLast(b.blocks) {
      ReadUpRebuilds(l, b.blocks, []);
    }
  }

  /** The counts of a bundle below 4 GB fit their words. */
  lemma {:induction false} SavedExactly(l: Layout, check: Checker, b: Bundle)
    requires LayoutOk(l) && BundleOk(l, b) && |Body(b)| < COUNT_LIMIT
    ensures Saved(check, b) == File(Record(1 + |b.blocks|, |Body(b)|, check(Body(b))), Body(b))
  {
    ImagesGrow(l, b.blocks);
    SmallCount(|Body(b)|);
    SmallCount(1 + |b.blocks|);
  }

  lemma {:induction false} SmallCount(n: nat)
    requires n < COUNT_LIMIT
    ensures n % COUNT_LIMIT == n
  {
  }

  /** If all bytes are read, the check value is right. */
  lemma {:induction false} RestoreSaved(l: Layout, check: Checker, bytes: seq<Byte>, n: nat, ok: bool, b: Bundle)
    requires l.capacity > 0 && TakeBundle(l, Input(bytes, |bytes|), n) == Partial(ok, b, Input([], 0))
    ensures Restore(l, check, File(Record(n, |bytes|, check(bytes)), bytes)) == if ok then Restored(b) else Recycled(b)
  {
    assert bytes[..|bytes|] == bytes;
  }

  /** The list of a received bundle with one extension block: it comes back as its payload, which now ends
      with the bytes of the extension block. */
  lemma {:induction false} PayloadFirst(l: Layout, check: Checker, primary: seq<Byte>, payload: Canonical,
                                        ext: Canonical)
    requires LayoutOk(l) && BundleOk(l, Bundle(primary, [payload, ext])) && payload.Payload? && ext.Extension?
    requires |Body(Bundle(primary, [payload, ext]))| < COUNT_LIMIT
    ensures var got := Swallowing(l, payload, Image(ext));
      && Restore(l, check, Saved(check, Bundle(primary, [payload, ext]))) == Recycled(Bundle(primary, [got]))
      && Joined(got.chunks) == Joined(payload.chunks) + Image(ext)
  {
    var cs := [payload, ext];
    RoundTrip(l, check, Bundle(primary, cs));
    assert !cs[0].Extension?;
    assert cs[1..] == [ext] && [ext][1..] == [];
    assert Images([ext]) == Image(ext) + Images([]) == Image(ext);
    ChunkedJoins(l.capacity, Joined(payload.chunks) + Image(ext));
  }

  // ----- bodies whose size does not fit the record -----------------------------------------------------

  /** No more is read than the record promises. */
  ghost predicate Within(i: Input, rest: Input) {
    && rest.numBytes <= i.numBytes
    && |rest.bytes| <= |i.bytes| <= |rest.bytes| + (i.numBytes - rest.numBytes)
  }

  lemma {:induction false} ChunksWithin(l: Layout, i: Input)
    requires l.capacity > 0
    ensures Within(i, TakeChunks(l, i).rest)
    decreases i.numBytes
  {
    if i.numBytes > 0 {
      var t := Take(i, if l.capacity > i.numBytes then i.numBytes else l.capacity);
      if t.Got? {
        ChunksWithin(l, t.rest);
      }
    }
  }

  lemma {:induction false} PayloadWithin(l: Layout, header: seq<Byte>, i: Input)
    requires l.capacity > 0
    ensures Within(i, TakePayload(l, header, i).rest)
  {
    var t0 := Take(i, l.word);
    if t0.Got? {
      var t1 := Take(t0.rest, l.word);
      if t1.Got? {
        var t2 := Take(t1.rest, l.word);
        if t2.Got? {
          ChunksWithin(l, t2.rest);
        }
      }
    }
  }

  lemma {:induction false} CanonicalWithin(l: Layout, i: Input)
    requires l.capacity > 0
    ensures Within(i, TakeCanonical(l, i).rest)
  {
    var t := Take(i, l.header);
    if t.Got? && l.typeOf(t.value) == PAYLOAD_TYPE {
      PayloadWithin(l, t.value, t.rest);
    }
  }

  lemma {:induction false} BlocksWithin(l: Layout, i: Input, n: nat, list: seq<Canonical>)
    requires l.capacity > 0
    ensures Within(i, TakeBlocks(l, Canonicals(l), i, n, list).rest)
    decreases n
  {
    if n > 0 {
      CanonicalWithin(l, i);
      var t := TakeCanonical(l, i);
      if t.Got? {
        BlocksWithin(l, t.rest, n - 1, Appended(l, list, t.value));
      }
    }
  }

  /** A body of 4 GB and more is never read to its end: any success is a coincidence of the check values of
      the body and of a proper prefix. */
  lemma {:induction false} OversizeCutOff(l: Layout, check: Checker, b: Bundle)
    requires l.capacity > 0 && |Body(b)| >= COUNT_LIMIT
    ensures var f := Saved(check, b);
      var rest := TakeBundle(l, Input(f.body, f.record.numBytes), f.record.numBlocks).rest.bytes;
      && |Before(f.body, rest)| <= f.record.numBytes < |f.body|
      && (Restore(l, check, f) != Mismatch ==> check(Before(f.body, rest)) == check(f.body))
  {
    var f := Saved(check, b);
    BundleWithin(l, Input(f.body, f.record.numBytes), f.record.numBlocks);
  }

  lemma {:induction false} BundleWithin(l: Layout, i: Input, n: nat)
    requires l.capacity > 0
    ensures Within(i, TakeBundle(l, i, n).rest)
  {
    if n > 0 {
      var t := Take(i, l.primary);
      if t.Got? {
        BlocksWithin(l, t.rest, n - 1, []);
      }
    }
  }

  /** For a bundle with extension blocks and a payload numbered one at the end. */
  lemma {:induction false} RoundTripOrder(l: Layout, check: Checker, b: Bundle, exts: seq<Canonical>,
                                          payload: Canonical)
    requires LayoutOk(l) && BundleOk(l, b) && |Body(b)| < COUNT_LIMIT
    requires b.blocks == exts + [payload] && payload.Payload?
    requires l.numOf(payload.header) == PAYLOAD_NUM
    requires forall i :: 0 <= i < |exts| ==> exts[i].Extension? && l.numOf(exts[i].header) != PAYLOAD_NUM
    ensures Restore(l, check, Saved(check, b)) == Restored(Bundle(b.primary, Backwards(exts) + [Rechunked(l, payload)]))
    ensures Joined(Rechunked(l, payload).chunks) == Joined(payload.chunks)
  {
    RoundTrip(l, check, b);
    RebuiltOrder(l, exts, []);
    RebuiltAppend(l, exts, payload, []);
    ChunkedJoins(l.capacity, Joined(payload.chunks));
  }

  // ----- the check value ----------------------------------------------------------------------------

  const OCTET: nat := 8

  function Octet(b: Byte): Table.Byte { Eng.BitsOf(if b < 0 then 0 else b, OCTET) }

  /** The bits of the bytes. */
  function Octets(bytes: seq<Byte>): (r: seq<Table.Byte>)
    ensures |r| == |bytes|
  {
    if bytes == [] then [] else [Octet(bytes[0])] + Octets(bytes[1..])
  }

  /** The CRC of the file, for the generator `p`. */
  function CrcCheck(p: Bits): Checker
    requires |p| == 32
  {
    (bytes: seq<Byte>) => Eng.CheckValue(p, Words.Ones(|p|), Words.Ones(|p|), Octets(bytes))
  }

  /** What stays when writing fails after some bytes: the place of the record is a hole, which reads as zeros. */
  function Torn(body: seq<Byte>): File { File(Record(0, 0, Words.Zeros(32)), body) }

  /** It reads back as a blank bundle, and its check value is right. */
  lemma {:induction false} TornRestores(l: Layout, p: Bits, body: seq<Byte>)
    requires l.capacity > 0 && |p| == 32 && body != []
    ensures Restore(l, CrcCheck(p), Torn(body)) == Restored(BLANK)
  {
    Eng.CheckOfNothing(p);
    assert body[..0] == [];
  }

  /** The register that the check value comes from takes the bytes in any number of parts. */
  lemma {:induction false} RegisterInParts(p: Bits, r: Bits, a: seq<Byte>, b: seq<Byte>)
    requires |r| == |p| >= 8
    ensures Table.Digest(r, Octets(a + b), p) == Table.Digest(Table.Digest(r, Octets(a), p), Octets(b), p)
  {
    OctetsJoin(a, b);
    Table.DigestConcat(r, Octets(a), Octets(b), p);
  }

  lemma {:induction false} OctetsCons(x: Byte, rest: seq<Byte>)
    ensures Octets([x] + rest) == [Octet(x)] + Octets(rest)
  {
    assert ([x] + rest)[1..] == rest;
  }

  lemma {:induction false} OctetsJoin(a: seq<Byte>, b: seq<Byte>)
    ensures Octets(a + b) == Octets(a) + Octets(b)
    decreases |a|
  {
    if a == [] {
      assert a + b == b;
    } else {
      var x, rest := a[0], a[1..];
      OctetsJoin(rest, b);
      assert a == [x] + rest && a + b == [x] + (rest + b);
      OctetsCons(x, rest);
      OctetsCons(x, rest + b);
    }
  }
}
