/** The loops that write a bundle to its file and read it back, with the running counts and CRC. */
module OffloadImpl {
  import opened Offload
  import opened Unsigned
  import Poly = CrcPoly
  import Words
  import Table = CrcTable

  /** A CRC algorithm as its users see it. */
  datatype Algorithm = Algorithm(initial: Bits, update: (Bits, seq<Byte>) -> Bits, finish: Bits -> Bits)

  ghost predicate InParts(crc: Algorithm, a: seq<Byte>, b: seq<Byte>) {
    crc.update(crc.update(crc.initial, a), b) == crc.update(crc.initial, a + b)
  }

  /** Updating in parts is updating with the whole. */
  ghost predicate Incremental(crc: Algorithm) {
    crc.update(crc.initial, []) == crc.initial && forall a, b :: InParts(crc, a, b)
  }

  function CheckOf(crc: Algorithm): Checker {
    (bytes: seq<Byte>) => crc.finish(crc.update(crc.initial, bytes))
  }

  lemma {:induction false} JoinedCons(x: seq<Byte>, rest: seq<seq<Byte>>)
    ensures Joined([x] + rest) == x + Joined(rest)
  {
    assert ([x] + rest)[1..] == rest;
  }

  lemma {:induction false} JoinedNext(chunks: seq<seq<Byte>>, k: nat)
    requires k < |chunks|
    ensures Joined(chunks[..k + 1]) == Joined(chunks[..k]) + chunks[k]
  {
    var first, rest := chunks[0], chunks[1..];
    if k > 0 {
      JoinedNext(rest, k - 1);
      assert chunks[..k + 1] == [first] + rest[..k] && chunks[..k] == [first] + rest[..k - 1];
      JoinedCons(first, rest[..k]);
      JoinedCons(first, rest[..k - 1]);
    } else {
      assert chunks[..1] == [first] + [];
      JoinedCons(first, []);
    }
  }

  lemma {:induction false} JoinedPrefix(chunks: seq<seq<Byte>>, k: nat)
    requires k <= |chunks|
    ensures Joined(chunks[..k]) <= Joined(chunks)
    decreases |chunks| - k
  {
    if k < |chunks| {
      JoinedNext(chunks, k);
      JoinedPrefix(chunks, k + 1);
    } else {
      assert chunks[..k] == chunks;
    }
  }

  /** What is written for every block of a list. */
  function Pieces(cs: seq<Canonical>): (r: seq<seq<Byte>>)
    ensures |r| == |cs| && forall i :: 0 <= i < |cs| ==> r[i] == Image(cs[i])
  {
    if cs == [] then [] else [Image(cs[0])] + Pieces(cs[1..])
  }

  lemma {:induction false} ImagesArePieces(cs: seq<Canonical>)
    ensures Images(cs) == Joined(Pieces(cs))
  {
    if cs != [] {
      ImagesArePieces(cs[1..]);
      JoinedCons(Image(cs[0]), Pieces(cs[1..]));
    }
  }

  /** Writes a bundle behind the place of its record. */
  class Writer {
    const alg: Algorithm
    var body: seq<Byte>
    var room: nat
    var numBlocks: Count
    var numBytes: Count
    var crc: Bits

    /** The counts and the CRC are those of the bytes in the file. */
    ghost predicate Valid()
      reads this
    {
      Incremental(alg) && numBytes == |body| % COUNT_LIMIT && crc == alg.update(alg.initial, body)
    }

    constructor (alg: Algorithm, room: nat)
      requires Incremental(alg)
      ensures Valid() && this.alg == alg && this.room == room && body == [] && numBlocks == 0
    {
      this.alg, this.room := alg, room;
      body, numBlocks, numBytes, crc := [], 0, 0, alg.initial;
    }

    /** `bytes` were to be written when the file was `start` and had room for `space` bytes: they are all
        there, or as many of them as there was room for. */
    ghost predicate Wrote(ok: bool, start: seq<Byte>, space: nat, bytes: seq<Byte>)
      reads this
    {
      if ok then Valid() && body == start + bytes && room + |bytes| == space
      else |bytes| > space && body == start + bytes[..space]
    }

    method WriteContent(bytes: seq<Byte>) returns (ok: bool)
      requires Valid()
      modifies this`body, this`room, this`numBytes, this`crc
      ensures Wrote(ok, old(body), old(room), bytes)
    {
      ghost var was := body;
      numBytes := Add(numBytes, |bytes|);
      crc := alg.update(crc, bytes);
      ok := |bytes| <= room;
      if ok {
        body, room := body + bytes, room - |bytes|;
        CountOn(|was|, |bytes|);
        assert InParts(alg, was, bytes);
      } else {
        body, room := body + bytes[..room], 0;
      }
    }

    /** One more piece of `whole`, after `before`. */
    method WriteMore(ghost start: seq<Byte>, ghost space: nat, ghost before: seq<Byte>, bytes: seq<Byte>,
                     ghost whole: seq<Byte>) returns (ok: bool)
      requires Wrote(true, start, space, before) && before + bytes <= whole
      modifies this`body, this`room, this`numBytes, this`crc
      ensures if ok then Wrote(true, start, space, before + bytes) else Wrote(false, start, space, whole)
    {
      ghost var left := room;
      ok := WriteContent(bytes);
      if ok {
        assert start + before + bytes == start + (before + bytes);
      } else {
        assert start + before + bytes[..left] == start + (before + bytes)[..space];
        assert (before + bytes)[..space] == whole[..space];
      }
    }

    /** Pieces one after the other, until one does not fit. */
    method WritePieces(pieces: seq<seq<Byte>>) returns (ok: bool)
      requires Valid()
      modifies this`body, this`room, this`numBytes, this`crc
      ensures Wrote(ok, old(body), old(room), Joined(pieces))
    {
      ghost var start, space := body, room;
      ok := true;
      var i := 0;
      while i < |pieces| && ok
        invariant 0 <= i <= |pieces|
        invariant if ok then Wrote(true, start, space, Joined(pieces[..i]))
          else Wrote(false, start, space, Joined(pieces))
      {
        JoinedNext(pieces, i);
        JoinedPrefix(pieces, i + 1);
        ok := WriteMore(start, space, Joined(pieces[..i]), pieces[i], Joined(pieces));
        i := i + 1;
      }
      if ok {
        assert pieces[..i] == pieces;
      }
    }

    /** The size information and the chunks of the payload. */
    method WritePayload(words: seq<seq<Byte>>, chunks: seq<seq<Byte>>) returns (ok: bool)
      requires Valid()
      modifies this`body, this`room, this`numBytes, this`crc
      ensures Wrote(ok, old(body), old(room), Joined(words) + Joined(chunks))
    {
      ghost var start, space, a, b := body, room, Joined(words), Joined(chunks);
      ok := WritePieces(words);
      if ok {
        ok := WritePieces(chunks);
        TwoParts(start, space, a, b);
      } else {
        assert (a + b)[..space] == a[..space];
      }
    }

    /** Two things written one after the other, as one. */
    static lemma {:induction false} TwoParts(start: seq<Byte>, space: nat, a: seq<Byte>, b: seq<Byte>)
      ensures start + a + b == start + (a + b)
      ensures |a| <= space < |a| + |b| ==> start + a + b[..space - |a|] == start + (a + b)[..space]
    {
      if |a| <= space < |a| + |b| {
        assert a + b[..space - |a|] == (a + b)[..space];
      }
    }

    method WriteCanonical(c: Canonical) returns (ok: bool)
      requires Valid()
      modifies this`body, this`room, this`numBytes, this`crc
      ensures Wrote(ok, old(body), old(room), Image(c))
    {
      ghost var start, space := body, room;
      ok := WriteContent(c.header);
      if ok {
        match c
        case Extension(header, data) =>
          ok := WriteContent(data);
          TwoParts(start, space, header, data);
        case Payload(header, words, chunks) =>
          ok := WritePayload(words, chunks);
          TwoParts(start, space, header, Joined(words) + Joined(chunks));
      } else {
        assert Image(c)[..space] == c.header[..space];
      }
    }

    /** One more block of the list, whose pieces are given. */
    method WriteNext(ghost start: seq<Byte>, ghost space: nat, c: Canonical, ghost pieces: seq<seq<Byte>>,
                     ghost i: nat) returns (ok: bool)
      requires i < |pieces| && Wrote(true, start, space, Joined(pieces[..i])) && pieces[i] == Image(c)
      modifies this
      ensures numBlocks == Add(old(numBlocks), 1)
      ensures if ok then Wrote(true, start, space, Joined(pieces[..i + 1]))
              else Wrote(false, start, space, Joined(pieces))
    {
      JoinedNext(pieces, i);
      JoinedPrefix(pieces, i + 1);
      ghost var a, b := Joined(pieces[..i]), pieces[i];
      numBlocks := Add(numBlocks, 1);
      ok := WriteCanonical(c);
      TwoParts(start, space, a, b);
      if !ok {
        assert (a + b)[..space] == Joined(pieces)[..space];
      }
    }

    /** The canonical blocks, in the order of the list. */
    method WriteList(cs: seq<Canonical>, ghost before: nat) returns (ok: bool)
      requires Valid() && numBlocks == before % COUNT_LIMIT
      modifies this
      ensures Wrote(ok, old(body), old(room), Images(cs)) && (ok ==> numBlocks == (before + |cs|) % COUNT_LIMIT)
    {
      ghost var start, space, pieces := body, room, Pieces(cs);
      ImagesArePieces(cs);
      ok := true;
      var i := 0;
      while i < |cs| && ok
        invariant 0 <= i <= |cs| && numBlocks == (before + i) % COUNT_LIMIT
        invariant if ok then Wrote(true, start, space, Joined(pieces[..i]))
          else Wrote(false, start, space, Joined(pieces))
      {
        CountOn(before + i, 1);
        ok := WriteNext(start, space, cs[i], pieces, i);
        i := i + 1;
      }
      if ok {
        assert pieces[..i] == pieces;
      }
    }

    /** The primary block and then the canonical blocks. */
    method WriteBlocks(b: Bundle) returns (ok: bool)
      requires Valid() && body == [] && numBlocks == 0
      modifies this
      ensures Wrote(ok, [], old(room), Body(b)) && (ok ==> numBlocks == (1 + |b.blocks|) % COUNT_LIMIT)
    {
      ghost var space := room;
      numBlocks := Add(numBlocks, 1);
      ok := WriteContent(b.primary);
      if ok {
        ok := WriteList(b.blocks, 1);
        TwoParts([], space, b.primary, Images(b.blocks));
      } else {
        assert Body(b)[..space] == b.primary[..space];
      }
    }
  }

  /** Offload a bundle: blocks first, the record last and only after a success.  `room` is the number of
      bytes that fit behind the record, and `sealed` says whether the record can be written at the end. */
  method OffloadBundle(alg: Algorithm, b: Bundle, room: nat, sealed: bool) returns (ok: bool, f: File)
    requires Incremental(alg)
    ensures ok == (|Body(b)| <= room && sealed)
    ensures f == if ok then Saved(CheckOf(alg), b) else Torn(if |Body(b)| <= room then Body(b) else Body(b)[..room])
  {
    var w := new Writer(alg, room);
    ok := w.WriteBlocks(b);
    assert w.body == if ok then Body(b) else Body(b)[..room];
    f := Torn(w.body);
    if ok {
      ok := sealed;
      if ok {
        f := f.(record := Record(w.numBlocks, w.numBytes, alg.finish(w.crc)));
      }
    }
  }

  // ----- reading -----------------------------------------------------------------------------------------

  class Reader {
    const l: Layout
    const alg: Algorithm
    var input: Input
    var crc: Bits
    /** The whole file, and what has been read of it. */
    ghost const whole: seq<Byte>
    ghost var consumed: seq<Byte>

    /** The CRC is that of what has been read. */
    ghost predicate Valid()
      reads this
    {
      && l.capacity > 0 && Incremental(alg)
      && crc == alg.update(alg.initial, consumed) && consumed + input.bytes == whole
    }

    constructor (l: Layout, alg: Algorithm, input: Input)
      requires l.capacity > 0 && Incremental(alg)
      ensures Valid() && this.l == l && this.alg == alg && this.input == input && whole == input.bytes
    {
      this.l, this.alg, this.input, whole := l, alg, input, input.bytes;
      crc, consumed := alg.initial, [];
    }

    method ReadContent(size: nat) returns (r: Result<seq<Byte>>)
      requires Valid()
      modifies this
      ensures Valid() && r == Take(old(input), size) && input == r.rest
    {
      if input.numBytes < size {
        return Stopped(input);
      }
      var bytes := input.bytes;
      input := Input(bytes, input.numBytes - size);
      if |bytes| < size {
        return Stopped(input);
      }
      input := Input(bytes[size..], input.numBytes);
      crc := alg.update(crc, bytes[..size]);
      assert InParts(alg, consumed, bytes[..size]);
      consumed := consumed + bytes[..size];
      assert bytes == bytes[..size] + bytes[size..];
      return Got(bytes[..size], input);
    }

    /** Everything that is left, block by block. */
    method ReadChunks() returns (r: Result<seq<seq<Byte>>>)
      requires Valid()
      modifies this
      ensures Valid() && r == TakeChunks(l, old(input)) && input == r.rest
    {
      var chunks: seq<seq<Byte>> := [];
      PrefixedNone(TakeChunks(l, input));
      while input.numBytes > 0
        invariant Valid()
        invariant TakeChunks(l, old(input)) == Prefixed(chunks, TakeChunks(l, input))
        decreases input.numBytes
      {
        ChunkRead(l, input, chunks);
        var size := if l.capacity > input.numBytes then input.numBytes else l.capacity;
        var chunk := ReadContent(size);
        if chunk.Stopped? {
          return Stopped(input);
        }
        chunks := chunks + [chunk.value];
      }
      assert chunks + [] == chunks;
      return Got(chunks, input);
    }

    /** The size information of a payload, then its bytes to the end of the file. */
    method ReadPayload(header: seq<Byte>) returns (r: Result<Canonical>)
      requires Valid()
      modifies this
      ensures Valid() && r == TakePayload(l, header, old(input)) && input == r.rest
    {
      var w0 := ReadContent(l.word);
      if w0.Stopped? { return Stopped(input); }
      var w1 := ReadContent(l.word);
      if w1.Stopped? { return Stopped(input); }
      var w2 := ReadContent(l.word);
      if w2.Stopped? { return Stopped(input); }
      var chunks := ReadChunks();
      if chunks.Stopped? { return Stopped(input); }
      return Got(Payload(header, [w0.value, w1.value, w2.value], chunks.value), input);
    }

    method ReadCanonical() returns (r: Result<Canonical>)
      requires Valid()
      modifies this
      ensures Valid() && r == TakeCanonical(l, old(input)) && input == r.rest
    {
      var header := ReadContent(l.header);
      if header.Stopped? { return Stopped(input); }
      if l.typeOf(header.value) == PAYLOAD_TYPE {
        r := ReadPayload(header.value);
      } else {
        var data := ReadContent(l.data);
        r := if data.Stopped? then Stopped(input) else Got(Extension(header.value, data.value), input);
      }
    }

    /** The primary block and as many canonical blocks as the record says, as far as they can be read. */
    method ReadBlocks(numBlocks: nat) returns (r: Partial<Bundle>)
      requires Valid()
      modifies this
      ensures Valid() && r == TakeBundle(l, old(input), numBlocks) && input == r.rest
    {
      if numBlocks == 0 {
        return Partial(true, BLANK, input);
      }
      var primary := ReadContent(l.primary);
      if primary.Stopped? { return Partial(false, BLANK, input); }
      var list := ReadList(numBlocks - 1, Canonicals(l));
      return Partial(list.ok, Bundle(primary.value, list.value), input);
    }

    /** The next canonical block, as `take` has it. */
    method ReadNext(ghost take: Reading) returns (r: Result<Canonical>)
      requires Valid() && take == Canonicals(l)
      modifies this
      ensures Valid() && r == take(old(input)) && input == r.rest
    {
      r := ReadCanonical();
    }

    /** The canonical blocks, put into the list as they come. */
    method ReadList(count: nat, ghost take: Reading) returns (r: Partial<seq<Canonical>>)
      requires Valid() && take == Canonicals(l)
      modifies this
      ensures Valid() && r == TakeBlocks(l, take, old(input), count, []) && input == r.rest
    {
      var list, n := [], count;
      while n > 0
        invariant Valid() && TakeBlocks(l, take, old(input), count, []) == TakeBlocks(l, take, input, n, list)
      {
        var c := ReadNext(take);
        if c.Stopped? { return Partial(false, list, input); }
        list, n := Appended(l, list, c.value), n - 1;
      }
      return Partial(true, list, input);
    }
  }

  /** Restore a bundle: read it, and compare the check value with that of the record.  What could not be read
      to its end has been recycled by then, and is returned nevertheless. */
  method RestoreBundle(l: Layout, alg: Algorithm, f: File) returns (r: Outcome)
    requires l.capacity > 0 && Incremental(alg)
    ensures r == Restore(l, CheckOf(alg), f)
  {
    var reader := new Reader(l, alg, Input(f.body, f.record.numBytes));
    var t := reader.ReadBlocks(f.record.numBlocks);
    assert Before(f.body, reader.input.bytes) == reader.consumed;
    if alg.finish(reader.crc) != f.record.crc {
      return Mismatch;
    }
    return if t.ok then Restored(t.value) else Recycled(t.value);
  }

  /** The chunks read before, and those to come. */
  function Prefixed(chunks: seq<seq<Byte>>, r: Result<seq<seq<Byte>>>): Result<seq<seq<Byte>>> {
    match r
    case Stopped(rest) => Stopped(rest)
    case Got(more, rest) => Got(chunks + more, rest)
  }

  lemma {:induction false} PrefixedNone(r: Result<seq<seq<Byte>>>)
    ensures Prefixed([], r) == r
  {
    if r.Got? {
      assert [] + r.value == r.value;
    }
  }

  /** One more chunk before those to come. */
  lemma {:induction false} ChunkRead(l: Layout, i: Input, chunks: seq<seq<Byte>>)
    requires l.capacity > 0 && i.numBytes > 0
    ensures var t := Take(i, if l.capacity > i.numBytes then i.numBytes else l.capacity);
      Prefixed(chunks, TakeChunks(l, i)) ==
      if t.Stopped? then Stopped(t.rest) else Prefixed(chunks + [t.value], TakeChunks(l, t.rest))
  {
    var t := Take(i, if l.capacity > i.numBytes then i.numBytes else l.capacity);
    if t.Got? {
      var more := TakeChunks(l, t.rest);
      if more.Got? {
        assert chunks + ([t.value] + more.value) == chunks + [t.value] + more.value;
      }
    }
  }

  // ----- the algorithm in use -----------------------------------------------------------------------------

  /** CRC-32C with its generator `p`: the table-driven register, reversed and complemented at the end. */
  function Castagnoli(p: Bits): Algorithm
    requires |p| == 32
  {
    Algorithm(Words.Ones(|p|),
              (r: Bits, bytes: seq<Byte>) => if |r| == |p| then Table.Digest(r, Octets(bytes), p) else r,
              (r: Bits) => if |r| == |p| then Words.Plus(Table.Reverse(r), Words.Ones(|p|)) else r)
  }

  /** It may be updated in parts. */
  lemma {:induction false} CastagnoliInParts(p: Bits)
    requires |p| == 32
    ensures Incremental(Castagnoli(p))
  {
    var alg := Castagnoli(p);
    forall a, b ensures InParts(alg, a, b) {
      RegisterInParts(p, Words.Ones(|p|), a, b);
    }
  }

  /** Its check value is the remainder of the division. */
  lemma {:induction false} CastagnoliChecks(p: Bits, bytes: seq<Byte>)
    requires |p| == 32
    ensures CheckOf(Castagnoli(p))(bytes) == CrcCheck(p)(bytes)
  {
    var ones, data := Words.Ones(|p|), Octets(bytes);
    Table.DigestIsRegister(ones, data, p);
    Poly.RegisterIsRemainder(ones, Table.Message(data), p);
    NoPadding(Words.Plus(Table.Reverse(Table.Digest(ones, data, p)), ones), 32 - |p|);
  }

  lemma {:induction false} NoPadding(b: Bits, n: nat)
    requires n == 0
    ensures Words.Zeros(n) + b == b
  {
  }
}
