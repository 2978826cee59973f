/** Files of the store that were damaged: which of them are refused. */
module Damage {
  import opened Unsigned
  import opened Offload
  import Words
  import Table = CrcTable
  import Eng = CrcEngine
  import opened CrcBurst

  ghost predicate Bytes(a: seq<Byte>) { forall i :: 0 <= i < |a| ==> 0 <= a[i] < 256 }

  /** The bits of the bytes, as the CRC takes them. */
  function BitsOf(a: seq<Byte>): Bits { Table.Message(Octets(a)) }

  /** The bytes differ in a burst of at most 32 bits. */
  ghost predicate Hit(a: seq<Byte>, b: seq<Byte>) { Burst(BitsOf(a), BitsOf(b), 32) }

  // ----- bytes and bits -----------------------------------------------------------------------------

  lemma {:induction false} MessageJoin(a: seq<Table.Byte>, b: seq<Table.Byte>)
    ensures Table.Message(a + b) == Table.Message(a) + Table.Message(b)
    decreases |a|
  {
    if a == [] {
      assert a + b == b;
    } else {
      assert (a + b)[1..] == a[1..] + b;
      MessageJoin(a[1..], b);
    }
  }

  lemma {:induction false} BitsJoin(a: seq<Byte>, b: seq<Byte>)
    ensures BitsOf(a + b) == BitsOf(a) + BitsOf(b) && |BitsOf(a)| == 8 * |a|
  {
    OctetsJoin(a, b);
    MessageJoin(Octets(a), Octets(b));
  }

  lemma {:induction false} NumberInjective(m: nat, n: nat, w: nat)
    requires m < Eng.Power(w) && n < Eng.Power(w) && Eng.BitsOf(m, w) == Eng.BitsOf(n, w)
    ensures m == n
    decreases w
  {
    if w > 0 {
      var a, b := Eng.BitsOf(m / 2, w - 1), Eng.BitsOf(n / 2, w - 1);
      assert Eng.BitsOf(m, w)[..w - 1] == a && Eng.BitsOf(n, w)[..w - 1] == b;
      assert Eng.BitsOf(m, w)[w - 1] == (m % 2 == 1) && Eng.BitsOf(n, w)[w - 1] == (n % 2 == 1);
      NumberInjective(m / 2, n / 2, w - 1);
    }
  }

  lemma {:induction false} EightBits()
    ensures Eng.Power(8) == 256
  {
    assert Eng.Power(4) == 16;
  }

  /** Different bytes have different bits. */
  lemma {:induction false} BitsInjective(a: seq<Byte>, b: seq<Byte>)
    requires Bytes(a) && Bytes(b) && |a| == |b| && BitsOf(a) == BitsOf(b)
    ensures a == b
    decreases |a|
  {
    if a != [] {
      var x, y := Octet(a[0]), Octet(b[0]);
      var s, t := BitsOf(a[1..]), BitsOf(b[1..]);
      assert BitsOf(a) == Table.Reverse(x) + s && BitsOf(b) == Table.Reverse(y) + t;
      assert (Table.Reverse(x) + s)[..8] == Table.Reverse(x) && (Table.Reverse(y) + t)[..8] == Table.Reverse(y);
      assert (Table.Reverse(x) + s)[8..] == s && (Table.Reverse(y) + t)[8..] == t;
      ReverseInjective(x, y);
      EightBits();
      NumberInjective(a[0], b[0], 8);
      BitsInjective(a[1..], b[1..]);
    }
  }

  /** Four consecutive bytes are 32 bits. */
  lemma {:induction false} BytesHit(a: seq<Byte>, b: seq<Byte>, at: nat, n: nat)
    requires Bytes(a) && Bytes(b) && |a| == |b| && at + n <= |a| && n <= 4
    requires a[..at] == b[..at] && a[at + n..] == b[at + n..] && a != b
    ensures Hit(a, b)
  {
    var x, u, v, z := a[..at], a[at..at + n], b[at..at + n], a[at + n..];
    assert a == (x + u) + z && b == (x + v) + z;
    BitsJoin(x + u, z);
    BitsJoin(x + v, z);
    BitsJoin(x, u);
    BitsJoin(x, v);
    BitsJoin(u, []);
    BitsJoin(v, []);
    if BitsOf(u) == BitsOf(v) {
      BitsInjective(u, v);
    }
    Window(BitsOf(x), BitsOf(u), BitsOf(v), BitsOf(z));
  }

  lemma {:induction false} Window(x: Bits, u: Bits, v: Bits, z: Bits)
    requires |u| == |v| <= 32 && u != v
    ensures Burst((x + u) + z, (x + v) + z, 32)
  {
    var m, m', at, n := (x + u) + z, (x + v) + z, |x|, |u|;
    assert m[..at] == x == m'[..at] && m[at + n..] == z == m'[at + n..];
    assert m[at..at + n] == u && m'[at..at + n] == v;
    assert BurstAt(m, m', at, n);
  }

  // ----- damaged files ----------------------------------------------------------------------------------

  /** The CRC of the file shows the damage. */
  lemma {:induction false} HitShows(p: Bits, a: seq<Byte>, b: seq<Byte>)
    requires |p| == 32 && Odd(p) && Hit(a, b)
    ensures CrcCheck(p)(a) != CrcCheck(p)(b)
  {
    CheckShows(p, Words.Ones(|p|), Words.Ones(|p|), Octets(a), Octets(b));
  }

  /** A file that was hit by a burst of at most 32 bits is refused, if it is still read to its end. */
  lemma {:induction false} DamageRefused(l: Layout, p: Bits, b: Bundle, body: seq<Byte>)
    requires l.capacity > 0 && |p| == 32 && Odd(p) && Hit(body, Body(b))
    ensures var f := File(Saved(CrcCheck(p), b).record, body);
      BytesRead(l, f) == |body| ==> Restore(l, CrcCheck(p), f) == Mismatch
  {
    var f := File(Saved(CrcCheck(p), b).record, body);
    AcceptedIfChecked(l, CrcCheck(p), f);
    HitShows(p, body, Body(b));
    assert body[..|body|] == body;
  }

  /** The damage is in the contents of blocks, so that the bytes are still those of a bundle of this form. */
  lemma {:induction false} DamagedBundle(l: Layout, p: Bits, b: Bundle, b': Bundle)
    requires LayoutOk(l) && BundleOk(l, b) && BundleOk(l, b') && |b'.blocks| == |b.blocks|
    requires |p| == 32 && Odd(p) && |Body(b')| == |Body(b)| < COUNT_LIMIT && Hit(Body(b'), Body(b))
    ensures Restore(l, CrcCheck(p), File(Saved(CrcCheck(p), b).record, Body(b'))) == Mismatch
  {
    BundleWritten(l, b');
    SavedExactly(l, CrcCheck(p), b);
    DamageRefused(l, p, b, Body(b'));
  }

  /** A byte of the payload of a saved bundle was changed: the file is refused. */
  lemma {:induction false} PayloadDamage(l: Layout, p: Bits, b: Bundle, exts: seq<Canonical>, c: Canonical,
                                         c': Canonical, k: nat)
    requires LayoutOk(l) && BundleOk(l, b) && b.blocks == exts + [c] && c.Payload? && |Body(b)| < COUNT_LIMIT
    requires |p| == 32 && Odd(p) && Bytes(Body(b))
    requires c'.Payload? && c'.header == c.header && c'.words == c.words
    requires k < |Joined(c.chunks)| == |Joined(c'.chunks)| && 0 <= Joined(c'.chunks)[k] < 256
    requires Joined(c'.chunks) == Joined(c.chunks)[k := Joined(c'.chunks)[k]] && Joined(c'.chunks) != Joined(c.chunks)
    ensures var b' := Bundle(b.primary, exts + [c']);
      && |Body(b')| == |Body(b)|
      && Restore(l, CrcCheck(p), File(Saved(CrcCheck(p), b).record, Body(b'))) == Mismatch
  {
    var b' := Bundle(b.primary, exts + [c']);
    var start := b.primary + Images(exts) + c.header + Joined(c.words);
    BodyEnds(b.primary, exts, c, start);
    BodyEnds(b.primary, exts, c', start);
    OneByte(start, Joined(c.chunks), Joined(c'.chunks), k);
    BytesHit(Body(b'), Body(b), |start| + k, 1);
    OtherPayload(l, b, exts, c, c');
    DamagedBundle(l, p, b, b');
  }

  /** The bytes of the payload come last. */
  lemma {:induction false} BodyEnds(primary: seq<Byte>, exts: seq<Canonical>, c: Canonical, start: seq<Byte>)
    requires c.Payload? && start == primary + Images(exts) + c.header + Joined(c.words)
    ensures Body(Bundle(primary, exts + [c])) == start + Joined(c.chunks)
  {
    ImagesLast(exts, c);
    Associates(primary, Images(exts), c.header, Joined(c.words), Joined(c.chunks));
  }

  lemma {:induction false} Associates(a: seq<Byte>, b: seq<Byte>, c: seq<Byte>, d: seq<Byte>, e: seq<Byte>)
    ensures a + (b + (c + (d + e))) == a + b + c + d + e
  {
  }

  lemma {:induction false} OneByte(start: seq<Byte>, x: seq<Byte>, y: seq<Byte>, k: nat)
    requires k < |x| == |y| && y == x[k := y[k]] && y != x
    ensures var a, b, at := start + y, start + x, |start| + k;
      |a| == |b| && at + 1 <= |a| && a[..at] == b[..at] && a[at + 1..] == b[at + 1..] && a != b
    ensures Bytes(start + x) && 0 <= y[k] < 256 ==> Bytes(start + y)
  {
    var a, b, at := start + y, start + x, |start| + k;
    assert forall i :: 0 <= i < |a| && i != at ==> a[i] == b[i];
    assert a[at] == y[k] && b[at] == x[k];
  }

  lemma {:induction false} ImagesLast(cs: seq<Canonical>, c: Canonical)
    ensures Images(cs + [c]) == Images(cs) + Image(c)
    decreases |cs|
  {
    if cs == [] {
      assert cs + [c] == [c] && [c][1..] == [];
      assert Images([c]) == Image(c) + Images([]);
    } else {
      var all, first, rest := cs + [c], cs[0], cs[1..];
      assert all[0] == first && all[1..] == rest + [c];
      ImagesLast(rest, c);
      assert Image(first) + (Images(rest) + Image(c)) == (Image(first) + Images(rest)) + Image(c);
    }
  }

  lemma {:induction false} OtherPayload(l: Layout, b: Bundle, exts: seq<Canonical>, c: Canonical, c': Canonical)
    requires BundleOk(l, b) && b.blocks == exts + [c] && c.Payload?
    requires c'.Payload? && c'.header == c.header && c'.words == c.words
    ensures BundleOk(l, Bundle(b.primary, exts + [c']))
  {
    var blocks := exts + [c'];
    forall i | 0 <= i < |blocks| ensures CanonicalOk(l, blocks[i]) {
      assert CanonicalOk(l, b.blocks[i]);
    }
  }
}
