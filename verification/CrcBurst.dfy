/** A CRC tells apart messages that differ in a short burst of bits. */
module CrcBurst {
  import opened Words
  import opened CrcPoly
  import opened CrcTable
  import opened CrcEngine

  /** The generator has a constant term: x does not divide it. */
  predicate Odd(p: Bits) { |p| > 0 && p[|p| - 1] }

  /** Two registers that are the same after a shift were the same before. */
  lemma {:induction false} ShiftInjective(a: Bits, b: Bits, bit: bool, p: Bits)
    requires |a| == |b| == |p| && Odd(p) && Shift(a, bit, p) == Shift(b, bit, p)
    ensures a == b
  {
    var n := |p| - 1;
    ShiftAt(a, bit, p, n);
    ShiftAt(b, bit, p, n);
    forall i | 0 < i < |p| ensures a[i] == b[i] {
      ShiftAt(a, bit, p, i - 1);
      ShiftAt(b, bit, p, i - 1);
    }
  }

  lemma {:induction false} RegisterInjective(a: Bits, b: Bits, m: Bits, p: Bits)
    requires |a| == |b| == |p| && Odd(p) && Register(a, m, p) == Register(b, m, p)
    ensures a == b
    decreases |m|
  {
    if m != [] {
      RegisterInjective(Shift(a, m[0], p), Shift(b, m[0], p), m[1..], p);
      ShiftInjective(a, b, m[0], p);
    }
  }

  /** Different bits, no more than the register has, leave different registers. */
  lemma {:induction false} ShortInjective(r: Bits, u: Bits, v: Bits, p: Bits)
    requires |r| == |p| && Odd(p) && |u| == |v| <= |p| && Register(r, u, p) == Register(r, v, p)
    ensures u == v
  {
    var n, rest := |u|, Zeros(|p| - |u|);
    var a, b := Plus(r, u + rest), Plus(r, v + rest);
    FeedAtOnce(r, u, p);
    FeedAtOnce(r, v, p);
    IdleRegister(a, n, p);
    IdleRegister(b, n, p);
    RegisterInjective(a, b, Zeros(n), p);
    PlusCancels(r, u + rest, v + rest);
    assert (u + rest)[..n] == u && (v + rest)[..n] == v;
  }

  lemma {:induction false} PlusCancels(a: Bits, b: Bits, c: Bits)
    requires |a| == |b| == |c| && Plus(a, b) == Plus(a, c)
    ensures b == c
  {
    forall i | 0 <= i < |a| ensures b[i] == c[i] {
      assert Plus(a, b)[i] == (a[i] != b[i]) && Plus(a, c)[i] == (a[i] != c[i]);
    }
  }

  /** Two messages that differ in at most as many consecutive bits as the register has. */
  ghost predicate Burst(m: Bits, m': Bits, width: nat) {
    exists at: nat, n: nat :: BurstAt(m, m', at, n) && n <= width
  }

  ghost predicate BurstAt(m: Bits, m': Bits, at: nat, n: nat) {
    && |m| == |m'| && at + n <= |m| && m[..at] == m'[..at] && m[at + n..] == m'[at + n..]
    && m[at..at + n] != m'[at..at + n]
  }

  /** They leave different registers. */
  lemma {:induction false} BurstShows(r: Bits, m: Bits, m': Bits, p: Bits)
    requires |r| == |p| && Odd(p) && Burst(m, m', |p|)
    ensures Register(r, m, p) != Register(r, m', p)
  {
    var at: nat, n: nat :| BurstAt(m, m', at, n) && n <= |p|;
    var x, u, v, z := m[..at], m[at..at + n], m'[at..at + n], m[at + n..];
    assert m == x + u + z && m' == x + v + z;
    RegisterConcat(r, x + u, z, p);
    RegisterConcat(r, x + v, z, p);
    RegisterConcat(r, x, u, p);
    RegisterConcat(r, x, v, p);
    if Register(r, m, p) == Register(r, m', p) {
      var s := Register(r, x, p);
      RegisterInjective(Register(s, u, p), Register(s, v, p), z, p);
      ShortInjective(s, u, v, p);
    }
  }

  lemma {:induction false} ReverseInjective(a: Bits, b: Bits)
    requires |a| == |b| && Reverse(a) == Reverse(b)
    ensures a == b
  {
    forall i | 0 <= i < |a| ensures a[i] == b[i] {
      assert Reverse(a)[|a| - 1 - i] == a[i] && Reverse(b)[|b| - 1 - i] == b[i];
    }
  }

  lemma {:induction false} PlusInjective(a: Bits, b: Bits, c: Bits)
    requires |a| == |b| == |c| && Plus(a, c) == Plus(b, c)
    ensures a == b
  {
    assert Plus(c, a) == Plus(a, c) && Plus(c, b) == Plus(b, c);
    PlusCancels(c, a, b);
  }

  lemma {:induction false} PadInjective(z: Bits, a: Bits, b: Bits)
    requires z + a == z + b
    ensures a == b
  {
    assert (z + a)[|z|..] == a && (z + b)[|z|..] == b;
  }

  /** The check values of such messages differ, for every initial value and every final mask. */
  lemma {:induction false} CheckShows(p: Bits, initial: Bits, finalXor: Bits, d: seq<Byte>, d': seq<Byte>)
    requires Odd(p) && |p| == |initial| == |finalXor| <= 32 && Burst(Message(d), Message(d'), |p|)
    ensures CheckValue(p, initial, finalXor, d) != CheckValue(p, initial, finalXor, d')
  {
    var m, m' := Message(d), Message(d');
    var r, r' := Register(initial, m, p), Register(initial, m', p);
    BurstShows(initial, m, m', p);
    RegisterIsRemainder(initial, m, p);
    RegisterIsRemainder(initial, m', p);
    if CheckValue(p, initial, finalXor, d) == CheckValue(p, initial, finalXor, d') {
      PadInjective(Zeros(32 - |p|), Plus(Reverse(r), finalXor), Plus(Reverse(r'), finalXor));
      PlusInjective(Reverse(r), Reverse(r'), finalXor);
      ReverseInjective(r, r');
    }
  }

  /** Both generators have a constant term. */
  lemma {:induction false} GeneratorsOdd()
    ensures Odd(CASTAGNOLI_POLY[0..]) && Odd(X25_POLY[16..])
  {
    LowBit(0x1EDC6F41, 32);
    LowBit(0x1021, 16);
  }

  lemma {:induction false} LowBit(n: nat, w: nat)
    requires w > 0
    ensures BitsOf(n, w)[w - 1] == (n % 2 == 1)
  {
  }
}
