/** The table-driven form of the CRC register takes eight message bits at a time. */
module CrcTable {
  import opened Words
  import opened CrcPoly

  // ----- the register is linear -------------------------------------------------------------------

  lemma {:induction false} ShiftLinear(a: Bits, b: Bits, p: Bits)
    requires |a| == |b| == |p| && |p| > 0
    ensures Shift(Plus(a, b), false, p) == Plus(Shift(a, false, p), Shift(b, false, p))
  {
    var c, x, y := Plus(a, b), Shift(a, false, p), Shift(b, false, p);
    forall i | 0 <= i < |p| ensures Shift(c, false, p)[i] == Plus(x, y)[i] {
      ShiftAt(c, false, p, i);
      ShiftAt(a, false, p, i);
      ShiftAt(b, false, p, i);
    }
  }

  /** The register after `n` shifts without input. */
  function Idle(r: Bits, n: nat, p: Bits): (r': Bits)
    requires |r| == |p| && |p| > 0
    ensures |r'| == |p|
    decreases n
  {
    if n == 0 then r else Idle(Shift(r, false, p), n - 1, p)
  }

  lemma {:induction false} IdleRegister(r: Bits, n: nat, p: Bits)
    requires |r| == |p| && |p| > 0
    ensures Idle(r, n, p) == Register(r, Zeros(n), p)
    decreases n
  {
    if n > 0 {
      IdleRegister(Shift(r, false, p), n - 1, p);
      assert Zeros(n)[1..] == Zeros(n - 1);
    }
  }

  lemma {:induction false} IdleLinear(a: Bits, b: Bits, n: nat, p: Bits)
    requires |a| == |b| == |p| && |p| > 0
    ensures Idle(Plus(a, b), n, p) == Plus(Idle(a, n, p), Idle(b, n, p))
    decreases n
  {
    if n > 0 {
      ShiftLinear(a, b, p);
      IdleLinear(Shift(a, false, p), Shift(b, false, p), n - 1, p);
    }
  }

  // ----- eight bits at a time -----------------------------------------------------------------------

  /** Feeding bits one by one is adding them to the top of the register and shifting. */
  lemma {:induction false} FeedAtOnce(r: Bits, m: Bits, p: Bits)
    requires |r| == |p| && |p| > 0 && |m| <= |p|
    ensures Register(r, m, p) == Idle(Plus(r, m + Zeros(|p| - |m|)), |m|, p)
  {
    var r' := Plus(r, m + Zeros(|p| - |m|));
    forall i | 0 <= i < |r| + |m| ensures Dividend(r, m)[i] == Dividend(r', Zeros(|m|))[i] {
      DividendAt(r, m, i);
      DividendAt(r', Zeros(|m|), i);
    }
    assert Dividend(r, m) == Dividend(r', Zeros(|m|));
    RegisterIsRemainder(r, m, p);
    RegisterIsRemainder(r', Zeros(|m|), p);
    IdleRegister(r', |m|, p);
  }

  /** A register whose first bits are zero is just moved. */
  lemma {:induction false} IdleMoves(x: Bits, n: nat, p: Bits)
    requires n + |x| == |p| && |p| > 0
    ensures Idle(Zeros(n) + x, n, p) == x + Zeros(n)
    decreases n
  {
    if n > 0 {
      var r := Zeros(n) + x;
      var r' := Zeros(n - 1) + (x + [false]);
      forall i | 0 <= i < |p| ensures Shift(r, false, p)[i] == r'[i] {
        ShiftAt(r, false, p, i);
      }
      assert Shift(r, false, p) == r';
      IdleMoves(x + [false], n - 1, p);
      assert x + [false] + Zeros(n - 1) == x + Zeros(n);
    } else {
      assert Zeros(0) + x == x + Zeros(0);
    }
  }

  /** The entry of the table for a byte. */
  function Entry(byte: Bits, p: Bits): (r: Bits)
    requires |byte| == 8 <= |p|
    ensures |r| == |p|
  {
    Idle(byte + Zeros(|p| - |byte|), |byte|, p)
  }

  /** One turn of the digest loop: look up the byte that leaves the register and move the rest. */
  function Lookup(r: Bits, byte: Bits, p: Bits): (r': Bits)
    requires |r| == |p| && |byte| == 8 <= |p|
    ensures |r'| == |p|
  {
    Plus(Entry(Plus(r[..8], byte), p), r[8..] + Zeros(8))
  }

  lemma {:induction false} SplitTop(r: Bits, byte: Bits, n: nat)
    requires |r| == 8 + n && |byte| == 8
    ensures Plus(r, byte + Zeros(n)) == Plus(Plus(r[..8], byte) + Zeros(n), Zeros(8) + r[8..])
  {
  }

  /** It is eight shifts of the register. */
  lemma {:induction false} LookupFeeds(r: Bits, byte: Bits, p: Bits)
    requires |r| == |p| && |byte| == 8 <= |p|
    ensures Lookup(r, byte, p) == Register(r, byte, p)
  {
    var top, rest := Plus(r[..8], byte) + Zeros(|p| - 8), Zeros(8) + r[8..];
    SplitTop(r, byte, |p| - 8);
    FeedAtOnce(r, byte, p);
    IdleLinear(top, rest, 8, p);
    IdleMoves(r[8..], 8, p);
  }

  // ----- whole messages -------------------------------------------------------------------------

  type Byte = b: Bits | |b| == 8 witness Zeros(8)

  function Reverse(b: Bits): (r: Bits)
    ensures |r| == |b| && forall i :: 0 <= i < |b| ==> r[i] == b[|b| - 1 - i]
  {
    if b == [] then [] else Reverse(b[1..]) + [b[0]]
  }

  /** The message as the register sees it: every byte with its lowest bit first. */
  function Message(data: seq<Byte>): (m: Bits)
    ensures |m| == 8 * |data|
  {
    if data == [] then [] else Reverse(data[0]) + Message(data[1..])
  }

  /** The digest: byte by byte through the tables. */
  function Digest(r: Bits, data: seq<Byte>, p: Bits): (r': Bits)
    requires |r| == |p| && |p| >= 8
    ensures |r'| == |p|
    decreases |data|
  {
    if data == [] then r else Digest(Lookup(r, Reverse(data[0]), p), data[1..], p)
  }

  /** The table-driven digest is the bit-serial register over the whole message. */
  lemma {:induction false} DigestIsRegister(r: Bits, data: seq<Byte>, p: Bits)
    requires |r| == |p| && |p| >= 8
    ensures Digest(r, data, p) == Register(r, Message(data), p)
    decreases |data|
  {
    if data != [] {
      var first := Reverse(data[0]);
      LookupFeeds(r, first, p);
      DigestIsRegister(Lookup(r, first, p), data[1..], p);
      RegisterConcat(r, first, Message(data[1..]), p);
    }
  }

  /** The table-driven digest is the remainder of the message, divided by x^w + p; and nothing else is. */
  lemma {:induction false} DigestIsRemainder(r: Bits, data: seq<Byte>, p: Bits)
    requires |r| == |p| && |p| >= 8
    ensures var n := Dividend(r, Message(data));
      && Divides(n, p, Quotient(n, p), Digest(r, data, p))
      && forall q, r' :: Divides(n, p, q, r') ==> r' == Digest(r, data, p)
  {
    var n := Dividend(r, Message(data));
    DigestIsRegister(r, data, p);
    RegisterIsRemainder(r, Message(data), p);
    Division(n, p);
    forall q, r' | Divides(n, p, q, r') ensures r' == Digest(r, data, p) {
      DivisionUnique(n, p, q, r');
    }
  }

  /** Updating over a concatenation is updating over the parts. */
  lemma {:induction false} DigestConcat(r: Bits, a: seq<Byte>, b: seq<Byte>, p: Bits)
    requires |r| == |p| && |p| >= 8
    ensures Digest(r, a + b, p) == Digest(Digest(r, a, p), b, p)
    decreases |a|
  {
    if a == [] {
      assert a + b == b;
    } else {
      assert (a + b)[1..] == a[1..] + b;
      DigestConcat(Lookup(r, Reverse(a[0]), p), a[1..], b, p);
    }
  }
}
