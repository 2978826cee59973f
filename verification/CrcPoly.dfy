/** Polynomials over the two-element field, their division, and the shift register that computes a remainder.

    A polynomial is its sequence of coefficients, highest power first. */
module CrcPoly {
  import opened Words

  /** Coefficient `i`, zero beyond the end. */
  function At(a: Bits, i: nat): bool { i < |a| && a[i] }

  /** The multiple of `p` by a coefficient. */
  function Times(on: bool, p: Bits): (r: Bits)
    ensures |r| == |p|
  {
    if on then p else Zeros(|p|)
  }

  /** The product of two polynomials; `p` has degree |p| - 1. */
  function Product(q: Bits, p: Bits): (r: Bits)
    requires |p| > 0
    ensures |r| == |q| + |p| - 1
  {
    if q == [] then Zeros(|p| - 1)
    else Plus(Times(q[0], p) + Zeros(|q| - 1), [false] + Product(q[1..], p))
  }

  /** The divisor x^w + p, given without its leading coefficient. */
  function Monic(p: Bits): Bits { [true] + p }

  /** One step of long division: the leading coefficient is cancelled. */
  function Reduce(n: Bits, p: Bits): (r: Bits)
    requires |n| > |p|
    ensures |r| == |n| - 1
  {
    Plus(n[1..], Times(n[0], p) + Zeros(|n| - 1 - |p|))
  }

  /** Long division by x^w + p, down to degree less than w = |p|. */
  function Remainder(n: Bits, p: Bits): (r: Bits)
    requires |n| >= |p|
    ensures |r| == |p|
    decreases |n|
  {
    if |n| == |p| then n else Remainder(Reduce(n, p), p)
  }

  function Quotient(n: Bits, p: Bits): (q: Bits)
    requires |n| >= |p|
    ensures |q| == |n| - |p|
    decreases |n|
  {
    if |n| == |p| then [] else [n[0]] + Quotient(Reduce(n, p), p)
  }

  /** `n` is a multiple `q` of the divisor, plus `r` of lower degree. */
  ghost predicate Divides(n: Bits, p: Bits, q: Bits, r: Bits) {
    |n| >= |p| && |q| == |n| - |p| && |r| == |p| && n == Plus(Product(q, Monic(p)), Zeros(|q|) + r)
  }

  lemma {:induction false} ReduceAt(n: Bits, p: Bits, i: nat)
    requires |n| > |p| && i < |n| - 1
    ensures Reduce(n, p)[i] == (n[i + 1] != (n[0] && At(p, i)))
  {
  }

  lemma {:induction false} ProductAt(q: Bits, p: Bits, i: nat)
    requires q != [] && i < |q| + |p|
    ensures Product(q, Monic(p))[i] ==
            if i == 0 then q[0] else (q[0] && At(p, i - 1)) != Product(q[1..], Monic(p))[i - 1]
  {
  }

  lemma {:induction false} PadAt(a: Bits, n: nat, r: Bits, i: nat)
    requires |a| == n + |r| && i < |a|
    ensures Plus(a, Zeros(n) + r)[i] == (a[i] != (i >= n && r[i - n]))
  {
  }

  /** A multiple plus remainder, one step on. */
  lemma {:induction false} DividesStep(n: Bits, p: Bits, q: Bits, r: Bits)
    requires |n| > |p| && |q| == |n| - |p| && |r| == |p| && n[0] == q[0]
    ensures Divides(n, p, q, r) <==> Divides(Reduce(n, p), p, q[1..], r)
  {
    var a, b := Product(q, Monic(p)), Product(q[1..], Monic(p));
    PadAt(a, |q|, r, 0);
    ProductAt(q, p, 0);
    forall i | 0 <= i < |n| - 1 ensures a[i + 1] == ((n[0] && At(p, i)) != b[i]) {
      ProductAt(q, p, i + 1);
    }
    SumStep(n, p, |q|, r, a, b);
  }

  /** If `a` is a multiple and `b` the same multiple one step on, so are the sums with the remainder. */
  lemma {:induction false} SumStep(n: Bits, p: Bits, len: nat, r: Bits, a: Bits, b: Bits)
    requires |n| > |p| && len == |n| - |p| && |r| == |p| && |a| == |n| && |b| == |n| - 1
    requires n[0] == Plus(a, Zeros(len) + r)[0]
    requires forall i :: 0 <= i < |n| - 1 ==> a[i + 1] == ((n[0] && At(p, i)) != b[i])
    ensures n == Plus(a, Zeros(len) + r) <==> Reduce(n, p) == Plus(b, Zeros(len - 1) + r)
  {
    var whole, part := Plus(a, Zeros(len) + r), Plus(b, Zeros(len - 1) + r);
    forall i | 0 <= i < |n| - 1 ensures n[i + 1] == whole[i + 1] <==> Reduce(n, p)[i] == part[i] {
      ReduceAt(n, p, i);
      PaddedTails(a, b, n[0] && At(p, i), len, r, i);
    }
    SameTails(n, whole, Reduce(n, p), part);
  }

  lemma {:induction false} PaddedTails(a: Bits, b: Bits, bit: bool, n: nat, r: Bits, i: nat)
    requires n > 0 && |a| == n + |r| && |b| == n - 1 + |r| && i < |b| && a[i + 1] == (bit != b[i])
    ensures Plus(a, Zeros(n) + r)[i + 1] == (bit != Plus(b, Zeros(n - 1) + r)[i])
  {
    PadAt(a, n, r, i + 1);
    PadAt(b, n - 1, r, i);
  }

  lemma {:induction false} SameTails(n: Bits, m: Bits, n': Bits, m': Bits)
    requires |n| == |m| == |n'| + 1 == |m'| + 1 && n[0] == m[0]
    requires forall i :: 0 <= i < |n'| ==> (n[i + 1] == m[i + 1] <==> n'[i] == m'[i])
    ensures n == m <==> n' == m'
  {
    if n' == m' {
      forall i | 0 <= i < |n| ensures n[i] == m[i] {
        if i > 0 { assert n'[i - 1] == m'[i - 1]; }
      }
    }
  }

  /** Long division yields a quotient and a remainder. */
  lemma {:induction false} Division(n: Bits, p: Bits)
    requires |n| >= |p|
    ensures Divides(n, p, Quotient(n, p), Remainder(n, p))
    decreases |n|
  {
    var q, r := Quotient(n, p), Remainder(n, p);
    if |n| > |p| {
      Division(Reduce(n, p), p);
      assert q[1..] == Quotient(Reduce(n, p), p);
      DividesStep(n, p, q, r);
    } else {
      DividesNone(n, p, r);
    }
  }

  lemma {:induction false} DividesNone(n: Bits, p: Bits, r: Bits)
    requires |n| == |p| == |r|
    ensures Divides(n, p, [], r) <==> n == r
  {
    assert Product([], Monic(p)) == Zeros(|p|);
    assert Plus(Zeros(|p|), Zeros(0) + r) == r;
  }

  /** Quotient and remainder are determined: there is only one multiple of the divisor within reach. */
  lemma {:induction false} DivisionUnique(n: Bits, p: Bits, q: Bits, r: Bits)
    requires Divides(n, p, q, r)
    ensures q == Quotient(n, p) && r == Remainder(n, p)
    decreases |n|
  {
    if q == [] {
      DividesNone(n, p, r);
    } else {
      PadAt(Product(q, Monic(p)), |q|, r, 0);
      ProductAt(q, p, 0);
      DividesStep(n, p, q, r);
      DivisionUnique(Reduce(n, p), p, q[1..], r);
      assert q == [q[0]] + q[1..];
    }
  }

  // ----- the shift register ---------------------------------------------------------------------

  /** Shift in one message bit: the register is reduced if the bit that leaves it differs. */
  function Shift(r: Bits, bit: bool, p: Bits): (r': Bits)
    requires |r| == |p| && |p| > 0
    ensures |r'| == |p|
  {
    Plus(r[1..] + [false], Times(r[0] != bit, p))
  }

  function Register(r: Bits, m: Bits, p: Bits): (r': Bits)
    requires |r| == |p| && |p| > 0
    ensures |r'| == |p|
    decreases |m|
  {
    if m == [] then r else Register(Shift(r, m[0], p), m[1..], p)
  }

  /** What the register divides: the message moved up by w places, with the initial value on top. */
  function Dividend(r: Bits, m: Bits): (n: Bits)
    ensures |n| == |r| + |m|
  {
    Plus(r + Zeros(|m|), m + Zeros(|r|))
  }

  lemma {:induction false} DividendAt(r: Bits, m: Bits, i: nat)
    requires i < |r| + |m|
    ensures Dividend(r, m)[i] == (At(r, i) != At(m, i))
  {
  }

  lemma {:induction false} ShiftAt(r: Bits, bit: bool, p: Bits, i: nat)
    requires |r| == |p| && |p| > 0 && i < |p|
    ensures Shift(r, bit, p)[i] == (At(r, i + 1) != ((r[0] != bit) && p[i]))
  {
  }

  /** A shift of the register is a step of the division. */
  lemma {:induction false} ShiftReduces(r: Bits, m: Bits, p: Bits)
    requires |r| == |p| && |p| > 0 && m != []
    ensures Reduce(Dividend(r, m), p) == Dividend(Shift(r, m[0], p), m[1..])
  {
    var n, r' := Dividend(r, m), Shift(r, m[0], p);
    DividendAt(r, m, 0);
    forall i | 0 <= i < |n| - 1 ensures Reduce(n, p)[i] == Dividend(r', m[1..])[i] {
      ReduceAt(n, p, i);
      DividendAt(r, m, i + 1);
      DividendAt(r', m[1..], i);
      if i < |p| { ShiftAt(r, m[0], p, i); }
    }
  }

  /** The register holds the remainder of the whole message. */
  lemma {:induction false} RegisterIsRemainder(r: Bits, m: Bits, p: Bits)
    requires |r| == |p| && |p| > 0
    ensures Register(r, m, p) == Remainder(Dividend(r, m), p)
    decreases |m|
  {
    if m == [] {
      assert Dividend(r, m) == r;
    } else {
      ShiftReduces(r, m, p);
      RegisterIsRemainder(Shift(r, m[0], p), m[1..], p);
    }
  }

  lemma {:induction false} ConcatTail(a: Bits, b: Bits)
    requires a != []
    ensures (a + b)[0] == a[0] && (a + b)[1..] == a[1..] + b
  {
  }

  /** Updating over a concatenation is updating over the parts. */
  lemma {:induction false} RegisterConcat(r: Bits, a: Bits, b: Bits, p: Bits)
    requires |r| == |p| && |p| > 0
    ensures Register(r, a + b, p) == Register(Register(r, a, p), b, p)
    decreases |a|
  {
    if a == [] {
      assert a + b == b;
    } else {
      ConcatTail(a, b);
      RegisterConcat(Shift(r, a[0], p), a[1..], b, p);
    }
  }
}
