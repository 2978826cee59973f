/** The CRC engine: how the tables are built, and the loops that use them.

    A machine word is its sequence of bits, highest first; shifts and masks are written out on it. */
module CrcEngine {
  import opened Words
  import opened CrcPoly
  import opened CrcTable

  type Word = b: Bits | |b| == 32 witness Zeros(32)

  // ----- numbers of bytes ---------------------------------------------------------------------------

  function Value(b: Bits): nat {
    if b == [] then 0 else 2 * Value(b[..|b| - 1]) + if b[|b| - 1] then 1 else 0
  }

  /** The `w` low bits of a number. */
  function BitsOf(n: nat, w: nat): (b: Bits)
    ensures |b| == w
  {
    if w == 0 then [] else BitsOf(n / 2, w - 1) + [n % 2 == 1]
  }

  function Power(w: nat): nat { if w == 0 then 1 else 2 * Power(w - 1) }

  lemma {:induction false} BitsOfValue(b: Bits)
    ensures Value(b) < Power(|b|) && BitsOf(Value(b), |b|) == b
    decreases |b|
  {
    if b != [] {
      BitsOfValue(b[..|b| - 1]);
      assert Value(b) / 2 == Value(b[..|b| - 1]);
    }
  }

  // ----- precomputation -------------------------------------------------------------------------------

  /** Zeros below the polynomial stay zeros. */
  lemma {:induction false} ShiftPadded(r: Bits, p: Bits, z: nat)
    requires |r| == |p| && |p| > 0
    ensures Shift(r + Zeros(z), false, p + Zeros(z)) == Shift(r, false, p) + Zeros(z)
  {
    var a, b := Shift(r + Zeros(z), false, p + Zeros(z)), Shift(r, false, p);
    forall i | 0 <= i < |p| + z ensures a[i] == (b + Zeros(z))[i] {
      ShiftAt(r + Zeros(z), false, p + Zeros(z), i);
      if i < |p| { ShiftAt(r, false, p, i); }
    }
  }

  lemma {:induction false} IdlePadded(r: Bits, n: nat, p: Bits, z: nat)
    requires |r| == |p| && |p| > 0
    ensures Idle(r + Zeros(z), n, p + Zeros(z)) == Idle(r, n, p) + Zeros(z)
    decreases n
  {
    if n > 0 {
      ShiftPadded(r, p, z);
      IdlePadded(Shift(r, false, p), n - 1, p, z);
    }
  }

  lemma {:induction false} IdleOnce(r: Bits, n: nat, p: Bits)
    requires |r| == |p| && |p| > 0
    ensures Idle(r, n + 1, p) == Shift(Idle(r, n, p), false, p)
    decreases n
  {
    if n > 0 {
      IdleOnce(Shift(r, false, p), n - 1, p);
    }
  }

  /** The register after shifting and, if a bit left it, adding the polynomial. */
  lemma {:induction false} ShiftByParts(r: Bits, p: Bits)
    requires |r| == |p| && |p| > 0
    ensures Shift(r, false, p) == if r[0] then Plus(ShiftLeft(r, 1), p) else ShiftLeft(r, 1)
  {
    assert Zeros(1) == [false];
    assert Plus(r[1..] + [false], Zeros(|p|)) == r[1..] + [false];
  }

  /** The mask that counts eight turns. */
  function Mask(k: nat): (m: Byte)
    requires k <= 8
  {
    Ones(8 - k) + Zeros(k)
  }

  lemma {:induction false} MaskTurns(k: nat)
    requires k <= 8
    ensures Mask(k) == Zeros(8) <==> k == 8
    ensures k < 8 ==> ShiftLeft(Mask(k), 1) == Mask(k + 1)
  {
    if k < 8 {
      assert Mask(k)[0] && !Zeros(8)[0];
    }
  }

  /** A table entry, computed in a 32-bit register with byte and polynomial at its top. */
  method PrecomputeCrcByte(width: nat, byte: Byte, polynomial: Word) returns (crcval: Word)
    requires 8 <= width <= 32
    ensures crcval == Zeros(32 - width) + Entry(byte, polynomial[32 - width..])
  {
    crcval := byte + Zeros(24);
    var poly: Word := ShiftLeft(polynomial, 32 - width);
    var mask := Ones(8);
    ghost var k: nat := 0;
    MaskTurns(0);
    while mask != Zeros(8)
      invariant k <= 8 && mask == Mask(k) && (mask == Zeros(8) <==> k == 8)
      invariant crcval == Idle(byte + Zeros(24), k, poly)
      decreases 8 - k
    {
      MaskTurns(k);
      MaskTurns(k + 1);
      mask := ShiftLeft(mask, 1);
      IdleOnce(byte + Zeros(24), k, poly);
      ShiftByParts(crcval, poly);
      var nextBit := crcval[0];
      crcval := ShiftLeft(crcval, 1);
      if nextBit {
        crcval := Plus(crcval, poly);
      }
      k := k + 1;
    }
    EntryAtTop(width, byte, polynomial);
    Align(Entry(byte, polynomial[32 - width..]), width);
    if width < 32 {
      crcval := ShiftRight(crcval, 32 - width);
      crcval := And(crcval, Zeros(32 - width) + Ones(width));
    }
  }

  lemma {:induction false} EntryAtTop(width: nat, byte: Byte, polynomial: Word)
    requires 8 <= width <= 32
    ensures Idle(byte + Zeros(24), 8, ShiftLeft(polynomial, 32 - width)) ==
            Entry(byte, polynomial[32 - width..]) + Zeros(32 - width)
  {
    assert Zeros(24) == Zeros(width - 8) + Zeros(32 - width);
    assert byte + Zeros(24) == byte + Zeros(width - 8) + Zeros(32 - width);
    IdlePadded(byte + Zeros(width - 8), 8, polynomial[32 - width..], 32 - width);
  }

  lemma {:induction false} Align(e: Bits, width: nat)
    requires |e| == width <= 32
    ensures width == 32 ==> e + Zeros(0) == Zeros(0) + e
    ensures And(ShiftRight(e + Zeros(32 - width), 32 - width), Zeros(32 - width) + Ones(width)) == Zeros(32 - width) + e
  {
    assert ShiftRight(e + Zeros(32 - width), 32 - width) == Zeros(32 - width) + e;
  }

  /** The last `k` bits in the opposite order, at the bottom of a word of the same width. */
  ghost function Turned(w: Bits, k: nat): (r: Bits)
    requires k <= |w|
    ensures |r| == |w|
  {
    Zeros(|w| - k) + Reverse(w[|w| - k..])
  }

  lemma {:induction false} TurnedAt(w: Bits, k: nat, i: nat)
    requires k <= |w| && i < |w|
    ensures Turned(w, k)[i] == (i >= |w| - k && w[2 * |w| - 1 - k - i])
  {
  }

  lemma {:induction false} ShiftLeftAt(a: Bits, n: nat, i: nat)
    requires n <= |a| && i < |a|
    ensures ShiftLeft(a, n)[i] == (i + n < |a| && a[i + n])
  {
  }

  /** Bit `i` of a word whose last `n` bits are the next ones to turn. */
  ghost predicate NextAt(w: Bits, k: nat, n: nat, low: Bits, i: nat)
    requires k + n <= |w| == |low| && i < |w|
  {
    low[i] == (i >= |w| - n && w[2 * |w| - 1 - k - n - i])
  }

  /** Turning `n` more bits: move the turned ones up and put the next ones below. */
  lemma {:induction false} TurnMore(w: Bits, k: nat, n: nat, low: Bits)
    requires k + n <= |w| == |low| && forall i :: 0 <= i < |w| ==> NextAt(w, k, n, low, i)
    ensures Or(ShiftLeft(Turned(w, k), n), low) == Turned(w, k + n)
  {
    var a, b := Or(ShiftLeft(Turned(w, k), n), low), Turned(w, k + n);
    forall i | 0 <= i < |w| ensures a[i] == b[i] {
      assert NextAt(w, k, n, low, i);
      TurnMoreAt(w, k, n, low, i);
    }
    SameBits(a, b);
  }

  lemma {:induction false} TurnMoreAt(w: Bits, k: nat, n: nat, low: Bits, i: nat)
    requires k + n <= |w| == |low| && i < |w| && NextAt(w, k, n, low, i)
    ensures Or(ShiftLeft(Turned(w, k), n), low)[i] == Turned(w, k + n)[i]
  {
    TurnedAt(w, k + n, i);
    ShiftLeftAt(Turned(w, k), n, i);
    if i < |w| - n {
      TurnedAt(w, k, i + n);
    }
  }

  lemma {:induction false} SameBits(a: Bits, b: Bits)
    requires |a| == |b| && forall i :: 0 <= i < |a| ==> a[i] == b[i]
    ensures a == b
  {
  }

  lemma {:induction false} ShiftRightTwice(w: Bits, k: nat, n: nat)
    requires k + n <= |w|
    ensures ShiftRight(ShiftRight(w, k), n) == ShiftRight(w, k + n)
  {
  }

  /** The last `n` bits that are left, turned. */
  lemma {:induction false} TurnPart(w: Bits, k: nat, n: nat)
    requires k + n <= |w|
    ensures Or(ShiftLeft(Turned(w, k), n), Zeros(|w| - n) + Reverse(ShiftRight(w, k)[|w| - n..])) == Turned(w, k + n)
  {
    var part := ShiftRight(w, k)[|w| - n..];
    var low := Zeros(|w| - n) + Reverse(part);
    forall i | 0 <= i < |w| ensures NextAt(w, k, n, low, i) {
      if i >= |w| - n {
        assert low[i] == Reverse(part)[i - (|w| - n)];
        assert low[i] == part[|w| - 1 - i];
      }
    }
    TurnMore(w, k, n, low);
  }

  /** The lowest bit of the word. */
  function LowBit(w: Bits): (r: Bits)
    requires w != []
    ensures |r| == |w|
  {
    And(w, Zeros(|w| - 1) + [true])
  }

  lemma {:induction false} TurnOne(w: Bits, k: nat)
    requires k < |w|
    ensures ShiftRight(ShiftRight(w, k), 1) == ShiftRight(w, k + 1)
    ensures Or(ShiftLeft(Turned(w, k), 1), LowBit(ShiftRight(w, k))) == Turned(w, k + 1)
  {
    ShiftRightTwice(w, k, 1);
    var low := LowBit(ShiftRight(w, k));
    forall i | 0 <= i < |w| ensures NextAt(w, k, 1, low, i) {
    }
    TurnMore(w, k, 1, low);
  }

  /** The byte with its bits in the opposite order. */
  method PrecomputeReflection(byte: Byte) returns (result: Byte)
    ensures result == Reverse(byte)
  {
    var mask, input := Ones(8), byte;
    result := Zeros(8);
    ghost var k: nat := 0;
    MaskTurns(0);
    while mask != Zeros(8)
      invariant k <= 8 && mask == Mask(k) && (mask == Zeros(8) <==> k == 8)
      invariant input == ShiftRight(byte, k)
      invariant result == Turned(byte, k)
      decreases 8 - k
    {
      MaskTurns(k);
      MaskTurns(k + 1);
      TurnOne(byte, k);
      mask := ShiftLeft(mask, 1);
      result := ShiftLeft(result, 1);
      result := Or(result, LowBit(input));
      input := ShiftRight(input, 1);
      k := k + 1;
    }
  }

  // ----- the tables ---------------------------------------------------------------------------------

  const X25_POLY: Word := Zeros(16) + BitsOf(0x1021, 16)
  const CASTAGNOLI_POLY: Word := BitsOf(0x1EDC6F41, 32)

  /** The table holds the value of `f` for every byte. */
  ghost predicate Tabulates(table: seq<Bits>, f: Byte -> Bits) {
    |table| == 256 && forall b: Byte :: TabulatesAt(table, f, b)
  }

  ghost predicate TabulatesAt(table: seq<Bits>, f: Byte -> Bits, b: Byte)
    requires |table| == 256
  {
    Value(b) < 256 && table[Value(b)] == f(b)
  }

  /** The first `i` entries are filled in. */
  ghost predicate FilledTo(table: array<Bits>, f: Byte -> Bits, i: nat)
    reads table
  {
    i <= table.Length && forall k :: 0 <= k < i ==> table[k] == f(BitsOf(k, 8))
  }

  ghost function Entries(p: Bits): Byte -> Bits
    requires |p| >= 8
  {
    (b: Byte) => Entry(b, p)
  }

  ghost function Reversal(): Byte -> Bits { (b: Byte) => Reverse(b) }

  lemma {:induction false} AllBytes(table: array<Bits>, f: Byte -> Bits)
    requires table.Length == 256 && FilledTo(table, f, 256)
    ensures Tabulates(table[..], f)
  {
    forall b: Byte ensures TabulatesAt(table[..], f, b) {
      BitsOfValue(b);
      assert Power(8) == 256;
    }
  }

  /** One turn of the initialisation: the table entries of byte `i`. */
  method FillEntry(table: array<Bits>, i: nat, width: nat, polynomial: Word)
    requires i < table.Length == 256 && 8 <= width <= 32
    modifies table
    ensures old(FilledTo(table, Entries(polynomial[32 - width..]), i)) ==>
            FilledTo(table, Entries(polynomial[32 - width..]), i + 1)
  {
    var word := PrecomputeCrcByte(width, BitsOf(i, 8), polynomial);
    table[i] := word[32 - width..];
  }

  method FillReflection(table: array<Bits>, i: nat)
    requires i < table.Length == 256
    modifies table
    ensures old(FilledTo(table, Reversal(), i)) ==> FilledTo(table, Reversal(), i + 1)
  {
    var byte := PrecomputeReflection(BitsOf(i, 8));
    table[i] := byte;
  }

  /** The tables of the two algorithms of RFC 9171, filled byte by byte. */
  method FillTables(reflect: array<Bits>, table16: array<Bits>, table32: array<Bits>, polynomial16: Word,
                    polynomial32: Word)
    requires reflect.Length == table16.Length == table32.Length == 256
    requires reflect != table16 && reflect != table32 && table16 != table32
    modifies reflect, table16, table32
    ensures FilledTo(reflect, Reversal(), 256)
    ensures FilledTo(table16, Entries(polynomial16[16..]), 256) && FilledTo(table32, Entries(polynomial32[0..]), 256)
  {
    ghost var f, f16, f32 := Reversal(), Entries(polynomial16[16..]), Entries(polynomial32[0..]);
    for i := 0 to 256
      invariant FilledTo(reflect, f, i) && FilledTo(table16, f16, i) && FilledTo(table32, f32, i)
    {
      FillRow(reflect, table16, table32, i, polynomial16, polynomial32, f, f16, f32);
    }
  }

  /** One turn: the entries of byte `i` in all tables. */
  method FillRow(reflect: array<Bits>, table16: array<Bits>, table32: array<Bits>, i: nat, polynomial16: Word,
                 polynomial32: Word,
                 ghost f: Byte -> Bits, ghost f16: Byte -> Bits, ghost f32: Byte -> Bits)
    requires i < reflect.Length == table16.Length == table32.Length == 256
    requires reflect != table16 && reflect != table32 && table16 != table32
    requires f == Reversal() && f16 == Entries(polynomial16[16..]) && f32 == Entries(polynomial32[0..])
    requires FilledTo(reflect, f, i) && FilledTo(table16, f16, i) && FilledTo(table32, f32, i)
    modifies reflect, table16, table32
    ensures FilledTo(reflect, f, i + 1) && FilledTo(table16, f16, i + 1) && FilledTo(table32, f32, i + 1)
  {
    FillReflection(reflect, i);
    FillEntry(table16, i, 16, polynomial16);
    FillEntry(table32, i, 32, polynomial32);
  }

  method CrcInit(polynomial16: Word, polynomial32: Word)
    returns (reflect: array<Bits>, table16: array<Bits>, table32: array<Bits>)
    ensures Tabulates(reflect[..], Reversal())
    ensures Tabulates(table16[..], Entries(polynomial16[16..])) && Tabulates(table32[..], Entries(polynomial32[0..]))
  {
    reflect := new Bits[256];
    table16 := new Bits[256];
    table32 := new Bits[256];
    FillTables(reflect, table16, table32, polynomial16, polynomial32);
    AllBytes(reflect, Reversal());
    AllBytes(table16, Entries(polynomial16[16..]));
    AllBytes(table32, Entries(polynomial32[0..]));
  }

  // ----- digest and finalize ----------------------------------------------------------------------

  /** The digest loop, for a register of 16 or 32 bits (or any other width of at least 8). */
  method DigestBytes(reflect: seq<Bits>, table: seq<Bits>, crc: Bits, data: seq<Byte>, ghost p: Bits) returns (r: Bits)
    requires |crc| == |p| >= 8 && Tabulates(reflect, Reversal()) && Tabulates(table, Entries(p))
    ensures r == Digest(crc, data, p)
  {
    r := crc;
    var i := 0;
    while i < |data|
      invariant 0 <= i <= |data| && |r| == |p| && Digest(crc, data, p) == Digest(r, data[i..], p)
    {
      assert TabulatesAt(reflect, Reversal(), data[i]);
      var input: Byte := reflect[Value(data[i])];
      var index: Byte := Plus(r[..8], input);
      assert TabulatesAt(table, Entries(p), index);
      assert data[i..][1..] == data[i + 1..];
      r := Plus(table[Value(index)], ShiftLeft(r, 8));
      i := i + 1;
    }
    assert data[|data|..] == [];
  }

  /** Eight bits are turned through the table. */
  lemma {:induction false} TurnByte(w: Word, k: nat)
    requires k + 8 <= 32
    ensures ShiftRight(ShiftRight(w, k), 8) == ShiftRight(w, k + 8)
    ensures Or(ShiftLeft(Turned(w, k), 8), Zeros(24) + Reverse(ShiftRight(w, k)[24..])) == Turned(w, k + 8)
  {
    ShiftRightTwice(w, k, 8);
    TurnPart(w, k, 8);
  }

  /** The bits of the register in the opposite order, bytes first. */
  method ReflectOutput(reflect: seq<Bits>, length: nat, crc: Word) returns (result: Word)
    requires length <= 32 && Tabulates(reflect, Reversal())
    ensures result == Turned(crc, length)
  {
    result := Zeros(32);
    var rest, i := crc, length;
    while i >= 8
      invariant 0 <= i <= length && rest == ShiftRight(crc, length - i) && result == Turned(crc, length - i)
    {
      TurnByte(crc, length - i);
      var byte: Byte := rest[24..];
      assert TabulatesAt(reflect, Reversal(), byte);
      result := Or(ShiftLeft(result, 8), Zeros(24) + reflect[Value(byte)]);
      rest := ShiftRight(rest, 8);
      i := i - 8;
    }
    while i > 0
      invariant 0 <= i <= length && rest == ShiftRight(crc, length - i) && result == Turned(crc, length - i)
    {
      TurnOne(crc, length - i);
      result := Or(ShiftLeft(result, 1), LowBit(rest));
      rest := ShiftRight(rest, 1);
      i := i - 1;
    }
  }

  method Finalize(reflect: seq<Bits>, length: nat, reflectOutput: bool, finalXor: Word, crc: Word)
    returns (result: Word)
    requires length <= 32 && Tabulates(reflect, Reversal())
    ensures var low := crc[32 - length..];
      result == Zeros(32 - length) + Plus(if reflectOutput then Reverse(low) else low, finalXor[32 - length..])
  {
    if reflectOutput {
      result := ReflectOutput(reflect, length, crc);
    } else {
      result := crc;
    }
    ghost var z, r := 32 - length, result;
    MaskedSum(r, finalXor, z);
    if z == 0 {
      WholeSum(r, finalXor, z);
    }
    assert reflectOutput ==> r[z..] == Reverse(crc[z..]);
    result := Plus(result, finalXor);
    if length < 32 {
      result := And(result, Zeros(32 - length) + Ones(length));
    }
  }

  /** The sum of two words, with all but the low bits masked out. */
  lemma {:induction false} MaskedSum(a: Bits, b: Bits, z: nat)
    requires z <= |a| == |b|
    ensures And(Plus(a, b), Zeros(z) + Ones(|a| - z)) == Zeros(z) + Plus(a[z..], b[z..])
  {
    var masked, low := And(Plus(a, b), Zeros(z) + Ones(|a| - z)), Zeros(z) + Plus(a[z..], b[z..]);
    forall i | 0 <= i < |a| ensures masked[i] == low[i] {
      MaskedSumAt(a, b, z, i);
    }
    SameBits(masked, low);
  }

  lemma {:induction false} MaskedSumAt(a: Bits, b: Bits, z: nat, i: nat)
    requires z <= |a| == |b| && i < |a|
    ensures And(Plus(a, b), Zeros(z) + Ones(|a| - z))[i] == (i >= z && a[i] != b[i]) ==
      (Zeros(z) + Plus(a[z..], b[z..]))[i]
  {
    if i >= z {
      assert Plus(a[z..], b[z..])[i - z] == (a[z..][i - z] != b[z..][i - z]);
    }
  }

  lemma {:induction false} WholeSum(a: Bits, b: Bits, z: nat)
    requires z == 0 && |a| == |b|
    ensures Plus(a, b) == Zeros(z) + Plus(a[z..], b[z..])
  {
  }

  /** The check value of a message: the remainder of its division by the generator, starting from
      `initial`, with its bits reversed and `finalXor` added. */
  function CheckValue(p: Bits, initial: Bits, finalXor: Bits, data: seq<Byte>): (r: Word)
    requires |p| == |initial| == |finalXor| <= 32
  {
    Zeros(32 - |p|) + Plus(Reverse(Remainder(Dividend(initial, Message(data)), p)), finalXor)
  }

  /** Both algorithms of RFC 9171, section 4.2.1: the tables compute the check value. */
  method CrcGet(reflect: seq<Bits>, table: seq<Bits>, initial: Word, finalXor: Word, data: seq<Byte>, length: nat,
                ghost p: Bits)
    returns (result: Word)
    requires 8 <= length <= 32 && |p| == length
    requires Tabulates(reflect, Reversal()) && Tabulates(table, Entries(p))
    ensures result == CheckValue(p, initial[32 - length..], finalXor[32 - length..], data)
  {
    var crc := DigestBytes(reflect, table, initial[32 - length..], data, p);
    DigestIsRegister(initial[32 - length..], data, p);
    RegisterIsRemainder(initial[32 - length..], Message(data), p);
    var word: Word := Zeros(32 - length) + crc;
    assert word[32 - length..] == crc;
    result := Finalize(reflect, length, true, finalXor, word);
  }

  /** CRC-16/X-25. */
  method CrcX25(data: seq<Byte>) returns (result: Word)
    ensures result == CheckValue(X25_POLY[16..], Ones(16), Ones(16), data)
  {
    var reflect, table16, table32 := CrcInit(X25_POLY, CASTAGNOLI_POLY);
    var ones: Word := Zeros(16) + Ones(16);
    assert ones[16..] == Ones(16);
    result := CrcGet(reflect[..], table16[..], ones, ones, data, 16, X25_POLY[16..]);
  }

  /** CRC-32C. */
  method CrcCastagnoli(data: seq<Byte>) returns (result: Word)
    ensures result == CheckValue(CASTAGNOLI_POLY[0..], Ones(32), Ones(32), data)
  {
    var reflect, table16, table32 := CrcInit(X25_POLY, CASTAGNOLI_POLY);
    var ones: Word := Ones(32);
    assert ones[0..] == Ones(32);
    result := CrcGet(reflect[..], table32[..], ones, ones, data, 32, CASTAGNOLI_POLY[0..]);
  }

  /** The check value of no data at all is zero, whatever the generator. */
  lemma {:induction false} CheckOfNothing(p: Bits)
    requires |p| <= 32
    ensures CheckValue(p, Ones(|p|), Ones(|p|), []) == Zeros(32)
  {
    assert Dividend(Ones(|p|), []) == Ones(|p|);
    assert Reverse(Ones(|p|)) == Ones(|p|);
  }
}
