/** The routing table: kept from most to least specific, so that the first match is the best. */
module Routing {
  import opened Words

  // ----- masks ---------------------------------------------------------------------------------------

  /** All high bits set, no gaps. */
  predicate Contiguous(mask: Bits) { exists k: nat :: k <= |mask| && mask == Prefix(k, |mask|) }

  function Prefix(k: nat, width: nat): (m: Bits)
    requires k <= width
    ensures |m| == width
  {
    Ones(k) + Zeros(width - k)
  }

  /** The test of the program: the complement plus one has no bit in common with the complement. */
  function NoGaps(mask: Bits): bool {
    And(Increment(Not(mask)), Not(mask)) == Zeros(|mask|)
  }

  /** The low bits set, no gaps. */
  ghost predicate LowOnes(n: Bits) { exists k: nat :: k <= |n| && n == Zeros(|n| - k) + Ones(k) }

  lemma {:induction false} AndSelf(a: Bits)
    ensures And(a, a) == a
  {
  }

  lemma {:induction false} AndLast(a: Bits, b: Bits, x: bool, y: bool)
    requires |a| == |b|
    ensures And(a + [x], b + [y]) == And(a, b) + [x && y]
  {
  }

  lemma {:induction false} ZerosLast(a: Bits, x: bool)
    ensures a + [x] == Zeros(|a| + 1) <==> a == Zeros(|a|) && !x
  {
    if a + [x] == Zeros(|a| + 1) {
      assert forall i :: 0 <= i < |a| ==> a[i] == (a + [x])[i];
      assert (a + [x])[|a|] == x;
    }
  }

  lemma {:induction false} OnesLast(k: nat)
    ensures Ones(k) + [true] == Ones(k + 1)
  {
  }

  lemma {:induction false} LowOnesGrow(m: Bits)
    ensures LowOnes(m) ==> LowOnes(m + [true])
  {
    if LowOnes(m) {
      var k: nat :| k <= |m| && m == Zeros(|m| - k) + Ones(k);
      OnesLast(k);
      assert m + [true] == Zeros(|m| - k) + (Ones(k) + [true]);
      assert m + [true] == Zeros(|m + [true]| - (k + 1)) + Ones(k + 1);
    }
  }

  lemma {:induction false} LowOnesShrink(m: Bits)
    ensures LowOnes(m + [true]) ==> LowOnes(m)
  {
    if LowOnes(m + [true]) {
      var n := m + [true];
      var k: nat :| k <= |n| && n == Zeros(|n| - k) + Ones(k);
      assert n[|m|] && k > 0;
      OnesLast(k - 1);
      assert n == Zeros(|n| - k) + Ones(k - 1) + [true];
      assert m == n[..|m|];
      assert m == Zeros(|m| - (k - 1)) + Ones(k - 1);
    }
  }

  lemma {:induction false} LowOnesNone(m: Bits)
    ensures LowOnes(m + [false]) <==> m == Zeros(|m|)
  {
    var n := m + [false];
    if m == Zeros(|m|) {
      assert n == Zeros(|n| - 0) + Ones(0);
    }
    if LowOnes(n) {
      var k: nat :| k <= |n| && n == Zeros(|n| - k) + Ones(k);
      assert !n[|m|];
      assert k == 0;
      assert forall i :: 0 <= i < |m| ==> m[i] == n[i];
    }
  }

  lemma {:induction false} IncrementTest(n: Bits)
    ensures And(Increment(n), n) == Zeros(|n|) <==> LowOnes(n)
    decreases |n|
  {
    if n == [] {
      assert n == Zeros(0) + Ones(0);
    } else {
      var m, x := n[..|n| - 1], n[|n| - 1];
      assert n == m + [x];
      IncrementTest(m);
      LowOnesGrow(m);
      LowOnesShrink(m);
      LowOnesNone(m);
      if x {
        AndLast(Increment(m), m, false, true);
        ZerosLast(And(Increment(m), m), false);
      } else {
        AndLast(m, m, true, false);
        AndSelf(m);
        ZerosLast(m, false);
      }
    }
  }

  lemma {:induction false} NotPrefix(k: nat, width: nat)
    requires k <= width
    ensures Not(Prefix(k, width)) == Zeros(k) + Ones(width - k)
  {
    var a, b := Not(Prefix(k, width)), Zeros(k) + Ones(width - k);
    assert forall i :: 0 <= i < width ==> a[i] == b[i];
  }

  lemma {:induction false} NotTwice(a: Bits)
    ensures Not(Not(a)) == a
  {
    assert forall i :: 0 <= i < |a| ==> Not(Not(a))[i] == a[i];
  }

  lemma {:induction false} NotLowOnes(mask: Bits)
    ensures LowOnes(Not(mask)) <==> Contiguous(mask)
  {
    if Contiguous(mask) {
      var k: nat :| k <= |mask| && mask == Prefix(k, |mask|);
      NotPrefix(k, |mask|);
      assert Not(mask) == Zeros(|Not(mask)| - (|mask| - k)) + Ones(|mask| - k);
    }
    if LowOnes(Not(mask)) {
      var k: nat :| k <= |Not(mask)| && Not(mask) == Zeros(|Not(mask)| - k) + Ones(k);
      NotPrefix(|mask| - k, |mask|);
      NotTwice(mask);
      NotTwice(Prefix(|mask| - k, |mask|));
    }
  }

  /** The test accepts exactly the contiguous masks. */
  lemma NoGapsExact(mask: Bits)
    ensures NoGaps(mask) <==> Contiguous(mask)
  {
    IncrementTest(Not(mask));
    NotLowOnes(mask);
  }

  /** The number of leading ones: how specific a mask is. */
  function Length(mask: Bits): (k: nat)
    ensures k <= |mask|
  {
    if mask == [] || !mask[0] then 0 else 1 + Length(mask[1..])
  }

  lemma {:induction false} PrefixLength(k: nat, width: nat)
    requires k <= width
    ensures Length(Prefix(k, width)) == k
    decreases k
  {
    var m := Prefix(k, width);
    if k > 0 {
      PrefixLength(k - 1, width - 1);
      assert m[0] && m[1..] == Prefix(k - 1, width - 1);
    } else if width > 0 {
      assert !m[0];
    }
  }

  /** For contiguous masks, the test of the program compares how specific they are. */
  lemma {:induction false} CoversExact(a: Bits, b: Bits)
    requires |a| == |b| && Contiguous(a) && Contiguous(b)
    ensures And(a, b) == b <==> Length(a) >= Length(b)
  {
    var j: nat :| j <= |a| && a == Prefix(j, |a|);
    var k: nat :| k <= |b| && b == Prefix(k, |b|);
    PrefixLength(j, |a|);
    PrefixLength(k, |b|);
    if j < k {
      assert !And(a, b)[j] && b[j];
    }
  }

  // ----- the table -----------------------------------------------------------------------------------------

  datatype Route = Route(dest: Bits, mask: Bits, intf: int)

  /** Addresses have 64 bits. */
  const WIDTH: nat := 64

  predicate RouteOk(r: Route) { |r.dest| == |r.mask| == WIDTH && Contiguous(r.mask) }

  /** The first route is more specific, or as specific and older; and they differ. */
  ghost predicate Precedes(r: Route, age: int, r': Route, age': int) {
    && r != r' && Length(r.mask) >= Length(r'.mask)
    && (Length(r.mask) == Length(r'.mask) ==> age < age')
  }

  /** From most to least specific; among equals, the one added first is first.  No route is there twice. */
  ghost predicate Ordered(s: seq<Route>, ages: seq<int>) {
    && |ages| == |s| && (forall i :: 0 <= i < |s| ==> RouteOk(s[i]))
    && (forall i, j :: 0 <= i < j < |s| ==> Precedes(s[i], ages[i], s[j], ages[j]))
  }

  function Matches(r: Route, dest: Bits): bool
    requires |r.dest| == |r.mask| == |dest|
  {
    And(Plus(r.dest, dest), r.mask) == Zeros(|dest|)
  }

  /** A route matches if its destination agrees in the bits of its prefix. */
  lemma {:induction false} MatchIsPrefix(r: Route, dest: Bits)
    requires RouteOk(r) && |dest| == WIDTH
    ensures Matches(r, dest) <==> r.dest[..Length(r.mask)] == dest[..Length(r.mask)]
  {
    var k: nat :| k <= |r.mask| && r.mask == Prefix(k, |r.mask|);
    PrefixLength(k, |r.mask|);
    var x := And(Plus(r.dest, dest), r.mask);
    if Matches(r, dest) {
      forall i | 0 <= i < k ensures r.dest[i] == dest[i] {
        assert !x[i];
      }
    }
    if r.dest[..k] == dest[..k] {
      forall i | 0 <= i < WIDTH ensures !x[i] {
        if i < k {
          assert r.dest[..k][i] == dest[..k][i];
        }
      }
      assert x == Zeros(WIDTH);
    }
  }

  /** Where a new route goes: behind all that are at least as specific. */
  ghost predicate Splits(s: seq<Route>, at: nat, mask: Bits) {
    && at <= |s|
    && (forall i :: 0 <= i < at ==> Length(s[i].mask) >= Length(mask))
    && (forall i :: at <= i < |s| ==> Length(s[i].mask) < Length(mask))
  }

  lemma {:induction false} InsertOrdered(s: seq<Route>, ages: seq<int>, at: nat, r: Route, age: int)
    requires Ordered(s, ages) && Splits(s, at, r.mask) && RouteOk(r)
    requires (forall i :: 0 <= i < |s| ==> s[i] != r) && (forall i :: 0 <= i < |ages| ==> ages[i] < age)
    ensures Ordered(s[..at] + [r] + s[at..], ages[..at] + [age] + ages[at..])
  {
    var s', ages' := s[..at] + [r] + s[at..], ages[..at] + [age] + ages[at..];
    forall i, j | 0 <= i < j < |s'| ensures Precedes(s'[i], ages'[i], s'[j], ages'[j]) {
      InsertPrecedes(s, ages, at, r, age, s', ages', i, j);
    }
  }

  lemma {:induction false} InsertPrecedes(s: seq<Route>, ages: seq<int>, at: nat, r: Route, age: int, s': seq<Route>,
                                          ages': seq<int>, i: nat, j: nat)
    requires Ordered(s, ages) && Splits(s, at, r.mask)
    requires s' == s[..at] + [r] + s[at..] && ages' == ages[..at] + [age] + ages[at..]
    requires (forall k :: 0 <= k < |s| ==> s[k] != r) && (forall k :: 0 <= k < |ages| ==> ages[k] < age) && i < j < |s'|
    ensures Precedes(s'[i], ages'[i], s'[j], ages'[j])
  {
    if j == at {
      assert s'[i] == s[i] && ages'[i] == ages[i];
    } else if i == at {
      assert s'[j] == s[j - 1] && ages'[j] == ages[j - 1];
    } else {
      var i0, j0 := if i < at then i else i - 1, if j < at then j else j - 1;
      assert Precedes(s[i0], ages[i0], s[j0], ages[j0]);
    }
  }

  lemma {:induction false} RemoveOrdered(s: seq<Route>, ages: seq<int>, at: nat)
    requires Ordered(s, ages) && at < |s|
    ensures Ordered(s[..at] + s[at + 1..], ages[..at] + ages[at + 1..])
  {
  }

  /** The flags of an interface, if it exists. */
  type Interfaces = map<int, Bits>

  /** The interface of the route has the required flags; an unknown one is given the opposite of them. */
  function Usable(interfaces: Interfaces, r: Route, required: Bits, mask: Bits): bool
    requires |required| == |mask| && forall x :: x in interfaces ==> |interfaces[x]| == |mask|
  {
    var flags := if mask != Zeros(|mask|) && r.intf in interfaces then interfaces[r.intf] else Not(required);
    And(flags, mask) == required
  }

  lemma {:induction false} SomeBit(mask: Bits) returns (i: nat)
    requires mask != Zeros(|mask|)
    ensures i < |mask| && mask[i]
  {
    i :| i < |mask| && mask[i] != Zeros(|mask|)[i];
  }

  /** A route to an unknown interface is never used when flags are asked for. */
  lemma {:induction false} UnknownUnusable(interfaces: Interfaces, r: Route, required: Bits, mask: Bits)
    requires |required| == |mask| && forall x :: x in interfaces ==> |interfaces[x]| == |mask|
    requires mask != Zeros(|mask|) && r.intf !in interfaces
    ensures !Usable(interfaces, r, required, mask)
  {
    var i := SomeBit(mask);
    assert And(Not(required), mask)[i] == !required[i];
  }

  /** The flags of the interface, as far as the mask shows them, are the required ones. */
  ghost predicate HasFlags(interfaces: Interfaces, intf: int, required: Bits, mask: Bits)
    requires |required| == |mask| && forall x :: x in interfaces ==> |interfaces[x]| == |mask|
  {
    intf in interfaces && forall i :: 0 <= i < |mask| ==> required[i] == (mask[i] && interfaces[intf][i])
  }

  /** Bit by bit: if flags are asked for, the interface must be known and have exactly these of those under the mask;
      if none are asked for, any route will do, unless flags are required that the mask hides. */
  lemma {:induction false} UsableExact(interfaces: Interfaces, r: Route, required: Bits, mask: Bits)
    requires |required| == |mask| && forall x :: x in interfaces ==> |interfaces[x]| == |mask|
    ensures mask != Zeros(|mask|) ==>
      (Usable(interfaces, r, required, mask) <==> HasFlags(interfaces, r.intf, required, mask))
    ensures mask == Zeros(|mask|) ==> (Usable(interfaces, r, required, mask) <==> required == Zeros(|mask|))
  {
    if mask == Zeros(|mask|) {
      assert And(Not(required), mask) == Zeros(|mask|);
    } else if r.intf !in interfaces {
      UnknownUnusable(interfaces, r, required, mask);
    } else {
      var both := And(interfaces[r.intf], mask);
      assert both == required <==> forall i :: 0 <= i < |mask| ==> both[i] == required[i];
    }
  }

  /** The route leads to the destination: they agree in the bits of the mask. */
  ghost predicate LeadsTo(r: Route, dest: Bits) {
    |r.dest| == |r.mask| == |dest| && forall i :: 0 <= i < |dest| && r.mask[i] ==> r.dest[i] == dest[i]
  }

  lemma {:induction false} MatchesExact(r: Route, dest: Bits)
    requires |r.dest| == |r.mask| == |dest|
    ensures Matches(r, dest) <==> LeadsTo(r, dest)
  {
  }

  /** The route leads there, over an interface with the required flags if any are asked for. */
  ghost predicate Serves(r: Route, dest: Bits, interfaces: Interfaces, required: Bits, mask: Bits)
    requires |required| == |mask| && forall x :: x in interfaces ==> |interfaces[x]| == |mask|
  {
    && LeadsTo(r, dest)
    && (mask == Zeros(|mask|) ==> required == Zeros(|mask|))
    && (mask != Zeros(|mask|) ==> HasFlags(interfaces, r.intf, required, mask))
  }

  lemma {:induction false} CandidateExact(r: Route, dest: Bits, interfaces: Interfaces, required: Bits, mask: Bits)
    requires |required| == |mask| && forall x :: x in interfaces ==> |interfaces[x]| == |mask|
    ensures Candidate(r, dest, interfaces, required, mask) <==> Serves(r, dest, interfaces, required, mask)
  {
    if |r.dest| == |r.mask| == |dest| {
      MatchesExact(r, dest);
      UsableExact(interfaces, r, required, mask);
    }
  }

  /** With the same flags as mask, as in the search for an available interface: all of them are set. */
  lemma {:induction false} AllFlagsSet(interfaces: Interfaces, intf: int, flags: Bits)
    requires forall x :: x in interfaces ==> |interfaces[x]| == |flags|
    ensures HasFlags(interfaces, intf, flags, flags) <==>
      intf in interfaces && forall i :: 0 <= i < |flags| && flags[i] ==> interfaces[intf][i]
  {
  }

  predicate Candidate(r: Route, dest: Bits, interfaces: Interfaces, required: Bits, mask: Bits)
    requires |required| == |mask| && forall x :: x in interfaces ==> |interfaces[x]| == |mask|
  {
    |r.dest| == |r.mask| == |dest| && Matches(r, dest) && Usable(interfaces, r, required, mask)
  }

  /** The first `pos` routes differ from `r`, and `insert` of them are at least as specific. */
  ghost predicate Scanned(s: seq<Route>, pos: nat, insert: nat, r: Route) {
    && insert <= pos <= |s| && (forall i :: 0 <= i < pos ==> s[i] != r)
    && (forall i :: 0 <= i < insert ==> Length(s[i].mask) >= Length(r.mask))
    && (forall i :: insert <= i < pos ==> Length(s[i].mask) < Length(r.mask))
  }

  lemma {:induction false} ScanNext(s: seq<Route>, ages: seq<int>, pos: nat, insert: nat, r: Route)
    requires Ordered(s, ages) && RouteOk(r) && Scanned(s, pos, insert, r) && pos < |s| && s[pos] != r
    ensures |s[pos].mask| == |r.mask|
    ensures And(s[pos].mask, r.mask) == r.mask ==> Scanned(s, pos + 1, insert + 1, r)
    ensures And(s[pos].mask, r.mask) != r.mask ==> Scanned(s, pos + 1, insert, r)
  {
    assert RouteOk(s[pos]);
    CoversExact(s[pos].mask, r.mask);
    if insert < pos {
      assert Precedes(s[insert], ages[insert], s[pos], ages[pos]);
    }
  }

  /** A candidate that precedes every other one. */
  ghost predicate Best(s: seq<Route>, ages: seq<int>, at: nat, dest: Bits, interfaces: Interfaces, required: Bits,
                       mask: Bits)
    requires |required| == |mask| && forall x :: x in interfaces ==> |interfaces[x]| == |mask|
  {
    && at < |s| == |ages| && Candidate(s[at], dest, interfaces, required, mask)
    && forall j :: 0 <= j < |s| && j != at && Candidate(s[j], dest, interfaces, required, mask) ==>
         Precedes(s[at], ages[at], s[j], ages[j])
  }

  lemma {:induction false} FirstIsBest(s: seq<Route>, ages: seq<int>, at: nat, dest: Bits, interfaces: Interfaces,
                                       required: Bits, mask: Bits)
    requires |required| == |mask| && forall x :: x in interfaces ==> |interfaces[x]| == |mask|
    requires Ordered(s, ages) && at < |s| && Candidate(s[at], dest, interfaces, required, mask)
    requires forall j :: 0 <= j < at ==> !Candidate(s[j], dest, interfaces, required, mask)
    ensures Best(s, ages, at, dest, interfaces, required, mask)
  {
  }

  class RouteTable {
    const table: array<Route>
    var registered: nat
    /** When the routes were added. */
    ghost var ages: seq<int>
    ghost var clock: int

    ghost function Routes(): seq<Route>
      reads this, table
      requires registered <= table.Length
    {
      table[..registered]
    }

    ghost predicate Valid()
      reads this, table
    {
      registered <= table.Length && Ordered(Routes(), ages) && forall i :: 0 <= i < |ages| ==> ages[i] < clock
    }

    constructor (max: nat)
      ensures Valid() && Routes() == [] && table.Length == max && fresh(table)
    {
      table := new Route[max](_ => Route([], [], 0));
      registered := 0;
      ages, clock := [], 0;
    }

    /** The position of this route, and the number of routes that are at least as specific. */
    method Scan(r: Route) returns (pos: nat, insert: nat)
      requires Valid() && RouteOk(r)
      ensures Valid() && Scanned(Routes(), pos, insert, r)
      ensures pos < registered ==> Routes()[pos] == r
    {
      ghost var s := Routes();
      pos, insert := 0, 0;
      while pos < registered && table[pos] != r
        invariant pos <= registered && Scanned(s, pos, insert, r)
      {
        assert table[pos] == s[pos];
        ScanNext(s, ages, pos, insert, r);
        if And(table[pos].mask, r.mask) == r.mask {
          insert := insert + 1;
        }
        pos := pos + 1;
      }
    }

    /** Move the routes from `at` on by one place to the back, and put a new one there. */
    method MakeRoom(at: nat, r: Route, ghost s: seq<Route>)
      requires at <= registered < table.Length && s == table[..registered]
      modifies table
      ensures table[..registered + 1] == s[..at] + [r] + s[at..]
    {
      var i := registered;
      while i > at
        invariant at <= i <= registered
        invariant forall k :: 0 <= k < i ==> table[k] == s[k]
        invariant forall k :: i < k <= registered ==> table[k] == s[k - 1]
      {
        table[i] := table[i - 1];
        i := i - 1;
      }
      table[at] := r;
      ghost var joined := s[..at] + [r] + s[at..];
      assert forall k :: 0 <= k < |joined| ==> joined[k] == table[k];
    }

    /** Move the routes behind `at` by one place to the front. */
    method CloseGap(at: nat, ghost s: seq<Route>)
      requires at < registered <= table.Length && s == table[..registered]
      modifies table
      ensures table[..registered - 1] == s[..at] + s[at + 1..]
    {
      var i := at;
      while i < registered - 1
        invariant at <= i < registered
        invariant forall k :: 0 <= k < at ==> table[k] == s[k]
        invariant forall k :: at <= k < i ==> table[k] == s[k + 1]
        invariant forall k :: i < k < registered ==> table[k] == s[k]
      {
        table[i] := table[i + 1];
        i := i + 1;
      }
    }

    /** Put a new route at its place. */
    method InsertAt(at: nat, r: Route)
      requires Valid() && registered < table.Length && RouteOk(r) && r !in Routes() && Splits(Routes(), at, r.mask)
      modifies this, table
      ensures Valid() && Routes() == old(Routes())[..at] + [r] + old(Routes())[at..]
    {
      ghost var s := Routes();
      InsertOrdered(s, ages, at, r, clock);
      MakeRoom(at, r, s);
      registered := registered + 1;
      ages, clock := ages[..at] + [clock] + ages[at..], clock + 1;
      assert Routes() == s[..at] + [r] + s[at..];
    }

    /** Add a route; refused if the table is full, the mask has gaps or the route is there already. */
    method Add(dest: Bits, mask: Bits, intf: int) returns (ok: bool, ghost at: nat)
      requires Valid() && |dest| == |mask| == WIDTH
      modifies this, table
      ensures Valid()
      ensures ok <==> |old(Routes())| < table.Length && Contiguous(mask) && Route(dest, mask, intf) !in old(Routes())
      ensures ok ==> Splits(old(Routes()), at, mask)
      ensures ok ==> Routes() == old(Routes())[..at] + [Route(dest, mask, intf)] + old(Routes())[at..]
      ensures !ok ==> Routes() == old(Routes())
    {
      var r := Route(dest, mask, intf);
      NoGapsExact(mask);
      if registered >= table.Length || !NoGaps(mask) {
        return false, 0;
      }
      ghost var s := Routes();
      var pos, insert := Scan(r);
      if pos < registered {
        return false, 0;
      }
      InsertAt(insert, r);
      return true, insert;
    }

    /** Delete a route; refused if it is not there. */
    method Delete(dest: Bits, mask: Bits, intf: int) returns (ok: bool)
      requires Valid()
      modifies this, table
      ensures Valid()
      ensures var s, r := old(Routes()), Route(dest, mask, intf);
        && (ok <==> r in s)
        && (ok ==> exists at :: 0 <= at < |s| && s[at] == r && Routes() == s[..at] + s[at + 1..])
        && (!ok ==> Routes() == s)
    {
      ghost var s := Routes();
      var r := Route(dest, mask, intf);
      var pos := FirstMatch((x: Route) => x == r);
      if pos >= registered {
        return false;
      }
      RemoveAt(pos);
      return true;
    }

    method RemoveAt(at: nat)
      requires Valid() && at < registered
      modifies this, table
      ensures Valid() && Routes() == old(Routes())[..at] + old(Routes())[at + 1..]
    {
      ghost var s := Routes();
      RemoveOrdered(s, ages, at);
      CloseGap(at, s);
      registered := registered - 1;
      ages := ages[..at] + ages[at + 1..];
    }

    /** The first route that passes a test. */
    method FirstMatch(test: Route -> bool) returns (pos: nat)
      requires registered <= table.Length
      ensures pos <= registered && (pos < registered ==> test(Routes()[pos]))
      ensures forall j :: 0 <= j < pos ==> !test(Routes()[j])
    {
      pos := 0;
      while pos < registered && !test(table[pos])
        invariant 0 <= pos <= registered && forall j :: 0 <= j < pos ==> !test(Routes()[j])
      {
        pos := pos + 1;
      }
    }

    /** The best route to a destination among those that serve: no other one is more specific, and none that is as
        specific is older.  Without any there is none. */
    method NextIntfWithFlags(dest: Bits, interfaces: Interfaces, required: Bits, mask: Bits)
      returns (found: bool, intf: int, ghost at: nat)
      requires Valid() && |dest| == WIDTH && |required| == |mask|
      requires forall x :: x in interfaces ==> |interfaces[x]| == |mask|
      ensures found ==> at < registered && intf == Routes()[at].intf
      ensures found ==> Serves(Routes()[at], dest, interfaces, required, mask)
      ensures found ==> forall j :: 0 <= j < registered && j != at ==>
        Serves(Routes()[j], dest, interfaces, required, mask) ==> Precedes(Routes()[at], ages[at], Routes()[j], ages[j])
      ensures !found ==> forall j :: 0 <= j < registered ==> !Serves(Routes()[j], dest, interfaces, required, mask)
    {
      forall j | 0 <= j < registered
        ensures Candidate(Routes()[j], dest, interfaces, required, mask) <==>
                Serves(Routes()[j], dest, interfaces, required, mask)
      {
        CandidateExact(Routes()[j], dest, interfaces, required, mask);
      }
      var pos := FirstMatch((r: Route) => Candidate(r, dest, interfaces, required, mask));
      if pos == registered {
        return false, 0, 0;
      }
      FirstIsBest(Routes(), ages, pos, dest, interfaces, required, mask);
      return true, table[pos].intf, pos;
    }
  }
}
