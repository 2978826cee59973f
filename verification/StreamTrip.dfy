/** What is written to a stream comes back from it, and when it does not. */
module StreamTrip {
  import opened Stream

  datatype Op = WriteBytes(data: seq<Byte>) | SeekTo(target: nat)

  datatype Probe = Fetch(size: nat) | Goto(target: nat)

  // ----- what was asked for -----------------------------------------------------------------------

  /** The bytes of a stream after one operation: a seek forward fills with zeros, a seek back drops. */
  function Done(written: seq<Byte>, op: Op): seq<Byte> {
    match op
    case WriteBytes(data) => written + data
    case SeekTo(target) =>
      if target < |written| then written[..target] else written + ZeroBytes(target - |written|)
  }

  /** The bytes after all operations. */
  function Intended(ops: seq<Op>): seq<Byte> {
    if ops == [] then [] else Done(Intended(ops[..|ops| - 1]), ops[|ops| - 1])
  }

  /** The last operation that moved the stream did not move it back. */
  predicate Neat(ops: seq<Op>) {
    if ops == [] then true
    else
      var before, op := ops[..|ops| - 1], ops[|ops| - 1];
      match op
      case WriteBytes(data) => Neat(before) || data != []
      case SeekTo(target) => target >= |Intended(before)| && (Neat(before) || target > |Intended(before)|)
  }

  /** No operation moves the stream back. */
  ghost predicate Forward(ops: seq<Op>) {
    forall i :: 0 <= i < |ops| && ops[i].SeekTo? ==> ops[i].target >= |Intended(ops[..i])|
  }

  lemma {:induction false} ForwardNeat(ops: seq<Op>)
    requires Forward(ops)
    ensures Neat(ops)
  {
    if ops != [] {
      var before := ops[..|ops| - 1];
      forall i | 0 <= i < |before| && before[i].SeekTo? ensures before[i].target >= |Intended(before[..i])| {
        assert before[i] == ops[i] && before[..i] == ops[..i];
      }
      ForwardNeat(before);
    }
  }

  // ----- what was done ------------------------------------------------------------------------------

  /** The operation that was carried out, when the stream answered `r`: how much was written, or where it is. */
  function Actual(op: Op, r: nat): Op {
    match op
    case WriteBytes(data) => WriteBytes(data[..Min(r, |data|)])
    case SeekTo(target) => SeekTo(r)
  }

  function Actuals(ops: seq<Op>, results: seq<nat>): (r: seq<Op>)
    requires |ops| == |results|
    ensures |r| == |ops| && forall i :: 0 <= i < |ops| ==> r[i] == Actual(ops[i], results[i])
  {
    if ops == [] then [] else [Actual(ops[0], results[0])] + Actuals(ops[1..], results[1..])
  }

  /** Every operation was carried out in full. */
  predicate Full(ops: seq<Op>, results: seq<nat>)
    requires |ops| == |results|
  {
    forall i :: 0 <= i < |ops| ==> results[i] == Wanted(ops[i])
  }

  function Wanted(op: Op): nat { if op.WriteBytes? then |op.data| else op.target }

  lemma {:induction false} FullIsActual(ops: seq<Op>, results: seq<nat>)
    requires |ops| == |results| && Full(ops, results)
    ensures Actuals(ops, results) == ops
  {
    var r := Actuals(ops, results);
    forall i | 0 <= i < |ops| ensures r[i] == ops[i] {
      assert results[i] == Wanted(ops[i]);
      if ops[i].WriteBytes? {
        assert ops[i].data[..|ops[i].data|] == ops[i].data;
      }
    }
  }

  lemma {:induction false} IntendedNext(ops: seq<Op>, op: Op)
    ensures Intended(ops + [op]) == Done(Intended(ops), op)
    ensures Neat(ops + [op]) <==>
      match op
      case WriteBytes(data) => Neat(ops) || data != []
      case SeekTo(target) => target >= |Intended(ops)| && (Neat(ops) || target > |Intended(ops)|)
  {
    assert (ops + [op])[..|ops|] == ops;
  }

  lemma {:induction false} ActualsNext(ops: seq<Op>, results: seq<nat>, op: Op, r: nat)
    requires |ops| == |results|
    ensures Actuals(ops + [op], results + [r]) == Actuals(ops, results) + [Actual(op, r)]
  {
  }

  // ----- writing --------------------------------------------------------------------------------------

  /** The stream holds what the operations wrote, and ends with it exactly if they are neat. */
  ghost predicate Follows(w: Writer, ops: seq<Op>)
    reads w
  {
    w.Valid() && w.Written() == Intended(ops) && (w.Trimmed() <==> Neat(ops))
  }

  /** The bytes that the stream holds and those for which there is room. */
  ghost function Space(w: Writer): int
    reads w
    requires w.Valid()
  {
    |w.Written()| + w.Room()
  }

  predicate Onward(written: seq<Byte>, op: Op) { op.SeekTo? ==> op.target >= |written| }

  /** One operation.  One that moves on is carried out in full exactly if there is room for it. */
  method Perform(w: Writer, op: Op, ghost ops: seq<Op>) returns (r: nat)
    requires Follows(w, ops)
    modifies w
    ensures Follows(w, ops + [Actual(op, r)]) && w.Room() >= 0
    ensures Onward(Intended(ops), op) ==>
      Space(w) == old(Space(w)) && (r == Wanted(op) <==> |Done(Intended(ops), op)| <= old(Space(w)))
  {
    w.WrittenLength();
    match op {
      case WriteBytes(data) =>
        r := w.Write(data);
      case SeekTo(target) =>
        r := w.Seek(target);
    }
    w.WrittenLength();
    IntendedNext(ops, Actual(op, r));
  }

  /** So far everything was carried out, and the rest will be if there is room for it. */
  ghost predicate OnTrack(w: Writer, ops: seq<Op>, i: nat, results: seq<nat>, total: int)
    reads w
    requires i == |results| <= |ops| && w.Valid()
  {
    && (Full(ops[..i], results) ==> Space(w) == total)
    && (|Intended(ops)| <= total ==> Full(ops[..i], results))
  }

  lemma {:induction false} FullNext(ops: seq<Op>, results: seq<nat>, op: Op, r: nat)
    requires |ops| == |results|
    ensures Full(ops + [op], results + [r]) <==> Full(ops, results) && r == Wanted(op)
  {
    var all, rs := ops + [op], results + [r];
    assert all[|ops|] == op && rs[|ops|] == r;
    assert forall i :: 0 <= i < |ops| ==> all[i] == ops[i] && rs[i] == results[i];
  }

  /** Moving on, a stream never has less than before. */
  lemma {:induction false} ForwardGrows(ops: seq<Op>, i: nat)
    requires Forward(ops) && i <= |ops|
    ensures |Intended(ops[..i])| <= |Intended(ops)|
    decreases |ops| - i
  {
    if i < |ops| {
      assert ops[..i + 1] == ops[..i] + [ops[i]];
      IntendedNext(ops[..i], ops[i]);
      ForwardGrows(ops, i + 1);
    } else {
      assert ops[..i] == ops;
    }
  }

  /** The next of the operations. */
  method PerformNext(w: Writer, ops: seq<Op>, i: nat, results: seq<nat>, ghost total: int) returns (r: nat)
    requires i == |results| < |ops| && Follows(w, Actuals(ops[..i], results))
    requires Forward(ops) ==> OnTrack(w, ops, i, results, total)
    modifies w
    ensures Follows(w, Actuals(ops[..i + 1], results + [r])) && w.Room() >= 0
    ensures Forward(ops) ==> OnTrack(w, ops, i + 1, results + [r], total)
  {
    assert ops[..i + 1] == ops[..i] + [ops[i]];
    if Forward(ops) && Full(ops[..i], results) {
      FullIsActual(ops[..i], results);
      IntendedNext(ops[..i], ops[i]);
      ForwardGrows(ops, i + 1);
    }
    r := Perform(w, ops[i], Actuals(ops[..i], results));
    ActualsNext(ops[..i], results, ops[i], r);
    FullNext(ops[..i], results, ops[i], r);
  }

  /** Any writes and seeks, one after the other. */
  method PerformAll(w: Writer, ops: seq<Op>) returns (results: seq<nat>)
    requires Follows(w, []) && w.Room() >= 0
    modifies w
    ensures |results| == |ops| && Follows(w, Actuals(ops, results))
    ensures Forward(ops) ==> (Full(ops, results) <==> |Intended(ops)| <= old(w.Room()))
  {
    results := [];
    ghost var total := w.Room();
    assert ops[..0] == [];
    for i := 0 to |ops|
      invariant |results| == i && Follows(w, Actuals(ops[..i], results)) && w.Room() >= 0
      invariant Forward(ops) ==> OnTrack(w, ops, i, results, total)
    {
      var r := PerformNext(w, ops, i, results, total);
      results := results + [r];
    }
    assert ops[..|ops|] == ops;
    if Full(ops, results) {
      FullIsActual(ops, results);
    }
  }

  // ----- reading ----------------------------------------------------------------------------------------

  /** Where a read stream is after the operations. */
  function Place(all: seq<Byte>, probes: seq<Probe>): (p: nat)
    ensures p <= |all|
  {
    if probes == [] then 0
    else
      var at := Place(all, probes[..|probes| - 1]);
      match probes[|probes| - 1]
      case Fetch(size) => Min(at + size, |all|)
      case Goto(target) => Min(target, |all|)
  }

  /** What one operation reads there. */
  function Piece(all: seq<Byte>, at: nat, probe: Probe): seq<Byte>
    requires at <= |all|
  {
    if probe.Goto? then [] else all[at..Min(at + probe.size, |all|)]
  }

  /** What the operations read, piece by piece. */
  function Pieces(all: seq<Byte>, probes: seq<Probe>): seq<seq<Byte>> {
    if probes == [] then []
    else
      var before := probes[..|probes| - 1];
      Pieces(all, before) + [Piece(all, Place(all, before), probes[|probes| - 1])]
  }

  /** Any reads and seeks, one after the other. */
  method ReadAll(r: Reader, probes: seq<Probe>) returns (pieces: seq<seq<Byte>>)
    requires r.Valid() && r.position == 0
    modifies r
    ensures pieces == Pieces(Concat(r.chunks), probes)
  {
    ghost var all := Concat(r.chunks);
    pieces := [];
    assert probes[..0] == [];
    for i := 0 to |probes|
      invariant r.Valid() && r.position == Place(all, probes[..i]) && pieces == Pieces(all, probes[..i])
    {
      assert probes[..i + 1][..i] == probes[..i];
      match probes[i] {
        case Fetch(size) =>
          var bytes := r.Read(size);
          pieces := pieces + [bytes];
        case Goto(target) =>
          var at := r.Seek(target);
          pieces := pieces + [[]];
      }
    }
    assert probes[..|probes|] == probes;
  }

  // ----- the round trip -------------------------------------------------------------------------------------

  /** Write in any way, hand the blocks over, and read them in any way.  The blocks hold exactly what was written
      if and only if the operations that were carried out are neat; then every read brings the bytes at its place.
      If nothing was cut short these are the operations that were asked for, and without a step back nothing is
      cut short exactly if the blocks suffice. */
  method RoundTrip(capacity: nat, available: nat, ops: seq<Op>, probes: seq<Probe>)
    returns (results: seq<nat>, list: seq<seq<Byte>>, pieces: seq<seq<Byte>>)
    requires capacity > 0
    ensures |results| == |ops|
    ensures Concat(list) == Intended(Actuals(ops, results)) <==> Neat(Actuals(ops, results))
    ensures Neat(Actuals(ops, results)) ==> pieces == Pieces(Intended(Actuals(ops, results)), probes)
    ensures Full(ops, results) ==> (Concat(list) == Intended(ops) <==> Neat(ops))
    ensures Forward(ops) ==> (Full(ops, results) <==> |Intended(ops)| <= available * capacity)
    ensures Forward(ops) && |Intended(ops)| <= available * capacity ==> pieces == Pieces(Intended(ops), probes)
  {
    SupplyIs(available, capacity);
    var w := new Writer(capacity, available);
    results := PerformAll(w, ops);
    list := w.Attach();
    var r := new Reader(list);
    pieces := ReadAll(r, probes);
    if Full(ops, results) {
      FullIsActual(ops, results);
      if Forward(ops) {
        ForwardNeat(ops);
      }
    }
  }

  /** One read of everything gives everything. */
  lemma {:induction false} ReadWhole(all: seq<Byte>)
    ensures Pieces(all, [Fetch(|all|)]) == [all]
  {
    var probes := [Fetch(|all|)];
    assert probes[..0] == [] && Pieces(all, []) == [] && Place(all, []) == 0;
    assert all[0..|all|] == all;
  }

  /** Writing in any number of parts is writing the whole. */
  lemma {:induction false} WritesJoin(parts: seq<seq<Byte>>, ops: seq<Op>)
    requires |ops| == |parts| && forall i :: 0 <= i < |ops| ==> ops[i] == WriteBytes(parts[i])
    ensures Intended(ops) == Concat(parts) && Forward(ops)
  {
    if ops != [] {
      WritesJoin(parts[..|parts| - 1], ops[..|ops| - 1]);
    }
  }

  /** Two bytes, a step back, and the blocks are handed over: they still hold both bytes. */
  method StepBackStays() returns (list: seq<seq<Byte>>, ghost written: seq<Byte>)
    ensures written == [1] && written < Concat(list) && Concat(list) != written
  {
    var w := new Writer(4, 1);
    assert Supply(0, 4) == 0 && Supply(1, 4) == 4;
    var n := w.Write([1, 2]);
    assert w.Written() == [1, 2];
    var at := w.Seek(1);
    written := w.Written();
    assert written == [1];
    list := w.Attach();
  }
}
