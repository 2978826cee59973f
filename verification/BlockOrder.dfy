/** In which order the blocks of a bundle come to the store, and which bundles in custody that puts at risk. */
module BlockOrder {
  import opened Offload
  import opened Unsigned
  import C = CacheModel
  import Inv = CacheInv
  import Loss = CacheLoss

  /** The number of a block that has been allocated and not filled in yet. */
  const BLANK_NUM: nat := 0

  /** The decoder puts every block into the list before it decodes it, so that none has a number yet. */
  method DecodeBlocks(wire: seq<Canonical>) returns (list: seq<Canonical>)
    ensures list == Backwards(wire)
  {
    list := [];
    assert wire[..0] == [];
    for i := 0 to |wire|
      invariant list == Backwards(wire[..i])
    {
      list := Inserted(BLANK_NUM, list, wire[i]);
      BackwardsNext(wire[..i], wire[i]);
      assert wire[..i + 1] == wire[..i] + [wire[i]];
    }
    assert wire[..|wire|] == wire;
  }

  lemma {:induction false} BackwardsNext(cs: seq<Canonical>, c: Canonical)
    ensures Backwards(cs + [c]) == [c] + Backwards(cs)
  {
    if cs == [] {
      assert cs + [c] == [c] && [c][1..] == [];
      assert Backwards([c]) == Backwards([]) + [c];
    } else {
      assert (cs + [c])[1..] == cs[1..] + [c];
      BackwardsNext(cs[1..], c);
    }
  }

  /** A received bundle, whose payload came last, has it last in memory only if it is the only block. */
  lemma {:induction false} ReceivedOrder(exts: seq<Canonical>, payload: Canonical)
    requires payload.Payload?
    ensures PayloadLast(Backwards(exts + [payload])) <==> exts == []
  {
    BackwardsNext(exts, payload);
    var list := Backwards(exts + [payload]);
    BackwardsSize(exts);
    assert list[0] == payload;
  }

  lemma {:induction false} BackwardsSize(cs: seq<Canonical>)
    ensures |Backwards(cs)| == |cs|
  {
    if cs != [] {
      BackwardsSize(cs[1..]);
    }
  }

  /** A locally generated bundle: the payload has its number when it is put into the list. */
  function Generated(payload: Canonical): seq<Canonical> { Inserted(PAYLOAD_NUM, [], payload) }

  /** The cache adds a block with its own address, which gets its number afterwards, unless the bundle has
      arrived or the pool has no block left. */
  function Tracked(list: seq<Canonical>, block: C.Option<Canonical>): seq<Canonical> {
    if block.None? then list else Inserted(BLANK_NUM, list, block.value)
  }

  lemma {:induction false} TrackedOrder(list: seq<Canonical>, block: C.Option<Canonical>)
    requires block.Some? ==> block.value.Extension?
    ensures PayloadLast(Tracked(list, block)) <==> PayloadLast(list)
  {
    if block.Some? {
      PayloadLastNext(Tracked(list, block));
    }
  }

  // ----- what the store decides ---------------------------------------------------------------------

  /** `b` is the bundle with this primary block and these blocks, as the store writes them. */
  ghost predicate Writes(l: Layout, b: C.Bundle, written: Bundle) {
    && LayoutOk(l) && BundleOk(l, written) && |Body(written)| < COUNT_LIMIT
    && b.payloadLast == PayloadLast(written.blocks)
  }

  /** A written bundle in custody is never lost exactly if its file brings it back in a block that is in use. */
  lemma {:induction false} StoreDecides(l: Layout, check: Checker, s: C.State, b: C.Bundle, written: Bundle)
    requires Inv.Inv(s) && Loss.Fresh(s, b) && s.now < b.expireTime && Writes(l, b, written)
    ensures Loss.NeverLost(s, b, C.Saved) <==> Restore(l, check, Saved(check, written)).Restored?
  {
    RoundTrip(l, check, written);
    Loss.LossCondition(s, b, C.Saved);
  }

  /** A received bundle with any extension block, such as that of the custodian who asks for an
      acknowledgement, can be lost although the store wrote all of it. */
  lemma {:induction false} ReceivedLost(l: Layout, check: Checker, s: C.State, b: C.Bundle, primary: seq<Byte>,
                                        exts: seq<Canonical>, payload: Canonical, block: C.Option<Canonical>)
    requires Inv.Inv(s) && Loss.Fresh(s, b) && s.now < b.expireTime
    requires payload.Payload? && exts != [] && (block.Some? ==> block.value.Extension?)
    requires Writes(l, b, Bundle(primary, Tracked(Backwards(exts + [payload]), block)))
    ensures !Loss.NeverLost(s, b, C.Saved)
    ensures Restore(l, check, Saved(check, Bundle(primary, Tracked(Backwards(exts + [payload]), block)))).Recycled?
  {
    ReceivedOrder(exts, payload);
    TrackedOrder(Backwards(exts + [payload]), block);
    var written := Bundle(primary, Tracked(Backwards(exts + [payload]), block));
    RoundTrip(l, check, written);
    StoreDecides(l, check, s, b, written);
  }

  /** A bundle generated here is never lost once it is written. */
  lemma {:induction false} GeneratedKept(l: Layout, check: Checker, s: C.State, b: C.Bundle, primary: seq<Byte>,
                                         payload: Canonical, block: C.Option<Canonical>)
    requires Inv.Inv(s) && Loss.Fresh(s, b) && (block.Some? ==> block.value.Extension?)
    requires Writes(l, b, Bundle(primary, Tracked(Generated(payload), block)))
    ensures Loss.NeverLost(s, b, C.Saved)
    ensures Restore(l, check, Saved(check, Bundle(primary, Tracked(Generated(payload), block)))).Restored?
  {
    TrackedOrder(Generated(payload), block);
    RoundTrip(l, check, Bundle(primary, Tracked(Generated(payload), block)));
    Loss.LossCondition(s, b, C.Saved);
  }
}
