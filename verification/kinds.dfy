/**
 Which vtables there are: an object needs the vtable of its kind, the distances of
 its fields from its start, and the builder writes one vtable for each kind.
 */
module VtableKinds {
  import opened Wire
  import opened FlatBuffer
  import opened FlatBuilder

  /** The vtable says of every field that it is where the objects of this kind have it. */
  ghost predicate KindHolds(buf: Bytes, vt: nat, kind: seq<nat>) {
    && 4 <= vt <= |buf| && Number(buf, |buf| - vt, 2) == Ok(2 * |kind| + 4)
    && forall i :: 0 <= i < |kind| ==> Entry(buf, vt, i) == kind[i]
  }

  ghost predicate KindKnown(buf: Bytes, vts: seq<nat>, kind: seq<nat>) {
    exists k :: 0 <= k < |vts| && KindHolds(buf, vts[k], kind)
  }

  /** The kind of an object at `n` with these slots. */
  predicate IsKind(kind: seq<nat>, slots: seq<nat>, n: nat) {
    |kind| == |slots| && forall i :: 0 <= i < |slots| ==> SlotEntry(n, slots[i]) == kind[i]
  }

  lemma KnownIsKindKnown(buf: Bytes, vts: seq<nat>, slots: seq<nat>, n: nat, kind: seq<nat>)
    requires IsKind(kind, slots, n)
    ensures Known(buf, vts, slots, n) <==> KindKnown(buf, vts, kind)
    ensures forall vt: nat :: 4 <= vt <= |buf| && VtableHolds(buf, vt, slots, n) ==> KindHolds(buf, vt, kind)
  {
    hide Entry, Number, SlotEntry;
    forall k | 0 <= k < |vts| && 4 <= vts[k] <= |buf|
      ensures VtableHolds(buf, vts[k], slots, n) <==> KindHolds(buf, vts[k], kind)
    {
      HoldsIsKindHolds(buf, vts[k], slots, n, kind);
    }
    forall vt: nat | 4 <= vt <= |buf| && VtableHolds(buf, vt, slots, n) ensures KindHolds(buf, vt, kind) {
      HoldsIsKindHolds(buf, vt, slots, n, kind);
    }
  }

  lemma HoldsIsKindHolds(buf: Bytes, vt: nat, slots: seq<nat>, n: nat, kind: seq<nat>)
    requires IsKind(kind, slots, n) && 4 <= vt <= |buf|
    ensures VtableHolds(buf, vt, slots, n) <==> KindHolds(buf, vt, kind)
  {
    hide Entry, Number, SlotEntry;
  }

  lemma KindLength(buf: Bytes, vt: nat, kind: seq<nat>)
    requires KindHolds(buf, vt, kind)
    ensures VtableLength(buf, vt) == 2 * |kind| + 4
  {
  }

  lemma KindHoldsMoves(buf: Bytes, tail: Bytes, vt: nat, kind: seq<nat>)
    requires Tail(buf, tail) && VtableOk(tail, vt)
    ensures KindHolds(buf, vt, kind) <==> KindHolds(tail, vt, kind)
  {
    NumberMoves(buf, tail, |tail| - vt, 2);
    if Number(tail, |tail| - vt, 2) == Ok(2 * |kind| + 4) {
      forall i | 0 <= i < |kind| ensures Entry(buf, vt, i) == Entry(tail, vt, i) {
        EntryMoves(buf, tail, vt, i);
      }
    }
  }

  lemma KindKnownMoves(buf: Bytes, tail: Bytes, vts: seq<nat>, kind: seq<nat>)
    requires Tail(buf, tail) && VtablesOk(tail, vts)
    ensures KindKnown(buf, vts, kind) <==> KindKnown(tail, vts, kind)
  {
    hide KindHolds, VtableOk;
    forall k | 0 <= k < |vts| ensures KindHolds(buf, vts[k], kind) <==> KindHolds(tail, vts[k], kind) {
      VtablesMember(tail, vts, vts[k]);
      KindHoldsMoves(buf, tail, vts[k], kind);
    }
  }

  /** After an object of a kind is closed its kind is known, and no other that was not. */
  lemma KindsAfter(buf: Bytes, tail: Bytes, vts: seq<nat>, vts': seq<nat>, vt: nat, kind: seq<nat>, other: seq<nat>)
    requires Tail(buf, tail) && VtablesOk(tail, vts) && |kind| == |other| && KindHolds(buf, vt, kind)
    requires if vt in vts then vts' == vts else vts' == vts + [vt]
    ensures KindKnown(buf, vts', other) <==> KindKnown(tail, vts, other) || other == kind
  {
    KindKnownMoves(buf, tail, vts, other);
    if KindHolds(buf, vt, other) {
      assert forall i :: 0 <= i < |kind| ==> kind[i] == Entry(buf, vt, i) == other[i];
      assert kind == other;
    }
    hide KindHolds;
    if KindKnown(buf, vts', other) && !KindKnown(buf, vts, other) {
      var k :| 0 <= k < |vts'| && KindHolds(buf, vts'[k], other);
      assert k == |vts|;
    }
    if KindKnown(buf, vts, other) {
      var k :| 0 <= k < |vts| && KindHolds(buf, vts[k], other);
      assert vts'[k] == vts[k];
    }
    if other == kind {
      if vt in vts {
        var k :| 0 <= k < |vts| && vts[k] == vt;
      } else {
        assert vts'[|vts|] == vt;
      }
    }
  }

  // --------------------------------------------------------- three fields

  /**
   The slots of a table of three fields that is begun at `base`, aligned, with the
   second field or without it, its fields added in the order of their slots or
   the other way round.
   */
  function ThreeSlots(base: nat, second: bool, backwards: bool): (slots: seq<nat>)
    ensures |slots| == 3
  {
    var last := if second then base + 12 else base + 8;
    [if backwards then last else base + 4, if second then base + 8 else 0, if backwards then base + 4 else last]
  }

  function ThreeKind(second: bool, backwards: bool): (kind: seq<nat>)
    ensures |kind| == 3
  {
    var far := if second then 12 else 8;
    [if backwards then 4 else far, if second then 8 else 0, if backwards then far else 4]
  }

  function ThreeSize(second: bool): nat {
    if second then 16 else 12
  }

  lemma ThreeSlotsKind(base: nat, second: bool, backwards: bool)
    ensures Trimmed(ThreeSlots(base, second, backwards)) == ThreeSlots(base, second, backwards)
    ensures IsKind(ThreeKind(second, backwards), ThreeSlots(base, second, backwards), base + ThreeSize(second))
  {
  }

  lemma ThreeKindsDiffer(second: bool, second': bool, backwards: bool)
    ensures ThreeKind(second, backwards) == ThreeKind(second', backwards) <==> second == second'
  {
    assert ThreeKind(second, backwards)[1] == if second then 8 else 0;
    assert ThreeKind(second', backwards)[1] == if second' then 8 else 0;
  }

  // ------------------------------------------------------- the object sizes

  /** Each vtable of such a kind has the object size of that kind in it. */
  ghost predicate SizesTold(buf: Bytes, vts: seq<nat>, backwards: bool) {
    forall k, second: bool :: 0 <= k < |vts| && KindHolds(buf, vts[k], ThreeKind(second, backwards)) ==>
      SizeTold(buf, vts[k], ThreeSize(second))
  }

  lemma SizesToldMove(buf: Bytes, tail: Bytes, vts: seq<nat>, backwards: bool)
    requires Tail(buf, tail) && VtablesOk(tail, vts) && SizesTold(tail, vts, backwards)
    ensures SizesTold(buf, vts, backwards)
  {
    hide VtableOk, KindHolds, SizeTold, Tail, ThreeKind;
    VtablesBelow(tail, vts);
    forall k, second: bool | 0 <= k < |vts| && KindHolds(buf, vts[k], ThreeKind(second, backwards))
      ensures 4 <= vts[k] <= |buf| && SizeTold(buf, vts[k], ThreeSize(second))
    {
      VtablesMember(tail, vts, vts[k]);
      KindHoldsMoves(buf, tail, vts[k], ThreeKind(second, backwards));
      SizeToldMoves(buf, tail, vts[k], ThreeSize(second));
      TailLonger(buf, tail);
    }
  }

  /** An object more, with a new vtable or an old one. */
  lemma SizesToldAfter(buf: Bytes, tail: Bytes, vts: seq<nat>, vts': seq<nat>, vt: nat, second: bool, backwards: bool)
    requires Tail(buf, tail) && VtablesOk(tail, vts) && SizesTold(tail, vts, backwards)
    requires if vt in vts then vts' == vts else vts' == vts + [vt]
    requires 4 <= vt <= |buf| && KindHolds(buf, vt, ThreeKind(second, backwards))
    requires vt !in vts ==> SizeTold(buf, vt, ThreeSize(second))
    ensures SizesTold(buf, vts', backwards)
  {
    hide VtablesOk, SizeTold, Tail, ThreeSize;
    SizesToldMove(buf, tail, vts, backwards);
    forall k, other: bool | 0 <= k < |vts'| && KindHolds(buf, vts'[k], ThreeKind(other, backwards))
      ensures SizeTold(buf, vts'[k], ThreeSize(other))
    {
      if k == |vts| {
        SameKind(buf, vt, ThreeKind(second, backwards), ThreeKind(other, backwards));
        ThreeKindsDiffer(second, other, backwards);
      }
    }
  }

  lemma SameKind(buf: Bytes, vt: nat, kind: seq<nat>, other: seq<nat>)
    requires KindHolds(buf, vt, kind) && KindHolds(buf, vt, other)
    ensures kind == other
  {
    assert forall i :: 0 <= i < |kind| ==> kind[i] == Entry(buf, vt, i) == other[i];
  }

  /** With objects of such kinds only it makes no difference whether vtables are compared whole. */
  lemma SharesEither(whole: bool, buf: Bytes, vts: seq<nat>, base: nat, second: bool, backwards: bool)
    requires SizesTold(buf, vts, backwards)
    ensures var slots, n := ThreeSlots(base, second, backwards), base + ThreeSize(second);
            Shares(whole, buf, vts, slots, n, ThreeSize(second)) <==> Known(buf, vts, slots, n)
  {
    hide SizeTold, VtableHolds, KindHolds, ThreeSlots, ThreeKind, ThreeSize;
    var slots, n := ThreeSlots(base, second, backwards), base + ThreeSize(second);
    ThreeSlotsKind(base, second, backwards);
    forall k | 0 <= k < |vts| && 4 <= vts[k] <= |buf| && VtableHolds(buf, vts[k], slots, n)
      ensures SizeTold(buf, vts[k], ThreeSize(second))
    {
      HoldsIsKindHolds(buf, vts[k], slots, n, ThreeKind(second, backwards));
    }
  }
}
