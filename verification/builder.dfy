/**
 The FlatBuffers builder: fills a buffer from its end towards its start, so that
 an object is known by its distance from the end.  Growing the buffer and
 writing in front of it never touch what was written before.
 */
module FlatBuilder {
  import opened Wire
  import opened FlatBuffer

  /** Growing is refused from this size on. */
  const LIMIT: int := 0x4000_0000

  /** How many zeros align the end of `extra` more bytes to `size`. */
  function Padding(offset: nat, size: nat, extra: nat): (n: nat)
    requires size == 1 || size == 2 || size == 4
    ensures n < size <= 4 && n <= 3
  {
    if size == 1 then 0 else if size == 2 then (-(offset + extra)) % 2 else (-(offset + extra)) % 4
  }

  predicate Even(n: nat) { n % 2 == 0 }

  predicate Aligned(n: nat) { n % 4 == 0 }

  lemma WordsAligned(count: nat)
    ensures Aligned(4 * count)
  {
  }

  lemma WordsMore(offset: nat, count: nat)
    requires Aligned(offset)
    ensures Aligned(offset + 4 * count)
  {
    assert offset == 4 * (offset / 4);
    WordsAligned(offset / 4 + count);
  }

  lemma PaddingAligns(offset: nat, extra: nat)
    ensures Aligned(offset + Padding(offset, 4, extra) + extra)
    ensures Aligned(extra) ==> Aligned(offset + Padding(offset, 4, extra))
    ensures Aligned(extra) ==> Padding(offset, 4, extra) == Padding(offset, 4, 0)
    ensures Aligned(offset + Padding(offset, 4, 0) + 4)
  {
  }

  lemma NoPadding(offset: nat, extra: nat)
    ensures Even(offset) ==> Padding(offset, 2, 0) == 0 && Even(offset + 2)
    ensures Aligned(offset) && (Aligned(extra) || extra == 0) ==> Padding(offset, 4, extra) == 0
    ensures Aligned(offset) ==> Even(offset) && Aligned(offset + 4)
  {
  }

  /** The offsets after a string, a vector of words and the finished buffer that follow at `offset`. */
  function StringEnd(offset: nat, length: nat): (end: nat)
    ensures offset + length + 5 <= end <= offset + length + 8
  {
    offset + Padding(offset, 4, length + 1) + length + 5
  }

  function VectorEnd(offset: nat, count: nat): (end: nat)
    ensures offset + 4 * count + 4 <= end <= offset + 4 * count + 7
  {
    offset + Padding(offset, 4, 4 * count) + 4 * count + 4
  }

  function FinishEnd(offset: nat): (end: nat)
    ensures offset + 4 <= end <= offset + 7
  {
    offset + Padding(offset, 4, 4) + 4
  }

  function Zeros(n: nat): (bs: Bytes)
    ensures |bs| == n
  {
    seq(n, _ => 0)
  }

  /** What the vtable of an object at `n` says of a field at `at`, or of an absent one. */
  function SlotEntry(n: nat, at: nat): (entry: nat)
    ensures entry <= n
  {
    if at == 0 || at > n then 0 else n - at
  }

  function EntryBytes(slots: seq<nat>, n: nat): (bs: Bytes)
    ensures |bs| == 2 * |slots|
  {
    if |slots| == 0 then [] else EncodeFixed(SlotEntry(n, slots[0]), 2) + EntryBytes(slots[1..], n)
  }

  function VtableBytes(slots: seq<nat>, n: nat, size: nat): (bs: Bytes)
    ensures |bs| == 2 * |slots| + 4
  {
    EncodeFixed(2 * |slots| + 4, 2) + (EncodeFixed(size, 2) + EntryBytes(slots, n))
  }

  /** The vtable `vt` bytes from the end lies in the buffer, and its entries are smaller than `vt`. */
  ghost predicate VtableOk(buf: Bytes, vt: nat) {
    && Even(vt) && 4 <= vt <= |buf|
    && (var length := Number(buf, |buf| - vt, 2).value;
        && Even(length) && 4 <= length <= vt
        && forall i: nat :: 4 + 2 * i < length ==> Entry(buf, vt, i) < vt)
  }

  function Entry(buf: Bytes, vt: nat, i: nat): nat
    requires vt <= |buf|
  {
    var x := Number(buf, |buf| - vt + 4 + 2 * i, 2);
    if x.Ok? then x.value else 0
  }

  function VtableLength(buf: Bytes, vt: nat): nat
    requires vt <= |buf|
  {
    var length := Number(buf, |buf| - vt, 2);
    if length.Ok? then length.value else 0
  }

  /** That vtable is the one an object at `n` with these slots needs. */
  ghost predicate VtableHolds(buf: Bytes, vt: nat, slots: seq<nat>, n: nat)
    requires 4 <= vt <= |buf|
  {
    && Number(buf, |buf| - vt, 2) == Ok(2 * |slots| + 4)
    && forall i :: 0 <= i < |slots| ==> Entry(buf, vt, i) == SlotEntry(n, slots[i])
  }

  /** Some vtable written so far is the one an object at `n` with these slots needs. */
  ghost predicate Known(buf: Bytes, vts: seq<nat>, slots: seq<nat>, n: nat) {
    exists k :: 0 <= k < |vts| && 4 <= vts[k] <= |buf| && VtableHolds(buf, vts[k], slots, n)
  }

  /** The vtable has this object size in it, next to its length. */
  predicate SizeTold(buf: Bytes, vt: nat, size: nat)
    requires 4 <= vt <= |buf|
  {
    Number(buf, |buf| - vt + 2, 2) == Ok(size)
  }

  /** Some vtable written so far is, object size included, the one such an object of that size needs. */
  ghost predicate WholeKnown(buf: Bytes, vts: seq<nat>, slots: seq<nat>, n: nat, size: nat) {
    exists k :: 0 <= k < |vts| && 4 <= vts[k] <= |buf| && VtableHolds(buf, vts[k], slots, n) && SizeTold(buf, vts[k], size)
  }

  ghost predicate Shares(whole: bool, buf: Bytes, vts: seq<nat>, slots: seq<nat>, n: nat, size: nat) {
    if whole then WholeKnown(buf, vts, slots, n, size) else Known(buf, vts, slots, n)
  }

  lemma SharesMoves(whole: bool, buf: Bytes, tail: Bytes, vts: seq<nat>, slots: seq<nat>, n: nat, size: nat)
    requires Tail(buf, tail) && VtablesOk(tail, vts)
    ensures Shares(whole, buf, vts, slots, n, size) <==> Shares(whole, tail, vts, slots, n, size)
  {
    hide Tail, VtablesOk, WholeKnown, Known;
    WholeKnownMoves(buf, tail, vts, slots, n, size);
    KnownMoves(buf, tail, vts, slots, n);
  }

  /** The slots without the absent ones at the end. */
  function Trimmed(slots: seq<nat>): seq<nat> {
    if |slots| == 0 || slots[|slots| - 1] != 0 then slots else Trimmed(slots[..|slots| - 1])
  }

  ghost predicate VtablesOk(buf: Bytes, vts: seq<nat>) {
    forall k :: 0 <= k < |vts| ==> VtableOk(buf, vts[k])
  }

  lemma EntryMoves(buf: Bytes, tail: Bytes, vt: nat, i: nat)
    requires Tail(buf, tail) && 4 + 2 * i + 2 <= vt <= |tail|
    ensures Entry(buf, vt, i) == Entry(tail, vt, i)
  {
    NumberMoves(buf, tail, |tail| - vt + 4 + 2 * i, 2);
  }

  lemma VtableOkMoves(buf: Bytes, tail: Bytes, vt: nat)
    requires Tail(buf, tail) && VtableOk(tail, vt)
    ensures VtableOk(buf, vt)
  {
    NumberMoves(buf, tail, |tail| - vt, 2);
    forall i: nat | 4 + 2 * i < Number(tail, |tail| - vt, 2).value
      ensures Entry(buf, vt, i) < vt
    {
      EntryMoves(buf, tail, vt, i);
    }
  }

  lemma VtablesOkMove(buf: Bytes, tail: Bytes, vts: seq<nat>)
    requires Tail(buf, tail) && VtablesOk(tail, vts)
    ensures VtablesOk(buf, vts)
  {
    forall k | 0 <= k < |vts| ensures VtableOk(buf, vts[k]) {
      VtableOkMoves(buf, tail, vts[k]);
    }
  }

  /** The object at `n` points to the vtable at `vt`, which says where each of its fields is. */
  ghost predicate TableHolds(buf: Bytes, n: nat, vt: nat, slots: seq<nat>) {
    && Aligned(n) && 4 <= n <= |buf| <= TWO_TO_31 && VtableOk(buf, vt)
    && Number(buf, |buf| - n, 4) == Ok(Wrap32(vt - n))
    && forall i :: 0 <= i < |slots| ==> VtableEntry(buf, |buf| - vt, 4 + 2 * i) == Ok(SlotEntry(n, slots[i]))
  }

  lemma TableHoldsMoves(buf: Bytes, tail: Bytes, n: nat, vt: nat, slots: seq<nat>)
    requires Tail(buf, tail) && TableHolds(tail, n, vt, slots)
    ensures TableHolds(buf, n, vt, slots)
  {
    hide DecodeFixed, VtableOk, Number, VtableEntry, Tail, SlotEntry, Aligned, Wrap32;
    TailLonger(buf, tail);
    VtableInside(tail, vt);
    VtableOkMoves(buf, tail, vt);
    NumberMoves(buf, tail, |tail| - n, 4);
    forall i | 0 <= i < |slots|
      ensures VtableEntry(buf, |buf| - vt, 4 + 2 * i) == Ok(SlotEntry(n, slots[i]))
    {
      assert VtableEntry(tail, |tail| - vt, 4 + 2 * i) == Ok(SlotEntry(n, slots[i]));
      VtableEntryMoves(buf, tail, |tail| - vt, 4 + 2 * i);
    }
  }

  /** The accessors find every field of such an object, and no absent one. */
  lemma TableFields(buf: Bytes, n: nat, vt: nat, slots: seq<nat>, i: nat)
    requires TableHolds(buf, n, vt, slots) && i < |slots|
    ensures FieldOffset(buf, |buf| - n, 4 + 2 * i) == Ok(SlotEntry(n, slots[i]))
  {
    hide VtableOk, Aligned, Wrap32, SlotEntry, VtableEntry;
    VtableInside(buf, vt);
    WrapBack(|buf|, n, vt);
  }

  lemma VtableInside(buf: Bytes, vt: nat)
    requires VtableOk(buf, vt)
    ensures 4 <= vt <= |buf|
  {
  }

  lemma WrapBack(length: nat, n: nat, vt: nat)
    requires n <= length <= TWO_TO_31 && vt <= length
    ensures Wrap32(length - n - Wrap32(vt - n)) == length - vt
  {
  }

  /** A vtable that fits the trimmed slots fits the slots: what was trimmed reads as absent. */
  lemma TrimmedTable(buf: Bytes, n: nat, vt: nat, trimmed: seq<nat>, slots: seq<nat>)
    requires Aligned(n) && 4 <= n <= |buf| <= TWO_TO_31 && VtableOk(buf, vt) && VtableHolds(buf, vt, trimmed, n)
    requires Number(buf, |buf| - n, 4) == Ok(Wrap32(vt - n))
    requires |trimmed| <= |slots| && slots[..|trimmed|] == trimmed
    requires forall i :: |trimmed| <= i < |slots| ==> slots[i] == 0
    ensures TableHolds(buf, n, vt, slots)
  {
    forall i | 0 <= i < |slots|
      ensures VtableEntry(buf, |buf| - vt, 4 + 2 * i) == Ok(SlotEntry(n, slots[i]))
    {
      if i < |trimmed| {
        assert Entry(buf, vt, i) == SlotEntry(n, trimmed[i]) && trimmed[i] == slots[i];
        assert Wrap32(|buf| - vt + 4 + 2 * i) == |buf| - vt + 4 + 2 * i;
      }
    }
  }

  lemma NumberOfEncode(pre: Bytes, v: nat, width: nat, post: Bytes)
    requires v < Pow256(width)
    ensures Number(pre + (EncodeFixed(v, width) + post), |pre|, width) == Ok(v)
  {
    var buf := pre + (EncodeFixed(v, width) + post);
    assert buf[|pre|..|pre| + width] == EncodeFixed(v, width);
    DecodeFixedOfEncode(v, width);
  }

  lemma {:induction false} EntryBytesAt(pre: Bytes, slots: seq<nat>, n: nat, post: Bytes, i: nat)
    requires i < |slots| && SlotEntry(n, slots[i]) < 0x1_0000
    ensures Number(pre + (EntryBytes(slots, n) + post), |pre| + 2 * i, 2) == Ok(SlotEntry(n, slots[i]))
    decreases i
  {
    Pow256Values();
    var first := EncodeFixed(SlotEntry(n, slots[0]), 2);
    var rest := EntryBytes(slots[1..], n);
    assert pre + (EntryBytes(slots, n) + post) == pre + (first + (rest + post));
    if i == 0 {
      NumberOfEncode(pre, SlotEntry(n, slots[0]), 2, rest + post);
    } else {
      assert pre + (first + (rest + post)) == (pre + first) + (rest + post);
      EntryBytesAt(pre + first, slots[1..], n, post, i - 1);
    }
  }

  lemma NewVtableHolds(slots: seq<nat>, n: nat, size: nat, rest: Bytes)
    requires 2 * |slots| + 4 < 0x1_0000
    requires n <= |rest| && Even(|rest|)
    requires forall i :: 0 <= i < |slots| ==> SlotEntry(n, slots[i]) < 0x1_0000
    ensures var buf := VtableBytes(slots, n, size) + rest;
            VtableHolds(buf, |buf|, slots, n) && VtableOk(buf, |buf|) && (size < 0x1_0000 ==> SizeTold(buf, |buf|, size))
  {
    hide VtableBytes, EncodeFixed, EntryBytes, DecodeFixed, SlotEntry, Number;
    var length, middle, entries := EncodeFixed(2 * |slots| + 4, 2), EncodeFixed(size, 2), EntryBytes(slots, n);
    var buf := VtableBytes(slots, n, size) + rest;
    Pow256Values();
    VtableParts(slots, n, size, rest);
    NumberOfEncode([], 2 * |slots| + 4, 2, middle + (entries + rest));
    if size < 0x1_0000 { NumberOfEncode(length, size, 2, entries + rest); }
    forall i | 0 <= i < |slots|
      ensures Entry(buf, |buf|, i) == SlotEntry(n, slots[i])
    {
      EntryBytesAt(length + middle, slots, n, rest, i);
    }
  }

  lemma VtableParts(slots: seq<nat>, n: nat, size: nat, rest: Bytes)
    ensures var length, middle, entries := EncodeFixed(2 * |slots| + 4, 2), EncodeFixed(size, 2), EntryBytes(slots, n);
      && VtableBytes(slots, n, size) + rest == [] + (length + (middle + (entries + rest)))
      && VtableBytes(slots, n, size) + rest == length + (middle + (entries + rest)) == (length + middle) + (entries + rest)
      && |VtableBytes(slots, n, size) + rest| == 2 * |slots| + 4 + |rest| && |length| == |middle| == 2
  {
    hide EncodeFixed, EntryBytes;
    var length, middle, entries := EncodeFixed(2 * |slots| + 4, 2), EncodeFixed(size, 2), EntryBytes(slots, n);
    Assoc(length, middle + entries, rest);
    Assoc(middle, entries, rest);
    Assoc(length, middle, entries + rest);
    assert [] + (length + (middle + (entries + rest))) == length + (middle + (entries + rest));
  }

  lemma VtableLengthOf(buf: Bytes, slots: seq<nat>, n: nat)
    requires 4 <= |buf|
    ensures VtableHolds(buf, |buf|, slots, n) ==> VtableLength(buf, |buf|) == 2 * |slots| + 4
  {
  }

  /** An object in front of whatever, with a vtable of its own in front of it. */
  lemma NewTable(trimmed: seq<nat>, slots: seq<nat>, n: nat, size: nat, soffset: nat, rest: Bytes)
    requires 2 * |slots| + 4 < 0x1_0000 && n == 4 + |rest| && Aligned(n) && n + 2 * |slots| + 4 <= TWO_TO_31
    requires forall i :: 0 <= i < |slots| ==> SlotEntry(n, slots[i]) < 0x1_0000
    requires |trimmed| <= |slots| && slots[..|trimmed|] == trimmed
    requires forall i :: |trimmed| <= i < |slots| ==> slots[i] == 0
    requires soffset == 2 * |trimmed| + 4
    ensures var buf := VtableBytes(trimmed, n, size) + (EncodeFixed(soffset, 4) + rest);
            |buf| == n + soffset && TableHolds(buf, n, |buf|, slots) && VtableLength(buf, |buf|) == soffset
            && VtableHolds(buf, |buf|, trimmed, n) && (size < 0x1_0000 ==> SizeTold(buf, |buf|, size))
  {
    hide VtableBytes, VtableOk, VtableHolds, TableHolds, SlotEntry, EncodeFixed, Number;
    Pow256Values();
    forall i | 0 <= i < |trimmed| ensures SlotEntry(n, trimmed[i]) < 0x1_0000 {
      assert slots[i] == trimmed[i];
    }
    VtableLengthOf(VtableBytes(trimmed, n, size) + (EncodeFixed(soffset, 4) + rest), trimmed, n);
    NewVtableHolds(trimmed, n, size, EncodeFixed(soffset, 4) + rest);
    NumberOfEncode(VtableBytes(trimmed, n, size), soffset, 4, rest);
    var buf := VtableBytes(trimmed, n, size) + (EncodeFixed(soffset, 4) + rest);
    TrimmedTable(buf, n, |buf|, trimmed, slots);
  }

  lemma VtableHoldsMoves(buf: Bytes, tail: Bytes, vt: nat, slots: seq<nat>, n: nat)
    requires Tail(buf, tail) && VtableOk(tail, vt)
    ensures VtableHolds(buf, vt, slots, n) <==> VtableHolds(tail, vt, slots, n)
  {
    NumberMoves(buf, tail, |tail| - vt, 2);
    if Number(tail, |tail| - vt, 2) == Ok(2 * |slots| + 4) {
      forall i | 0 <= i < |slots| ensures Entry(buf, vt, i) == Entry(tail, vt, i) {
        EntryMoves(buf, tail, vt, i);
      }
    }
  }

  lemma SizeToldMoves(buf: Bytes, tail: Bytes, vt: nat, size: nat)
    requires Tail(buf, tail) && 4 <= vt <= |tail|
    ensures SizeTold(buf, vt, size) <==> SizeTold(tail, vt, size)
  {
    NumberMoves(buf, tail, |tail| - vt + 2, 2);
  }

  lemma WholeKnownMoves(buf: Bytes, tail: Bytes, vts: seq<nat>, slots: seq<nat>, n: nat, size: nat)
    requires Tail(buf, tail) && VtablesOk(tail, vts)
    ensures WholeKnown(buf, vts, slots, n, size) <==> WholeKnown(tail, vts, slots, n, size)
  {
    hide VtableOk, VtableHolds, SizeTold;
    VtablesBelow(tail, vts);
    forall k | 0 <= k < |vts|
      ensures VtableHolds(buf, vts[k], slots, n) <==> VtableHolds(tail, vts[k], slots, n)
      ensures forall size :: SizeTold(buf, vts[k], size) <==> SizeTold(tail, vts[k], size)
    {
      VtablesMember(tail, vts, vts[k]);
      VtableHoldsMoves(buf, tail, vts[k], slots, n);
      forall size ensures SizeTold(buf, vts[k], size) <==> SizeTold(tail, vts[k], size) {
        SizeToldMoves(buf, tail, vts[k], size);
      }
    }
  }

  lemma KnownMoves(buf: Bytes, tail: Bytes, vts: seq<nat>, slots: seq<nat>, n: nat)
    requires Tail(buf, tail) && VtablesOk(tail, vts)
    ensures Known(buf, vts, slots, n) <==> Known(tail, vts, slots, n)
  {
    hide VtableOk, VtableHolds;
    VtablesBelow(tail, vts);
    forall k | 0 <= k < |vts|
      ensures VtableHolds(buf, vts[k], slots, n) <==> VtableHolds(tail, vts[k], slots, n)
    {
      VtablesMember(tail, vts, vts[k]);
      VtableHoldsMoves(buf, tail, vts[k], slots, n);
    }
  }

  /** An object in front of whatever, with a vtable that was written for another one. */
  lemma SharedTable(trimmed: seq<nat>, slots: seq<nat>, n: nat, vt: nat, rest: Bytes)
    requires n == 4 + |rest| && Aligned(n) && n <= TWO_TO_31
    requires VtableOk(rest, vt) && VtableHolds(rest, vt, trimmed, n)
    requires |trimmed| <= |slots| && slots[..|trimmed|] == trimmed
    requires forall i :: |trimmed| <= i < |slots| ==> slots[i] == 0
    ensures TableHolds(EncodeFixed(Wrap32(vt - n), 4) + rest, n, vt, slots)
    ensures VtableHolds(EncodeFixed(Wrap32(vt - n), 4) + rest, vt, trimmed, n)
  {
    Pow256Values();
    var buf := EncodeFixed(Wrap32(vt - n), 4) + rest;
    assert Tail(buf, rest);
    VtableOkMoves(buf, rest, vt);
    VtableHoldsMoves(buf, rest, vt, trimmed, n);
    assert buf == [] + buf;
    NumberOfEncode([], Wrap32(vt - n), 4, rest);
    TrimmedTable(buf, n, vt, trimmed, slots);
  }

  class Builder {
    /** Vtables are compared whole, with the object size, as in C++; in Go, the fields alone. */
    const whole: bool
    var bytes: array<Byte>
    var head: nat
    var minalign: nat
    var vtable: seq<nat>
    var objectEnd: nat
    var vtables: seq<nat>
    var nested: bool
    var finished: bool

    /** The buffer as the array it is kept in. */
    predicate Room()
      reads this`head, this`bytes
    {
      head <= bytes.Length <= TWO_TO_31
    }

    function Contents(): (buf: Bytes)
      requires Room()
      reads this`head, this`bytes, bytes
      ensures |buf| == Offset()
    {
      bytes[head..]
    }

    function Offset(): nat
      requires Room()
      reads this`head, this`bytes
    {
      bytes.Length - head
    }

    constructor (initialSize: nat, whole: bool)
      requires initialSize <= TWO_TO_31
      ensures Room() && Contents() == [] && fresh(bytes)
      ensures minalign == 1 && vtable == [] && vtables == [] && !nested && !finished && objectEnd == 0
      ensures this.whole == whole
    {
      this.whole := whole;
      bytes := new Byte[initialSize](_ => 0);
      head, minalign := initialSize, 1;
      vtable, objectEnd, vtables, nested, finished := [], 0, [], false, false;
    }

    /** Doubles the buffer, keeping what is in it at its end. */
    method Grow()
      requires Room() && bytes.Length < LIMIT
      modifies this`bytes, this`head
      ensures Room() && fresh(bytes) && Contents() == old(Contents())
      ensures bytes.Length == (if old(bytes.Length) == 0 then 1 else 2 * old(bytes.Length))
    {
      var newLen := if bytes.Length == 0 then 1 else 2 * bytes.Length;
      var grown := new Byte[newLen](_ => 0);
      var shift := newLen - bytes.Length;
      forall i | 0 <= i < bytes.Length {
        grown[shift + i] := bytes[i];
      }
      assert grown[shift + head..] == bytes[head..];
      bytes, head := grown, head + shift;
    }

    /** Writes in front of the buffer, where there is room. */
    method Place(bs: Bytes)
      requires Room() && |bs| <= head
      modifies this`head, bytes
      ensures Room() && head == old(head) - |bs|
      ensures Contents() == bs + old(Contents())
    {
      ghost var was := bytes[..];
      head := head - |bs|;
      var i := 0;
      while i < |bs|
        invariant 0 <= i <= |bs| && head == old(head) - |bs|
        invariant forall j :: head <= j < head + i ==> bytes[j] == bs[j - head]
        invariant forall j :: head + |bs| <= j < bytes.Length ==> bytes[j] == was[j]
      {
        bytes[head + i] := bs[i];
        i := i + 1;
      }
      Placed(bytes[head..], bs, was[head + |bs|..]);
    }

    /** Makes room for a value of `size` bytes and `extra` more, and aligns what will be in front of them. */
    method Prep(size: nat, extra: nat)
      requires Room() && (size == 1 || size == 2 || size == 4)
      requires Offset() + Padding(Offset(), size, extra) + size + extra < LIMIT
      modifies this`bytes, this`head, this`minalign, bytes
      ensures Room() && (bytes == old(bytes) || fresh(bytes))
      ensures head >= size + extra && head + Padding(old(Offset()), size, extra) >= old(head)
      ensures minalign == if size > old(minalign) then size else old(minalign)
      ensures Contents() == Zeros(Padding(old(Offset()), size, extra)) + old(Contents())
    {
      if size > minalign { minalign := size; }
      var alignSize := Padding(Offset(), size, extra);
      while head <= alignSize + size + extra
        invariant Room() && (bytes == old(bytes) || fresh(bytes))
        invariant Contents() == old(Contents()) && head >= old(head)
        invariant minalign == if size > old(minalign) then size else old(minalign)
        decreases alignSize + size + extra - head
      {
        Grow();
      }
      Place(Zeros(alignSize));
    }

    /** The vtables written so far are intact. */
    ghost predicate Valid()
      reads this, bytes
    {
      Room() && (minalign == 1 || minalign == 2 || minalign == 4) && VtablesOk(Contents(), vtables)
    }

    /** `Prep` and `Place` keep what was written before. */
    method Align(size: nat, extra: nat)
      requires Valid() && (size == 1 || size == 2 || size == 4)
      requires Offset() + Padding(Offset(), size, extra) + size + extra < LIMIT
      modifies this`bytes, this`head, this`minalign, bytes
      ensures Valid() && (bytes == old(bytes) || fresh(bytes))
      ensures head >= size + extra && head + Padding(old(Offset()), size, extra) >= old(head)
      ensures minalign == if size > old(minalign) then size else old(minalign)
      ensures Tail(Contents(), old(Contents()))
      ensures Contents() == Zeros(Padding(old(Offset()), size, extra)) + old(Contents())
    {
      hide VtableOk, VtablesOk, Tail, Padding, Aligned;
      ghost var was := Contents();
      Prep(size, extra);
      TailOf(Zeros(Padding(|was|, size, extra)), was);
      VtablesOkMove(Contents(), was, vtables);
    }

    method Put(bs: Bytes)
      requires Valid() && |bs| <= head
      modifies this`head, bytes
      ensures Valid() && head == old(head) - |bs|
      ensures Contents() == bs + old(Contents()) && Tail(Contents(), old(Contents()))
    {
      hide VtableOk, VtablesOk, Tail;
      ghost var was := Contents();
      Place(bs);
      TailOf(bs, was);
      VtablesOkMove(Contents(), was, vtables);
    }

    /** A value in front, aligned to its own width. */
    method Prepend(v: nat, width: nat)
      requires Room() && (width == 1 || width == 2 || width == 4)
      requires Offset() + Padding(Offset(), width, 0) + width < LIMIT
      modifies this`bytes, this`head, this`minalign, bytes
      ensures Room() && (bytes == old(bytes) || fresh(bytes))
      ensures minalign == if width > old(minalign) then width else old(minalign)
      ensures Contents() == EncodeFixed(v, width) + (Zeros(Padding(old(Offset()), width, 0)) + old(Contents()))
    {
      Prep(width, 0);
      Place(EncodeFixed(v, width));
    }

    /** Compares a vtable in the buffer with the slots of the open object, absent fields being equal. */
    method VtableEqual(slots: seq<nat>, n: nat, vt: nat) returns (same: bool)
      requires Room() && VtableOk(Contents(), vt) && vt < n
      requires forall i :: 0 <= i < |slots| ==> slots[i] < n
      ensures same <==> VtableHolds(Contents(), vt, slots, n)
    {
      var buf := bytes[head..];
      if Number(buf, |buf| - vt, 2).value - 4 != 2 * |slots| { return false; }
      var i := 0;
      while i < |slots|
        invariant 0 <= i <= |slots|
        invariant forall k :: 0 <= k < i ==> Entry(buf, vt, k) == SlotEntry(n, slots[k])
      {
        var x := Number(buf, |buf| - vt + 4 + 2 * i, 2).value;
        assert x == Entry(buf, vt, i) < vt;
        if !(x == 0 && slots[i] == 0) && x != n - slots[i] {
          return false;
        }
        i := i + 1;
      }
      same := true;
    }

    /** Searches the vtables written so far, the latest first; 0 when none fits. */
    method FindVtable(slots: seq<nat>, n: nat) returns (found: nat)
      requires Valid() && n == Offset() && forall i :: 0 <= i < |slots| ==> slots[i] < n
      requires forall k :: 0 <= k < |vtables| ==> vtables[k] < n
      ensures found != 0 ==> found in vtables && VtableOk(Contents(), found) && VtableHolds(Contents(), found, slots, n)
      ensures found != 0 <==> Known(Contents(), vtables, slots, n)
    {
      found := 0;
      var k := |vtables|;
      while k > 0
        invariant 0 <= k <= |vtables|
        invariant forall j :: k <= j < |vtables| ==> !VtableHolds(Contents(), vtables[j], slots, n)
      {
        k := k - 1;
        var same := VtableEqual(slots, n, vtables[k]);
        if same { return vtables[k]; }
      }
    }

    /** Compares a vtable in the buffer, half-word by half-word, with all that a new one would be. */
    method WholeVtableEqual(slots: seq<nat>, n: nat, size: nat, vt: nat) returns (same: bool)
      requires Room() && VtableOk(Contents(), vt)
      ensures same <==> VtableHolds(Contents(), vt, slots, n) && SizeTold(Contents(), vt, size)
    {
      hide SlotEntry, Even;
      var buf := bytes[head..];
      if Number(buf, |buf| - vt, 2).value != 2 * |slots| + 4 || Number(buf, |buf| - vt + 2, 2).value != size { return false; }
      var i := 0;
      while i < |slots|
        invariant 0 <= i <= |slots|
        invariant forall k :: 0 <= k < i ==> Entry(buf, vt, k) == SlotEntry(n, slots[k])
      {
        var x := Number(buf, |buf| - vt + 4 + 2 * i, 2).value;
        assert x == Entry(buf, vt, i);
        if x != SlotEntry(n, slots[i]) { return false; }
        i := i + 1;
      }
      same := true;
    }

    /** Searches the vtables written so far, the earliest first; 0 when none is the same. */
    method FindWholeVtable(slots: seq<nat>, n: nat, size: nat) returns (found: nat)
      requires Valid()
      ensures found != 0 ==> found in vtables && VtableOk(Contents(), found) && VtableHolds(Contents(), found, slots, n)
      ensures found != 0 <==> WholeKnown(Contents(), vtables, slots, n, size)
    {
      hide VtableHolds, SizeTold;
      VtablesBelow(Contents(), vtables);
      found := 0;
      var k := 0;
      while k < |vtables|
        invariant 0 <= k <= |vtables|
        invariant forall j :: 0 <= j < k ==> !(VtableHolds(Contents(), vtables[j], slots, n) && SizeTold(Contents(), vtables[j], size))
      {
        var same := WholeVtableEqual(slots, n, size, vtables[k]);
        if same { return vtables[k]; }
        k := k + 1;
      }
    }

    /** The vtable for the open object among those written so far; 0 when there is none. */
    method FindShared(slots: seq<nat>, n: nat) returns (found: nat)
      requires Valid() && n == Offset() && objectEnd <= n && forall i :: 0 <= i < |slots| ==> slots[i] < n
      requires forall k :: 0 <= k < |vtables| ==> vtables[k] < n
      ensures found != 0 ==> found in vtables && VtableOk(Contents(), found) && VtableHolds(Contents(), found, slots, n)
      ensures found != 0 <==> Shares(whole, Contents(), vtables, slots, n, n - objectEnd)
    {
      hide VtableOk, VtablesOk, VtableHolds;
      if whole {
        found := FindWholeVtable(slots, n, n - objectEnd);
      } else {
        found := FindVtable(slots, n);
      }
    }

    /** Writes a number over one that is in the buffer. */
    method Overwrite(at: nat, bs: Bytes)
      requires Room() && |bs| <= at <= Offset()
      modifies bytes
      ensures Contents() == old(Contents())[..Offset() - at] + bs + old(Contents())[Offset() - at + |bs|..]
    {
      ghost var was := bytes[..];
      var start := bytes.Length - at;
      var i := 0;
      while i < |bs|
        invariant 0 <= i <= |bs|
        invariant forall j :: start <= j < start + i ==> bytes[j] == bs[j - start]
        invariant forall j :: 0 <= j < start || start + i <= j < bytes.Length ==> bytes[j] == was[j]
      {
        bytes[start + i] := bs[i];
        i := i + 1;
      }
      Overwritten(bytes[head..], was[head..], Offset() - at, bs);
    }

    /** The slots of the open object without the absent ones at the end. */
    method Trim() returns (slots: seq<nat>)
      ensures slots == Trimmed(vtable)
      ensures |slots| <= |vtable| && slots == vtable[..|slots|]
      ensures forall i :: |slots| <= i < |vtable| ==> vtable[i] == 0
    {
      slots := vtable;
      while |slots| != 0 && slots[|slots| - 1] == 0
        invariant |slots| <= |vtable| && slots == vtable[..|slots|] && Trimmed(slots) == Trimmed(vtable)
        invariant forall i :: |slots| <= i < |vtable| ==> vtable[i] == 0
        decreases |slots|
      {
        slots := slots[..|slots| - 1];
      }
    }

    /** Writes a vtable in front, its entries last to first. */
    method WriteEntries(slots: seq<nat>, n: nat, size: nat)
      requires Room() && Even(Offset()) && Offset() + 2 * |slots| + 4 < LIMIT
      modifies this`bytes, this`head, this`minalign, bytes
      ensures Room() && (bytes == old(bytes) || fresh(bytes))
      ensures minalign == if 2 > old(minalign) then 2 else old(minalign)
      ensures Contents() == VtableBytes(slots, n, size) + old(Contents())
    {
      hide EncodeFixed, Even;
      ghost var was := Contents();
      var i := |slots|;
      assert EntryBytes(slots[i..], n) + was == was;
      while i > 0
        invariant 0 <= i <= |slots|
        invariant Room() && (bytes == old(bytes) || fresh(bytes)) && Even(Offset())
        invariant minalign == old(minalign) || minalign == if 2 > old(minalign) then 2 else old(minalign)
        invariant Contents() == EntryBytes(slots[i..], n) + was
      {
        i := i - 1;
        PrependHalf(SlotEntry(n, slots[i]));
        Assoc(EncodeFixed(SlotEntry(n, slots[i]), 2), EntryBytes(slots[i + 1..], n), was);
        assert slots[i..][1..] == slots[i + 1..];
      }
      assert slots[0..] == slots;
      PrependHalf(size);
      Assoc(EncodeFixed(size, 2), EntryBytes(slots, n), was);
      PrependHalf(2 * |slots| + 4);
      Assoc(EncodeFixed(2 * |slots| + 4, 2), EncodeFixed(size, 2) + EntryBytes(slots, n), was);
    }

    /** Two more bytes, for which nothing needs aligning. */
    method PrependHalf(v: nat)
      requires Room() && Even(Offset()) && Offset() + 2 < LIMIT
      modifies this`bytes, this`head, this`minalign, bytes
      ensures Room() && (bytes == old(bytes) || fresh(bytes)) && Even(Offset())
      ensures minalign == if 2 > old(minalign) then 2 else old(minalign)
      ensures Contents() == EncodeFixed(v, 2) + old(Contents())
    {
      hide EncodeFixed, Padding, Even;
      NoPadding(Offset(), 0);
      assert Zeros(0) + Contents() == Contents();
      Prepend(v, 2);
    }

    /** Writes a vtable for the object at `n` in front of it, and its offset over the placeholder. */
    method LinkNew(slots: seq<nat>, n: nat, ghost rest: Bytes)
      requires Room() && n == Offset() && 4 <= n && Even(n) && Contents()[4..] == rest && objectEnd <= n
      requires Offset() + 2 * |slots| + 4 < LIMIT
      modifies this`bytes, this`head, this`minalign, bytes
      ensures Room() && (bytes == old(bytes) || fresh(bytes))
      ensures minalign == if 2 > old(minalign) then 2 else old(minalign)
      ensures Contents() == VtableBytes(slots, n, n - objectEnd) + (EncodeFixed(2 * |slots| + 4, 4) + rest)
    {
      hide VtableBytes, EncodeFixed, Wrap32, Even;
      WrapSmall(2 * |slots| + 4);
      ghost var was, front := Contents(), VtableBytes(slots, n, n - objectEnd);
      WriteEntries(slots, n, n - objectEnd);
      OverwriteBehind(n, EncodeFixed(Wrap32(Offset() - n), 4), front, was);
    }

    /** Writes over the start of what lies behind `front`. */
    method OverwriteBehind(n: nat, bs: Bytes, ghost front: Bytes, ghost was: Bytes)
      requires Room() && Contents() == front + was && |was| == n && |bs| <= n
      modifies bytes
      ensures Contents() == front + (bs + was[|bs|..])
    {
      OverFront(front, bs, was);
      Overwrite(n, bs);
    }

    method LinkShared(found: nat, n: nat, ghost rest: Bytes)
      requires Room() && n == Offset() && 4 <= n && Contents()[4..] == rest
      modifies bytes
      ensures Contents() == EncodeFixed(Wrap32(found - n), 4) + rest
    {
      Overwrite(n, EncodeFixed(Wrap32(found - n), 4));
      assert [] + EncodeFixed(Wrap32(found - n), 4) == EncodeFixed(Wrap32(found - n), 4);
    }

    /**
     Closes the open object: writes the offset to its vtable, which is one written
     before when that says the same of every field, and else a new one.
     */
    method EndObject() returns (n: nat, ghost vt: nat)
      requires Valid() && nested && 2 * |vtable| + 4 < 0x1_0000
      requires Offset() + Padding(Offset(), 4, 0) + 2 * |vtable| + 8 < LIMIT
      requires forall i :: 0 <= i < |vtable| ==> vtable[i] <= Offset()
      requires forall i :: 0 <= i < |vtable| && vtable[i] != 0 ==> Offset() - vtable[i] + 8 < 0x1_0000
      requires objectEnd <= Offset()
      modifies this, bytes
      ensures Valid() && (bytes == old(bytes) || fresh(bytes)) && minalign == 4
      ensures vtable == [] && !nested && finished == old(finished)
      ensures n == old(Offset()) + Padding(old(Offset()), 4, 0) + 4
      ensures Tail(Contents(), old(Contents())) && TableHolds(Contents(), n, vt, old(vtable))
      ensures n <= Offset() <= n + 2 * |old(vtable)| + 4
      ensures if vt in old(vtables) then vtables == old(vtables) && Offset() == n
              else vtables == old(vtables) + [vt] && vt == Offset() == n + VtableLength(Contents(), vt)
      ensures objectEnd == old(objectEnd)
      ensures vt in old(vtables) <==> Shares(whole, old(Contents()), old(vtables), Trimmed(old(vtable)), n, n - objectEnd)
      ensures 4 <= vt <= Offset() && VtableHolds(Contents(), vt, Trimmed(old(vtable)), n)
      ensures vt !in old(vtables) && n - objectEnd < 0x1_0000 ==> SizeTold(Contents(), vt, n - objectEnd)
    {
      hide Builder.Contents;
      hide VtableOk, VtableHolds, TableHolds, VtableBytes, VtablesOk, EncodeFixed, Shares, SizeTold, Trimmed, Tail, Padding;
      hide Wrap32, Aligned, Even, VtableLength;
      ghost var was := Contents();
      ghost var rest := PlaceHolder();
      n := Offset();
      SmallSlots(vtable, was, n);
      VtablesBelow(rest, vtables);
      var slots := Trim();
      var found := FindShared(slots, n);
      SharesMoves(whole, Contents(), rest, vtables, slots, n, n - objectEnd);
      SharesMoves(whole, rest, was, vtables, slots, n, n - objectEnd);
      if found != 0 {
        VtablesMember(rest, vtables, found);
        VtableHoldsMoves(Contents(), rest, found, slots, n);
      }
      vt := Link(slots, n, found, rest);
      TailTransitive(Contents(), rest, was);
      vtable, nested := [], false;
    }

    /** Where the offset to the vtable will be; until then it holds the place. */
    method PlaceHolder() returns (ghost rest: Bytes)
      requires Valid() && Offset() + Padding(Offset(), 4, 0) + 4 < LIMIT
      modifies this`bytes, this`head, this`minalign, bytes
      ensures Valid() && (bytes == old(bytes) || fresh(bytes)) && minalign == 4
      ensures Offset() == old(Offset()) + Padding(old(Offset()), 4, 0) + 4
      ensures Aligned(Offset()) && |Contents()| == |rest| + 4 && Contents()[4..] == rest
      ensures Tail(Contents(), rest) && Tail(rest, old(Contents())) && VtablesOk(rest, vtables)
    {
      hide Builder.Contents, VtableOk, VtablesOk, EncodeFixed, Tail, Padding, Aligned;
      PaddingAligns(Offset(), 0);
      Align(4, 0);
      rest := Contents();
      Put(EncodeFixed(Offset() + 4, 4));
    }

    /** A word in front, aligned. */
    method PrependWord(v: nat)
      requires Valid() && v < TWO_TO_32 && Offset() + Padding(Offset(), 4, 0) + 4 < LIMIT
      modifies this`bytes, this`head, this`minalign, bytes
      ensures Valid() && (bytes == old(bytes) || fresh(bytes)) && minalign == 4
      ensures Tail(Contents(), old(Contents())) && WordAt(Contents(), Offset(), v)
      ensures Offset() == old(Offset()) + Padding(old(Offset()), 4, 0) + 4
      ensures head + Padding(old(Offset()), 4, 0) + 4 >= old(head)
    {
      hide Builder.Contents, VtableOk, VtablesOk, EncodeFixed, Tail, WordAt, Padding, Aligned;
      ghost var was := Contents();
      PaddingAligns(Offset(), 0);
      Align(4, 0);
      ghost var rest := Contents();
      Put(EncodeFixed(v, 4));
      NewWord(v, rest);
      TailTransitive(Contents(), rest, was);
    }

    /** A relative offset to something already written. */
    method PrependUOffset(off: nat)
      requires Valid() && off <= Offset() && Offset() + Padding(Offset(), 4, 0) + 4 < LIMIT
      modifies this`bytes, this`head, this`minalign, bytes
      ensures Valid() && (bytes == old(bytes) || fresh(bytes)) && minalign == 4
      ensures Tail(Contents(), old(Contents())) && RefAt(Contents(), Offset(), off)
      ensures Offset() == old(Offset()) + Padding(old(Offset()), 4, 0) + 4
      ensures head + Padding(old(Offset()), 4, 0) + 4 >= old(head)
    {
      hide Builder.Contents, VtableOk, VtablesOk, Tail, WordAt, Padding, Aligned;
      PrependWord(Offset() + Padding(Offset(), 4, 0) - off + 4);
    }

    method CreateString(s: Bytes) returns (at: nat)
      requires Valid() && !nested && StringEnd(Offset(), |s|) < LIMIT
      modifies this`bytes, this`head, this`minalign, this`nested, bytes
      ensures Valid() && (bytes == old(bytes) || fresh(bytes)) && minalign == 4 && !nested
      ensures Tail(Contents(), old(Contents())) && at == Offset() && StringAt(Contents(), at, s)
      ensures Offset() == StringEnd(old(Offset()), |s|)
    {
      hide Builder.Contents, VtableOk, VtablesOk, EncodeFixed, Tail, StringAt, Padding, Aligned, Zeros;
      ghost var was := Contents();
      nested := true;
      PaddingAligns(|was|, |s| + 1);
      Align(4, |s| + 1);
      ghost var rest := Contents();
      Put([0]);
      ghost var rest' := Contents();
      Put(s);
      ghost var rest'' := Contents();
      at := EndVector(|s|);
      NewString(s, rest);
      TailTransitive(rest', rest, was);
      TailTransitive(rest'', rest', was);
      TailTransitive(Contents(), rest'', was);
    }

    /** Makes room for a vector of words, so that they and its length end up aligned. */
    method StartVector(count: nat)
      requires Valid() && !nested && VectorEnd(Offset(), count) < LIMIT
      modifies this`bytes, this`head, this`minalign, this`nested, bytes
      ensures Valid() && (bytes == old(bytes) || fresh(bytes)) && minalign == 4 && nested
      ensures Tail(Contents(), old(Contents())) && Offset() == old(Offset()) + Padding(old(Offset()), 4, 0)
      ensures Aligned(Offset())
      ensures head >= 4 + 4 * count
    {
      hide Builder.Contents, VtableOk, VtablesOk, Tail, Padding, Aligned;
      ghost var was := Contents();
      nested := true;
      WordsAligned(count);
      PaddingAligns(|was|, 4 * count);
      Align(4, 4 * count);
      ghost var rest := Contents();
      NoPadding(Offset(), 4 * count);
      Align(4, 4 * count);
      TailTransitive(Contents(), rest, was);
    }

    /** The length of a vector, in the room made for it. */
    method EndVector(count: nat) returns (at: nat)
      requires Valid() && nested && head >= 4
      modifies this`head, this`nested, bytes
      ensures Valid() && !nested && head == old(head) - 4
      ensures Contents() == EncodeFixed(count, 4) + old(Contents()) && at == Offset()
      ensures Tail(Contents(), old(Contents()))
    {
      Put(EncodeFixed(count, 4));
      nested := false;
      at := Offset();
    }

    method StartObject(fields: nat)
      requires Room() && !nested
      modifies this`nested, this`vtable, this`objectEnd
      ensures nested && objectEnd == Offset() && vtable == seq(fields, _ => 0)
    {
      nested := true;
      vtable := seq(fields, _ => 0);
      objectEnd := Offset();
    }

    /** A field that refers to something written before; none for the offset 0. */
    method PrependUOffsetSlot(slot: nat, off: nat)
      requires Valid() && nested && slot < |vtable| && off <= Offset()
      requires off != 0 ==> Offset() + Padding(Offset(), 4, 0) + 4 < LIMIT
      modifies this`bytes, this`head, this`minalign, this`vtable, bytes
      ensures Valid() && (bytes == old(bytes) || fresh(bytes))
      ensures Tail(Contents(), old(Contents()))
      ensures if off == 0 then Offset() == old(Offset()) && vtable == old(vtable)
              else vtable == old(vtable)[slot := Offset()] && RefAt(Contents(), Offset(), off)
                   && Offset() == old(Offset()) + Padding(old(Offset()), 4, 0) + 4
    {
      hide Builder.Contents, VtableOk, VtablesOk, RefAt, Padding;
      if off != 0 {
        PrependUOffset(off);
        vtable := vtable[slot := Offset()];
      }
    }

    /** A number, as 32 bits; nothing is written for 0, which is what an absent field reads as. */
    method PrependInt32Slot(slot: nat, x: int)
      requires Valid() && nested && slot < |vtable| && -TWO_TO_31 <= x < TWO_TO_31
      requires x != 0 ==> Offset() + Padding(Offset(), 4, 0) + 4 < LIMIT
      modifies this`bytes, this`head, this`minalign, this`vtable, bytes
      ensures Valid() && (bytes == old(bytes) || fresh(bytes))
      ensures Tail(Contents(), old(Contents()))
      ensures if x == 0 then Offset() == old(Offset()) && vtable == old(vtable)
              else vtable == old(vtable)[slot := Offset()] && WordAt(Contents(), Offset(), Wrap32(x))
                   && Offset() == old(Offset()) + Padding(old(Offset()), 4, 0) + 4
    {
      hide Builder.Contents, VtableOk, VtablesOk, WordAt, Padding;
      if x != 0 {
        PrependWord(Wrap32(x));
        vtable := vtable[slot := Offset()];
      }
    }

    /** The offset of the root in front, such that the whole buffer is aligned. */
    method Finish(root: nat)
      requires Valid() && !nested && root <= Offset() && FinishEnd(Offset()) + 4 < LIMIT && minalign == 4
      modifies this`bytes, this`head, this`minalign, this`finished, bytes
      ensures Valid() && finished && (bytes == old(bytes) || fresh(bytes))
      ensures Tail(Contents(), old(Contents())) && RefAt(Contents(), Offset(), root)
      ensures Offset() == FinishEnd(old(Offset()))
    {
      hide Builder.Contents, VtableOk, VtablesOk, Tail, RefAt, Padding, Aligned;
      ghost var was := Contents();
      WordsAligned(1);
      PaddingAligns(|was|, 4);
      Align(minalign, 4);
      ghost var padded := Contents();
      NoPadding(|padded|, 0);
      PrependUOffset(root);
      TailTransitive(Contents(), padded, was);
      finished := true;
    }

    method FinishedBytes() returns (payload: Bytes)
      requires Room() && finished
      ensures payload == Contents()
    {
      payload := bytes[head..];
    }

    /** Makes the object at `n` point to the vtable found, or to a new one. */
    method Link(slots: seq<nat>, n: nat, found: nat, ghost rest: Bytes) returns (ghost vt: nat)
      requires Room() && n == Offset() && 4 <= n && Aligned(n) && Contents()[4..] == rest && objectEnd <= n
      requires 2 * |vtable| + 4 < 0x1_0000 && n + 2 * |vtable| + 4 < LIMIT && (minalign == 2 || minalign == 4)
      requires VtablesOk(rest, vtables)
      requires |slots| <= |vtable| && slots == vtable[..|slots|] && forall i :: |slots| <= i < |vtable| ==> vtable[i] == 0
      requires forall i :: 0 <= i < |vtable| ==> SlotEntry(n, vtable[i]) < 0x1_0000
      requires found != 0 ==> found in vtables && VtableOk(rest, found) && VtableHolds(rest, found, slots, n)
      modifies this`bytes, this`head, this`minalign, this`vtables, bytes
      ensures Valid() && (bytes == old(bytes) || fresh(bytes)) && minalign == old(minalign)
      ensures Tail(Contents(), rest) && TableHolds(Contents(), n, vt, vtable)
      ensures n <= Offset() <= n + 2 * |vtable| + 4
      ensures if found != 0 then vt == found && vtables == old(vtables) && Offset() == n
              else vtables == old(vtables) + [vt] && vt == Offset() == n + VtableLength(Contents(), vt)
      ensures 4 <= vt <= Offset() && VtableHolds(Contents(), vt, slots, n)
      ensures found == 0 && n - objectEnd < 0x1_0000 ==> SizeTold(Contents(), vt, n - objectEnd)
    {
      hide Builder.Contents;
      hide VtableOk, VtableHolds, TableHolds, VtableBytes, VtablesOk, EncodeFixed, SizeTold, Tail, SlotEntry, Aligned, Even, VtableLength;
      if found == 0 {
        vt := n + 2 * |slots| + 4;
        NewTable(slots, vtable, n, n - objectEnd, 2 * |slots| + 4, rest);
        NoPadding(n, 0);
        LinkNew(slots, n, rest);
        TableVtable(Contents(), n, vt, vtable);
        Assoc(VtableBytes(slots, n, n - objectEnd), EncodeFixed(2 * |slots| + 4, 4), rest);
        TailOf(VtableBytes(slots, n, n - objectEnd) + EncodeFixed(2 * |slots| + 4, 4), rest);
        VtablesOkMove(Contents(), rest, vtables);
        VtablesAppend(Contents(), vtables, vt);
        vtables := vtables + [Offset()];
      } else {
        vt := found;
        VtableInside(rest, found);
        SharedTable(slots, vtable, n, found, rest);
        LinkShared(found, n, rest);
        TailOf(EncodeFixed(Wrap32(found - n), 4), rest);
        VtablesOkMove(Contents(), rest, vtables);
      }
    }
  }

  /** A word, a reference to another object, and a string, each found by its distance from the end. */
  predicate WordAt(buf: Bytes, at: nat, v: nat) {
    4 <= at <= |buf| && Aligned(at) && Number(buf, |buf| - at, 4) == Ok(v)
  }

  predicate RefAt(buf: Bytes, at: nat, target: nat) {
    target + 4 <= at && WordAt(buf, at, at - target)
  }

  predicate StringAt(buf: Bytes, at: nat, s: Bytes) {
    && |s| + 5 <= at && WordAt(buf, at, |s|)
    && buf[|buf| - at + 4..|buf| - at + 4 + |s|] == s && buf[|buf| - at + 4 + |s|] == 0
  }

  lemma WordAtMoves(buf: Bytes, tail: Bytes, at: nat, v: nat)
    requires Tail(buf, tail) && WordAt(tail, at, v)
    ensures WordAt(buf, at, v)
  {
    NumberMoves(buf, tail, |tail| - at, 4);
  }

  lemma StringAtMoves(buf: Bytes, tail: Bytes, at: nat, s: Bytes)
    requires Tail(buf, tail) && StringAt(tail, at, s)
    ensures StringAt(buf, at, s)
  {
    WordAtMoves(buf, tail, at, |s|);
    var start := |tail| - at + 4;
    SliceMoves(buf, tail, start, start + |s|);
    SliceMoves(buf, tail, start + |s|, start + |s| + 1);
    assert tail[start + |s|..start + |s| + 1] == [tail[start + |s|]];
    assert buf[|buf| - at + 4 + |s|..|buf| - at + 5 + |s|] == [buf[|buf| - at + 4 + |s|]];
  }

  /** The accessors read the string that a reference leads to. */
  lemma StringRead(buf: Bytes, at: nat, target: nat, s: Bytes)
    requires |buf| <= TWO_TO_31 && RefAt(buf, at, target) && StringAt(buf, target, s)
    ensures ByteVector(buf, |buf| - at) == Ok(s)
  {
    hide VectorBytes, StringAt, RefAt, Indirect;
    StringBytes(buf, target, s);
    RefRead(buf, at, target);
  }

  lemma RefRead(buf: Bytes, at: nat, target: nat)
    requires |buf| <= TWO_TO_31 && RefAt(buf, at, target)
    ensures at <= |buf| && target <= |buf| && Indirect(buf, |buf| - at) == Ok(|buf| - target)
  {
    hide Wrap32, Aligned, Number;
    WrapSmall(|buf| - target);
  }

  lemma StringBytes(buf: Bytes, at: nat, s: Bytes)
    requires |buf| <= TWO_TO_31 && StringAt(buf, at, s)
    ensures at <= |buf| && VectorBytes(buf, |buf| - at) == Ok(s)
  {
    hide Aligned, Wrap32;
    assert at <= |buf|;
    WrapSmall(|buf| - at + 4);
    WrapSmall(|buf| - at + 4 + |s|);
  }

  lemma NewWord(v: nat, rest: Bytes)
    requires v < TWO_TO_32 && Aligned(|rest|)
    ensures WordAt(EncodeFixed(v, 4) + rest, 4 + |rest|, v)
  {
    Pow256Values();
    NumberOfEncode([], v, 4, rest);
    assert [] + (EncodeFixed(v, 4) + rest) == EncodeFixed(v, 4) + rest;
  }

  lemma NewString(s: Bytes, rest: Bytes)
    requires Aligned(|s| + 1 + |rest|) && |s| < TWO_TO_32
    ensures StringAt(EncodeFixed(|s|, 4) + (s + ([0] + rest)), 5 + |s| + |rest|, s)
  {
    hide Aligned, EncodeFixed, StringAt, WordAt;
    var buf := EncodeFixed(|s|, 4) + (s + ([0] + rest));
    NewWord(|s|, s + ([0] + rest));
    Pieces(EncodeFixed(|s|, 4), s, rest);
    StringInFront(buf, s);
  }

  lemma StringInFront(buf: Bytes, s: Bytes)
    requires |s| + 5 <= |buf| && WordAt(buf, |buf|, |s|) && buf[4..4 + |s|] == s && buf[4 + |s|] == 0
    ensures StringAt(buf, |buf|, s)
  {
    hide WordAt;
  }

  lemma Pieces(front: Bytes, s: Bytes, rest: Bytes)
    requires |front| == 4
    ensures var buf := front + (s + ([0] + rest));
            |buf| == 5 + |s| + |rest| && buf[4..4 + |s|] == s && buf[4 + |s|] == 0
  {
  }

  lemma SmallSlots(slots: seq<nat>, was: Bytes, n: nat)
    requires |was| <= n <= |was| + 7
    requires forall i :: 0 <= i < |slots| && slots[i] != 0 ==> |was| - slots[i] + 8 < 0x1_0000
    ensures forall i :: 0 <= i < |slots| ==> SlotEntry(n, slots[i]) < 0x1_0000
  {
  }

  lemma OverFront(front: Bytes, x: Bytes, was: Bytes)
    requires |x| <= |was|
    ensures (front + was)[..|front|] + x + (front + was)[|front| + |x|..] == front + (x + was[|x|..])
  {
  }

  lemma VtablesAppend(buf: Bytes, vts: seq<nat>, vt: nat)
    requires VtablesOk(buf, vts) && VtableOk(buf, vt)
    ensures VtablesOk(buf, vts + [vt])
  {
  }

  lemma TailOf(front: Bytes, tail: Bytes)
    requires |front| + |tail| <= TWO_TO_31
    ensures Tail(front + tail, tail)
  {
  }

  lemma VtablesMember(buf: Bytes, vts: seq<nat>, vt: nat)
    requires VtablesOk(buf, vts) && vt in vts
    ensures VtableOk(buf, vt)
  {
  }

  lemma VtablesBelow(buf: Bytes, vts: seq<nat>)
    requires VtablesOk(buf, vts)
    ensures forall k :: 0 <= k < |vts| ==> 4 <= vts[k] <= |buf|
  {
    assert forall k :: 0 <= k < |vts| ==> VtableOk(buf, vts[k]);
  }

  lemma TableVtable(buf: Bytes, n: nat, vt: nat, slots: seq<nat>)
    requires TableHolds(buf, n, vt, slots)
    ensures VtableOk(buf, vt)
  {
  }

  lemma Placed(now: Bytes, bs: Bytes, was: Bytes)
    requires |now| == |bs| + |was|
    requires forall j :: 0 <= j < |bs| ==> now[j] == bs[j]
    requires forall j :: 0 <= j < |was| ==> now[|bs| + j] == was[j]
    ensures now == bs + was
  {
  }

  lemma Overwritten(now: Bytes, was: Bytes, k: nat, bs: Bytes)
    requires |now| == |was| && k + |bs| <= |was|
    requires forall j :: k <= j < k + |bs| ==> now[j] == bs[j - k]
    requires forall j :: 0 <= j < k || k + |bs| <= j < |was| ==> now[j] == was[j]
    ensures now == was[..k] + bs + was[k + |bs|..]
  {
  }

}