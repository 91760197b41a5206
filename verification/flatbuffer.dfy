/**
 Reading FlatBuffers: tables, vtables, vectors and strings found by following
 offsets, as the generated accessors do.  Offsets are unsigned 32-bit numbers
 and wrap; a read outside the buffer faults.
 */
module FlatBuffer {
  import opened Wire

  /** The outcome of an accessor; `OutOfRange` is the fault of an index out of bounds. */
  datatype Access<+T> = OutOfRange | Ok(value: T)

  function Wrap32(x: int): (r: nat)
    ensures r < TWO_TO_32
  {
    x % TWO_TO_32
  }

  function Signed32(v: nat): int {
    if v < TWO_TO_31 then v else v - TWO_TO_32
  }

  /** The little-endian number of `width` bytes at `pos`. */
  function Number(buf: Bytes, pos: nat, width: nat): (r: Access<nat>)
    ensures r.Ok? <==> pos + width <= |buf|
  {
    if pos + width <= |buf| then Ok(DecodeFixed(buf[pos..pos + width])) else OutOfRange
  }

  // ----------------------------------------------------------------- tables

  /** Where the table at `pos` has its vtable. */
  function VtableOf(buf: Bytes, pos: nat): Access<nat> {
    match Number(buf, pos, 4)
    case OutOfRange => OutOfRange
    case Ok(soffset) => Ok(Wrap32(pos - soffset))
  }

  /** Where in the table at `pos` the field of this vtable slot is, or 0 when it is absent. */
  function FieldOffset(buf: Bytes, pos: nat, slot: nat): Access<nat> {
    match VtableOf(buf, pos)
    case OutOfRange => OutOfRange
    case Ok(vtable) => VtableEntry(buf, vtable, slot)
  }

  function VtableEntry(buf: Bytes, vtable: nat, slot: nat): Access<nat> {
    match Number(buf, vtable, 2)
    case OutOfRange => OutOfRange
    case Ok(length) => if slot < length then Number(buf, Wrap32(vtable + slot), 2) else Ok(0)
  }

  /** Follows the offset stored at `pos`. */
  function Indirect(buf: Bytes, pos: nat): Access<nat> {
    match Number(buf, pos, 4)
    case OutOfRange => OutOfRange
    case Ok(offset) => Ok(Wrap32(pos + offset))
  }

  /** The bytes of the vector at `pos`. */
  function VectorBytes(buf: Bytes, pos: nat): Access<Bytes> {
    match Number(buf, pos, 4)
    case OutOfRange => OutOfRange
    case Ok(length) =>
      var start := Wrap32(pos + 4);
      var end := Wrap32(start + length);
      if start <= end <= |buf| then Ok(buf[start..end]) else OutOfRange
  }

  function ByteVector(buf: Bytes, pos: nat): Access<Bytes> {
    match Indirect(buf, pos)
    case OutOfRange => OutOfRange
    case Ok(at) => VectorBytes(buf, at)
  }

  /** A string field: none when it is absent. */
  function StringField(buf: Bytes, pos: nat, slot: nat): Access<Option<Bytes>> {
    match FieldOffset(buf, pos, slot)
    case OutOfRange => OutOfRange
    case Ok(offset) =>
      if offset == 0 then Ok(None)
      else match ByteVector(buf, Wrap32(offset + pos))
           case OutOfRange => OutOfRange
           case Ok(s) => Ok(Some(s))
  }

  /** A 32-bit field: zero when it is absent. */
  function Int32Field(buf: Bytes, pos: nat, slot: nat): Access<int> {
    match FieldOffset(buf, pos, slot)
    case OutOfRange => OutOfRange
    case Ok(offset) =>
      if offset == 0 then Ok(0)
      else match Number(buf, Wrap32(offset + pos), 4)
           case OutOfRange => OutOfRange
           case Ok(v) => Ok(Signed32(v))
  }

  // ------------------------------------------------------------- relocation

  /** `tail` is how `buf` ends: what a builder that writes back to front had before. */
  predicate Tail(buf: Bytes, tail: Bytes) {
    |tail| <= |buf| <= TWO_TO_31 && buf[|buf| - |tail|..] == tail
  }

  /** The same place in the longer buffer. */
  function Moved(buf: Bytes, tail: Bytes, pos: nat): nat
    requires Tail(buf, tail)
  {
    pos + (|buf| - |tail|)
  }

  lemma TailLonger(buf: Bytes, tail: Bytes)
    requires Tail(buf, tail)
    ensures |tail| <= |buf| <= TWO_TO_31
  {
  }

  lemma TailTransitive(c: Bytes, b: Bytes, a: Bytes)
    requires Tail(c, b) && Tail(b, a)
    ensures Tail(c, a)
  {
    assert c[|c| - |a|..] == c[|c| - |b|..][|b| - |a|..];
  }

  lemma WrapSmall(x: nat)
    requires x < TWO_TO_32
    ensures Wrap32(x) == x
  {
  }

  lemma WrapShift(x: int, d: nat)
    requires Wrap32(x) + d < TWO_TO_32
    ensures Wrap32(x + d) == Wrap32(x) + d
  {
  }

  lemma SliceMoves(buf: Bytes, tail: Bytes, i: nat, j: nat)
    requires Tail(buf, tail) && i <= j <= |tail|
    ensures buf[Moved(buf, tail, i)..Moved(buf, tail, j)] == tail[i..j]
  {
    assert tail[i..j] == buf[|buf| - |tail|..][i..j];
  }

  lemma NumberMoves(buf: Bytes, tail: Bytes, pos: nat, width: nat)
    requires Tail(buf, tail) && pos + width <= |tail|
    ensures Number(buf, Moved(buf, tail, pos), width) == Number(tail, pos, width)
  {
    SliceMoves(buf, tail, pos, pos + width);
  }

  lemma VtableOfMoves(buf: Bytes, tail: Bytes, pos: nat)
    requires Tail(buf, tail) && VtableOf(tail, pos).Ok? && VtableOf(tail, pos).value < |tail|
    ensures VtableOf(buf, Moved(buf, tail, pos)) == Ok(Moved(buf, tail, VtableOf(tail, pos).value))
  {
    NumberMoves(buf, tail, pos, 4);
    WrapShift(pos - Number(tail, pos, 4).value, |buf| - |tail|);
  }

  lemma VtableEntryMoves(buf: Bytes, tail: Bytes, vtable: nat, slot: nat)
    requires Tail(buf, tail) && VtableEntry(tail, vtable, slot).Ok?
    ensures VtableEntry(buf, Moved(buf, tail, vtable), slot) == VtableEntry(tail, vtable, slot)
  {
    NumberMoves(buf, tail, vtable, 2);
    if slot < Number(tail, vtable, 2).value {
      NumberMoves(buf, tail, Wrap32(vtable + slot), 2);
      WrapShift(vtable + slot, |buf| - |tail|);
    }
  }

  lemma FieldOffsetMoves(buf: Bytes, tail: Bytes, pos: nat, slot: nat)
    requires Tail(buf, tail) && FieldOffset(tail, pos, slot).Ok?
    ensures FieldOffset(buf, Moved(buf, tail, pos), slot) == FieldOffset(tail, pos, slot)
  {
    VtableOfMoves(buf, tail, pos);
    VtableEntryMoves(buf, tail, VtableOf(tail, pos).value, slot);
  }

  lemma IndirectMoves(buf: Bytes, tail: Bytes, pos: nat)
    requires Tail(buf, tail) && Indirect(tail, pos).Ok? && Indirect(tail, pos).value < |tail|
    ensures Indirect(buf, Moved(buf, tail, pos)) == Ok(Moved(buf, tail, Indirect(tail, pos).value))
  {
    NumberMoves(buf, tail, pos, 4);
    WrapShift(pos + Number(tail, pos, 4).value, |buf| - |tail|);
  }

  lemma VectorBytesMoves(buf: Bytes, tail: Bytes, pos: nat)
    requires Tail(buf, tail) && VectorBytes(tail, pos).Ok?
    ensures VectorBytes(buf, Moved(buf, tail, pos)) == VectorBytes(tail, pos)
  {
    hide Number, Wrap32;
    NumberMoves(buf, tail, pos, 4);
    var start, d := pos + 4, |buf| - |tail|;
    WrapSmall(start);
    WrapSmall(start + d);
    var end := Wrap32(start + Number(tail, pos, 4).value);
    WrapShift(start + Number(tail, pos, 4).value, d);
    SliceMoves(buf, tail, start, end);
  }

  lemma ByteVectorMoves(buf: Bytes, tail: Bytes, pos: nat)
    requires Tail(buf, tail) && ByteVector(tail, pos).Ok?
    ensures pos < |tail| && ByteVector(buf, Moved(buf, tail, pos)) == ByteVector(tail, pos)
  {
    IndirectMoves(buf, tail, pos);
    VectorBytesMoves(buf, tail, Indirect(tail, pos).value);
  }

  lemma StringFieldMoves(buf: Bytes, tail: Bytes, pos: nat, slot: nat)
    requires Tail(buf, tail) && StringField(tail, pos, slot).Ok?
    ensures StringField(buf, Moved(buf, tail, pos), slot) == StringField(tail, pos, slot)
  {
    hide FieldOffset, ByteVector, Wrap32;
    FieldOffsetMoves(buf, tail, pos, slot);
    var offset := FieldOffset(tail, pos, slot).value;
    if offset != 0 {
      var at := Wrap32(offset + pos);
      ByteVectorMoves(buf, tail, at);
      WrapShift(offset + pos, |buf| - |tail|);
    }
  }

  lemma Int32FieldMoves(buf: Bytes, tail: Bytes, pos: nat, slot: nat)
    requires Tail(buf, tail) && Int32Field(tail, pos, slot).Ok?
    ensures Int32Field(buf, Moved(buf, tail, pos), slot) == Int32Field(tail, pos, slot)
  {
    hide DecodeFixed;
    FieldOffsetMoves(buf, tail, pos, slot);
    var offset := FieldOffset(tail, pos, slot).value;
    if offset != 0 {
      WrapShift(offset + pos, |buf| - |tail|);
      NumberMoves(buf, tail, Wrap32(offset + pos), 4);
    }
  }
}
