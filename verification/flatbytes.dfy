/**
 The broadcast in numbers: which byte stands where.  Builder, accessors and
 verifier could agree with each other on another format; this one is told without
 them, by the bytes alone.
 */
module FlatBytes {
  import opened Wire
  import opened WireBytes
  import opened FlatBuffer
  import opened FlatBuilder
  import opened FlatVerifier

  // ---------------------------------------------------------------- numbers

  /** Two bytes, the lowest first. */
  function Half(buf: Bytes, p: int): (v: nat)
    ensures v < 65536
  {
    if 0 <= p && p + 2 <= |buf| then
      var low: int, high: int := buf[p], buf[p + 1];
      low + 256 * high
    else 0
  }

  /** Four bytes, the lowest first. */
  function Word(buf: Bytes, p: int): (v: nat)
    ensures v < 4294967296
  {
    if 0 <= p && p + 4 <= |buf| then Half(buf, p) + 65536 * Half(buf, p + 2) else 0
  }

  /** Four bytes in two's complement. */
  function SignedWord(buf: Bytes, p: int): int {
    if Word(buf, p) < 2147483648 then Word(buf, p) else Word(buf, p) - 4294967296
  }

  lemma NumberBytes(buf: Bytes, p: nat)
    ensures NumberOr0(buf, p, 2) == Half(buf, p) && NumberOr0(buf, p, 4) == Word(buf, p)
    ensures Signed32(NumberOr0(buf, p, 4)) == SignedWord(buf, p)
  {
    hide DecodeFixed;
    if p + 2 <= |buf| {
      FixedNumbers(buf[p], buf[p + 1], 0, 0);
      assert buf[p..p + 2] == [buf[p], buf[p + 1]];
    }
    if p + 4 <= |buf| {
      FixedNumbers(buf[p], buf[p + 1], buf[p + 2], buf[p + 3]);
      assert buf[p..p + 4] == [buf[p], buf[p + 1], buf[p + 2], buf[p + 3]];
    }
  }

  // ------------------------------------------------------------------ format

  /** A reference of four bytes to something behind it. */
  predicate RawReference(buf: Bytes, p: int) {
    4 < |buf| && p >= 0 && p % 4 == 0 && p + 4 <= |buf| && 0 < Word(buf, p) < 2147483648 && p + Word(buf, p) < |buf|
  }

  /** A length of four bytes, so many bytes, and a zero. */
  predicate RawString(buf: Bytes, p: int) {
    p >= 0 && p % 4 == 0 && p + 4 + Word(buf, p) < |buf| && buf[p + 4 + Word(buf, p)] == 0
  }

  /** A length of four bytes, and so many words. */
  predicate RawVector(buf: Bytes, p: int) {
    p >= 0 && p % 4 == 0 && p + 4 + 4 * Word(buf, p) <= |buf| && 4 + 4 * Word(buf, p) < |buf|
  }

  /** A table starts with its signed distance from its vtable, and that with its own length. */
  predicate RawTable(buf: Bytes, p: int) {
    && 4 < |buf| && p >= 0 && p % 4 == 0 && p + 4 <= |buf|
    && var vtable := p - SignedWord(buf, p);
       && vtable >= 0 && vtable % 2 == 0 && vtable + 2 <= |buf|
       && Half(buf, vtable) % 2 == 0 && vtable + Half(buf, vtable) <= |buf| && Half(buf, vtable) < |buf|
  }

  /** Where in the table a field is, as the vtable has it; 0 when it is absent. */
  function RawField(buf: Bytes, p: int, slot: nat): (offset: nat)
    ensures offset < 65536
  {
    var vtable := p - SignedWord(buf, p);
    if slot < Half(buf, vtable) then Half(buf, vtable + slot) else 0
  }

  /** What the reference in a field leads to. */
  function RawTarget(buf: Bytes, p: int, slot: nat): int {
    p + RawField(buf, p, slot) + Word(buf, p + RawField(buf, p, slot))
  }

  predicate RawStringField(buf: Bytes, p: int, slot: nat) {
    RawField(buf, p, slot) != 0 ==>
      RawReference(buf, p + RawField(buf, p, slot)) && RawString(buf, RawTarget(buf, p, slot))
  }

  /** An item: its name in slot 4, its quantity in slot 6, its aisle in slot 8. */
  predicate RawItem(buf: Bytes, p: int) {
    && RawTable(buf, p) && RawStringField(buf, p, 4) && RawStringField(buf, p, 8)
    && (RawField(buf, p, 6) != 0 ==> (p + RawField(buf, p, 6)) % 4 == 0 && p + RawField(buf, p, 6) + 4 <= |buf|)
  }

  function RawCount(buf: Bytes, p: int): nat {
    if RawField(buf, p, 8) == 0 then 0 else Word(buf, RawTarget(buf, p, 8))
  }

  /** Item `j` is at the end of element `j` of the vector. */
  function RawItemPlace(buf: Bytes, p: int, j: nat): int {
    var element := RawTarget(buf, p, 8) + 4 + 4 * j;
    element + Word(buf, element)
  }

  /** An order: its id in slot 4, its type in slot 6, the vector of its items in slot 8. */
  predicate RawOrder(buf: Bytes, p: int) {
    && RawTable(buf, p) && RawStringField(buf, p, 4) && RawStringField(buf, p, 6)
    && (RawField(buf, p, 8) != 0 ==> RawReference(buf, p + RawField(buf, p, 8)) && RawVector(buf, RawTarget(buf, p, 8)))
  }

  /** A sound buffer: the first word leads to an order, and each element of its vector to an item. */
  predicate SoundBytes(buf: Bytes) {
    && RawReference(buf, 0) && RawOrder(buf, Word(buf, 0))
    && forall j :: 0 <= j < RawCount(buf, Word(buf, 0)) ==> RawItem(buf, RawItemPlace(buf, Word(buf, 0), j))
  }

  // ---------------------------------------------------------------- verifier

  lemma VtableBack(p: nat, s: int)
    requires p < 2147483648 && -2147483648 <= s < 2147483648
    ensures (p - s) % TWO_TO_64 == if p >= s then p - s else p - s + TWO_TO_64
  {
  }

  lemma AlignedBytes(p: nat)
    ensures Aligned(p) <==> p % 4 == 0
    ensures Even(p) <==> p % 2 == 0
  {
  }

  lemma ReferenceIs(buf: Bytes, p: nat)
    requires |buf| < 2147483648
    ensures OffsetOk(buf, p) <==> RawReference(buf, p)
    ensures Target(buf, p) == p + Word(buf, p)
  {
    hide Aligned, Number, Word;
    AlignedBytes(p);
    NumberBytes(buf, p);
  }

  lemma StringIs(buf: Bytes, p: nat)
    requires |buf| < 2147483648
    ensures StringOk(buf, p) <==> RawString(buf, p)
  {
    hide Aligned, Number, Word;
    AlignedBytes(p);
    NumberBytes(buf, p);
  }

  lemma VectorIs(buf: Bytes, p: nat)
    requires |buf| < 2147483648
    ensures VectorOk(buf, p, 4) <==> RawVector(buf, p)
  {
    hide Aligned, Number, Word;
    AlignedBytes(p);
    NumberBytes(buf, p);
    assert (TWO_TO_31 - 1) / 4 == 536870911;
  }

  lemma TableIs(buf: Bytes, p: nat)
    requires |buf| < 2147483648
    ensures TableStartOk(buf, p) <==> RawTable(buf, p)
    ensures RawTable(buf, p) ==> Vtable(buf, p) == p - SignedWord(buf, p)
  {
    hide Aligned, Even, Number, Word, Half, Signed32;
    AlignedBytes(p);
    NumberBytes(buf, p);
    if p + 4 <= |buf| {
      VtableBack(p, SignedWord(buf, p));
      AlignedBytes(Vtable(buf, p));
      NumberBytes(buf, Vtable(buf, p));
      AlignedBytes(Half(buf, Vtable(buf, p)));
    }
  }

  lemma FieldIs(buf: Bytes, p: nat, slot: nat)
    requires |buf| < 2147483648 && RawTable(buf, p)
    ensures Field(buf, p, slot) == RawField(buf, p, slot)
  {
    hide TableStartOk, RawTable, Number, Word, Half, NumberOr0, Vtable;
    TableIs(buf, p);
    NumberBytes(buf, Vtable(buf, p));
    NumberBytes(buf, Vtable(buf, p) + slot);
  }

  lemma StringFieldIs(buf: Bytes, p: nat, slot: nat)
    requires |buf| < 2147483648 && RawTable(buf, p)
    ensures StringFieldOk(buf, p, slot) <==> RawStringField(buf, p, slot)
    ensures Target(buf, p + Field(buf, p, slot)) == RawTarget(buf, p, slot)
  {
    hide RawTable, Word, RawField, Field, OffsetOk, RawReference, StringOk, RawString, Target;
    FieldIs(buf, p, slot);
    ReferenceIs(buf, p + RawField(buf, p, slot));
    StringIs(buf, Target(buf, p + RawField(buf, p, slot)));
  }

  lemma ItemIs(buf: Bytes, p: nat)
    requires |buf| < 2147483648
    ensures ItemOk(buf, p) <==> RawItem(buf, p)
  {
    hide TableStartOk, StringFieldOk, RawStringField, Word, Field, RawField, Aligned;
    TableIs(buf, p);
    if RawTable(buf, p) {
      StringFieldIs(buf, p, 4);
      StringFieldIs(buf, p, 8);
      FieldIs(buf, p, 6);
      AlignedBytes(p + RawField(buf, p, 6));
    }
  }

  lemma OrderIs(buf: Bytes, p: nat)
    requires |buf| < 2147483648
    ensures OrderTableOk(buf, p) <==> RawOrder(buf, p)
    ensures RawOrder(buf, p) ==> ItemCount(buf, p) == RawCount(buf, p)
    ensures RawOrder(buf, p) && RawCount(buf, p) > 0 ==> forall j: nat :: ItemAt(buf, p, j) == RawItemPlace(buf, p, j)
  {
    hide TableStartOk, RawTable, StringFieldOk, RawStringField, Word, Field, RawField, RawTarget, OffsetOk, RawReference;
    hide VectorOk, RawVector, Target, NumberOr0;
    TableIs(buf, p);
    if RawTable(buf, p) {
      StringFieldIs(buf, p, 4);
      StringFieldIs(buf, p, 6);
      StringFieldIs(buf, p, 8);
      FieldIs(buf, p, 8);
      var vector := Target(buf, p + Field(buf, p, 8));
      ReferenceIs(buf, p + Field(buf, p, 8));
      VectorIs(buf, vector);
      NumberBytes(buf, vector);
      forall j: nat ensures Element(buf, vector, j) == vector + 4 + 4 * j + Word(buf, vector + 4 + 4 * j) {
        ReferenceIs(buf, vector + 4 + 4 * j);
      }
    }
  }

  /** The verifier accepts the sound buffers of up to 999 999 items, and no others. */
  lemma AcceptedIsSound(buf: Bytes)
    requires |buf| < 2147483648
    ensures Accepted(buf) <==> SoundBytes(buf) && RawCount(buf, Word(buf, 0)) < 1_000_000
  {
    hide OffsetOk, RawReference, OrderTableOk, RawOrder, ItemOk, RawItem, Target, Word, ItemCount, RawCount, ItemAt, RawItemPlace;
    ReferenceIs(buf, 0);
    var root := Target(buf, 0);
    OrderIs(buf, root);
    if RawOrder(buf, root) {
      forall j | 0 <= j < RawCount(buf, root) ensures ItemOk(buf, ItemAt(buf, root, j)) <==> RawItem(buf, RawItemPlace(buf, root, j)) {
        ItemIs(buf, ItemAt(buf, root, j));
      }
    }
  }
}
