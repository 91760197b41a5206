/**
 What the verifier is for: any bytes that it accepts, whoever made them, are read
 without leaving the buffer.
 */
module VerifiedReads {
  import opened Wire
  import opened FlatBuffer
  import opened FlatBuilder
  import opened Broadcast
  import opened FlatVerifier
  import opened Accessors
  import opened FlatBytes

  /** Sign-extended and in 64 bits, or in 32 bits: a vtable inside the buffer is at the same place. */
  lemma VtableSame(buf: Bytes, pos: nat)
    requires pos + 4 <= |buf| < TWO_TO_31 && Vtable(buf, pos) < |buf|
    ensures VtableOf(buf, pos) == Ok(Vtable(buf, pos))
  {
    var v := Number(buf, pos, 4).value;
    WordBound(buf, pos);
    SignedWraps(pos, v, Vtable(buf, pos));
  }

  lemma WordBound(buf: Bytes, pos: nat)
    requires pos + 4 <= |buf|
    ensures Number(buf, pos, 4).value < TWO_TO_32
  {
    DecodeFixedBound(buf[pos..pos + 4]);
    assert Pow256(4) == TWO_TO_32;
  }

  lemma SignedWraps(pos: nat, v: nat, vtable: nat)
    requires pos < TWO_TO_31 && v < TWO_TO_32 && vtable < TWO_TO_31 && (pos - Signed32(v)) % TWO_TO_64 == vtable
    ensures Wrap32(pos - v) == vtable
  {
  }

  lemma EvenBelow(a: nat, b: nat)
    requires Even(a) && Even(b) && a < b
    ensures a + 2 <= b
  {
  }

  lemma FieldSame(buf: Bytes, pos: nat, slot: nat)
    requires TableStartOk(buf, pos) && |buf| < TWO_TO_31 && Even(slot)
    ensures FieldOffset(buf, pos, slot) == Ok(Field(buf, pos, slot))
  {
    hide Vtable, VtableOf, Number, Wrap32, Even, Aligned;
    var vtable := Vtable(buf, pos);
    var length := NumberOr0(buf, vtable, 2);
    if slot < length {
      EvenBelow(slot, length);
      WrapSmall(vtable + slot);
    }
    VtableSame(buf, pos);
  }

  lemma OffsetSame(buf: Bytes, pos: nat)
    requires OffsetOk(buf, pos) && |buf| < TWO_TO_31
    ensures Indirect(buf, pos) == Ok(Target(buf, pos)) && Target(buf, pos) < |buf|
  {
    hide Wrap32, Aligned;
    WrapSmall(Target(buf, pos));
  }

  lemma VectorRead(buf: Bytes, pos: nat)
    requires StringOk(buf, pos) && |buf| < TWO_TO_31
    ensures VectorBytes(buf, pos).Ok?
  {
    hide Wrap32, Aligned;
    var length := NumberOr0(buf, pos, 4);
    WrapSmall(pos + 4);
    WrapSmall(pos + 4 + length);
  }

  lemma StringFieldRead(buf: Bytes, pos: nat, slot: nat)
    requires TableStartOk(buf, pos) && StringFieldOk(buf, pos, slot) && |buf| < TWO_TO_31 && Even(slot)
    ensures StringField(buf, pos, slot).Ok?
  {
    hide TableStartOk, FieldOffset, Field, OffsetOk, StringOk, Indirect, Target, VectorBytes, Wrap32, Even;
    FieldSame(buf, pos, slot);
    var field := Field(buf, pos, slot);
    if field != 0 {
      OffsetInside(buf, pos + field);
      WrapSmall(field + pos);
      OffsetSame(buf, pos + field);
      VectorRead(buf, Target(buf, pos + field));
    }
  }

  lemma OffsetInside(buf: Bytes, pos: nat)
    requires OffsetOk(buf, pos)
    ensures pos < |buf|
  {
  }

  lemma WordFieldRead(buf: Bytes, pos: nat, slot: nat)
    requires TableStartOk(buf, pos) && WordFieldOk(buf, pos, slot) && |buf| < TWO_TO_31 && Even(slot)
    ensures Int32Field(buf, pos, slot).Ok?
  {
    hide TableStartOk, FieldOffset, Field, Wrap32;
    FieldSame(buf, pos, slot);
    if Field(buf, pos, slot) != 0 { WrapSmall(Field(buf, pos, slot) + pos); }
  }

  lemma ItemRead(buf: Bytes, pos: nat)
    requires ItemOk(buf, pos) && |buf| < TWO_TO_31
    ensures pos < |buf| && ReadItem(buf, pos).Ok?
  {
    hide StringFieldOk, WordFieldOk, StringField, Int32Field;
    StringFieldRead(buf, pos, VT_FIRST);
    WordFieldRead(buf, pos, VT_SECOND);
    StringFieldRead(buf, pos, VT_THIRD);
  }

  lemma ItemsFieldSame(buf: Bytes, pos: nat)
    requires OrderTableOk(buf, pos) && |buf| < TWO_TO_31
    ensures FieldOffset(buf, pos, VT_THIRD) == Ok(Field(buf, pos, VT_THIRD))
  {
    FieldSame(buf, pos, VT_THIRD);
  }

  lemma VectorFound(buf: Bytes, pos: nat)
    requires OrderTableOk(buf, pos) && |buf| < TWO_TO_31 && Field(buf, pos, VT_THIRD) != 0
    ensures Indirect(buf, Wrap32(Field(buf, pos, VT_THIRD) + pos)) == Ok(Target(buf, pos + Field(buf, pos, VT_THIRD)))
    ensures VectorOk(buf, Target(buf, pos + Field(buf, pos, VT_THIRD)), 4)
  {
    hide TableStartOk, StringFieldOk, Field, OffsetOk, VectorOk, Indirect, Target, Wrap32;
    var field := Field(buf, pos, VT_THIRD);
    OffsetInside(buf, pos + field);
    WrapSmall(field + pos);
    OffsetSame(buf, pos + field);
  }

  /** The accessors count the items as the verifier does, and find each where the verifier has looked. */
  lemma ItemsSame(buf: Bytes, pos: nat)
    requires OrderTableOk(buf, pos) && |buf| < TWO_TO_31
    ensures ItemsLength(buf, pos) == Ok(ItemCount(buf, pos))
    ensures forall j :: 0 <= j < ItemCount(buf, pos) && ItemAt(buf, pos, j) < |buf| ==>
      Items(buf, pos, j) == Ok(Some(ItemAt(buf, pos, j)))
  {
    hide OrderTableOk, FieldOffset, Field, VectorOk, Indirect, Target, Number, NumberOr0, Wrap32;
    ItemsFieldSame(buf, pos);
    if Field(buf, pos, VT_THIRD) != 0 {
      VectorFound(buf, pos);
      VectorPlaces(buf, Target(buf, pos + Field(buf, pos, VT_THIRD)));
    }
  }

  lemma VectorPlaces(buf: Bytes, vector: nat)
    requires VectorOk(buf, vector, 4) && |buf| < TWO_TO_31
    ensures Number(buf, vector, 4) == Ok(NumberOr0(buf, vector, 4))
    ensures forall j :: 0 <= j < NumberOr0(buf, vector, 4) && Element(buf, vector, j) < |buf| ==>
      Indirect(buf, Wrap32(vector + 4 + 4 * j)) == Ok(Element(buf, vector, j))
  {
    hide Wrap32, Aligned;
    forall j | 0 <= j < NumberOr0(buf, vector, 4) && Element(buf, vector, j) < |buf|
      ensures Indirect(buf, Wrap32(vector + 4 + 4 * j)) == Ok(Element(buf, vector, j))
    {
      WrapSmall(vector + 4 + 4 * j);
      WrapSmall(Element(buf, vector, j));
    }
  }

  lemma {:induction false} ItemsRead(buf: Bytes, pos: nat, j: nat)
    requires OrderTableOk(buf, pos) && |buf| < TWO_TO_31 && j <= ItemCount(buf, pos)
    requires forall i :: 0 <= i < ItemCount(buf, pos) ==> ItemOk(buf, ItemAt(buf, pos, i))
    ensures ReadItems(buf, pos, j, ItemCount(buf, pos)).Ok?
    ensures |ReadItems(buf, pos, j, ItemCount(buf, pos)).value| == ItemCount(buf, pos) - j
    decreases ItemCount(buf, pos) - j
  {
    hide OrderTableOk, ItemOk, ItemCount, ItemAt, Items, ReadItem;
    if j < ItemCount(buf, pos) {
      ItemRead(buf, ItemAt(buf, pos, j));
      ItemsSame(buf, pos);
      ItemsRead(buf, pos, j + 1);
    }
  }

  /** Whatever the verifier accepts is read without a fault, and it has as many items as the verifier counted. */
  lemma AcceptedIsRead(buf: Bytes)
    requires Accepted(buf) && |buf| < TWO_TO_31
    ensures ReadOrder(buf).Ok? && |ReadOrder(buf).value.items| == ItemCount(buf, Target(buf, 0))
  {
    hide OffsetOk, StringFieldOk, ItemOk, ItemCount, ItemAt, Indirect, Target, StringField, ReadItems, ItemsLength;
    var pos := Target(buf, 0);
    OffsetSame(buf, 0);
    StringFieldRead(buf, pos, VT_FIRST);
    StringFieldRead(buf, pos, VT_SECOND);
    ItemsSame(buf, pos);
    ItemsRead(buf, pos, 0);
  }

  /** Checking a buffer, whatever is in it, and reading it only if it is accepted. */
  method VerifyAndRead(bytes: array<Byte>) returns (views: Option<seq<ItemView>>)
    requires bytes.Length < TWO_TO_31
    ensures views.Some? <==> Accepted(bytes[..])
    ensures views.Some? <==> SoundBytes(bytes[..]) && RawCount(bytes[..], Word(bytes[..], 0)) < 1_000_000
    ensures views.Some? ==> ReadOrder(bytes[..]).Ok? && views.value == ReadOrder(bytes[..]).value.items
  {
    hide Accepted, ReadOrder, ItemCount, SoundBytes, RawCount;
    AcceptedIsSound(bytes[..]);
    var verifier := new Verifier(bytes[..]);
    var ok := verifier.VerifyBuffer();
    if !ok { return None; }
    AcceptedIsRead(bytes[..]);
    var obj := new Item(bytes, 0);
    var read := ReadItemsInTurn(bytes, obj);
    views := Some(read);
  }
}
