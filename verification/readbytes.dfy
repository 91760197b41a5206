/** What the accessors say of a sound buffer, and what the publisher puts into one, byte by byte and in all. */
module ReadBytes {
  import opened Wire
  import opened FlatBuffer
  import opened FlatBuilder
  import opened Broadcast
  import opened FlatVerifier
  import opened VerifiedReads
  import opened Accessors
  import opened FlatBytes

  /** The bytes of a string field, none when it is absent. */
  function StringContent(buf: Bytes, p: int, slot: nat): Option<Bytes>
    requires RawStringField(buf, p, slot)
  {
    if RawField(buf, p, slot) == 0 then None
    else
      var at := RawTarget(buf, p, slot);
      Some(buf[at + 4..at + 4 + Word(buf, at)])
  }

  function QuantityContent(buf: Bytes, p: int): int {
    if RawField(buf, p, 6) == 0 then 0 else SignedWord(buf, p + RawField(buf, p, 6))
  }

  function ItemContent(buf: Bytes, p: int): ItemView
    requires RawItem(buf, p)
  {
    ItemView(StringContent(buf, p, 4), QuantityContent(buf, p), StringContent(buf, p, 8))
  }

  // --------------------------------------------------------------- accessors

  lemma StringContentRead(buf: Bytes, at: nat)
    requires |buf| < 2147483648 && RawString(buf, at)
    ensures VectorBytes(buf, at) == Ok(buf[at + 4..at + 4 + Word(buf, at)])
  {
    hide Wrap32, Word, Number;
    NumberBytes(buf, at);
    WrapSmall(at + 4);
    WrapSmall(at + 4 + Word(buf, at));
  }

  lemma StringFieldContent(buf: Bytes, p: nat, slot: nat)
    requires |buf| < 2147483648 && RawTable(buf, p) && RawStringField(buf, p, slot) && Even(slot)
    ensures StringField(buf, p, slot) == Ok(StringContent(buf, p, slot))
  {
    hide TableStartOk, RawTable, FieldOffset, Field, RawField, Word, RawString, VectorBytes, Indirect, OffsetOk, Wrap32, Even;
    TableIs(buf, p);
    FieldSame(buf, p, slot);
    FieldIs(buf, p, slot);
    var place := p + RawField(buf, p, slot);
    if RawField(buf, p, slot) != 0 {
      WrapSmall(place);
      ReferenceIs(buf, place);
      OffsetSame(buf, place);
      StringContentRead(buf, RawTarget(buf, p, slot));
    }
  }

  lemma QuantityRead(buf: Bytes, p: nat)
    requires |buf| < 2147483648 && RawItem(buf, p)
    ensures Int32Field(buf, p, 6) == Ok(QuantityContent(buf, p))
  {
    hide TableStartOk, FieldOffset, Field, RawField, RawStringField, SignedWord, Number, Wrap32, Signed32;
    TableIs(buf, p);
    FieldSame(buf, p, 6);
    FieldIs(buf, p, 6);
    NumberBytes(buf, p + RawField(buf, p, 6));
    WrapSmall(p + RawField(buf, p, 6));
  }

  lemma ItemContentRead(buf: Bytes, p: nat)
    requires |buf| < 2147483648 && RawItem(buf, p)
    ensures ReadItem(buf, p) == Ok(ItemContent(buf, p))
  {
    hide StringField, Int32Field, RawTable, RawStringField, StringContent, QuantityContent;
    QuantityRead(buf, p);
    StringFieldContent(buf, p, 4);
    StringFieldContent(buf, p, 8);
  }

  lemma RootContent(buf: Bytes)
    requires |buf| < 2147483648 && SoundBytes(buf)
    ensures var root := Word(buf, 0);
      && Indirect(buf, 0) == Ok(root) && ItemsLength(buf, root) == Ok(RawCount(buf, root))
      && ReadOrder(buf).Ok? && |ReadOrder(buf).value.items| == RawCount(buf, root)
      && ReadOrder(buf).value.orderId == StringContent(buf, root, 4) && ReadOrder(buf).value.orderType == StringContent(buf, root, 6)
  {
    hide RawReference, OffsetOk, OrderTableOk, RawItem, ItemOk, Target, Word, ItemCount, RawCount, ItemAt, RawItemPlace;
    hide Indirect, ItemsLength, ReadItems, StringField, RawTable, RawStringField, StringContent, RawField, RawVector;
    var root := Word(buf, 0);
    ReferenceIs(buf, 0);
    OffsetSame(buf, 0);
    OrderIs(buf, root);
    ItemsSame(buf, root);
    StringFieldContent(buf, root, 4);
    StringFieldContent(buf, root, 6);
    forall j | 0 <= j < ItemCount(buf, root) ensures ItemOk(buf, ItemAt(buf, root, j)) {
      ItemIs(buf, ItemAt(buf, root, j));
    }
    VerifiedReads.ItemsRead(buf, root, 0);
  }

  lemma ItemsContent(buf: Bytes, j: nat)
    requires |buf| < 2147483648 && SoundBytes(buf) && j < RawCount(buf, Word(buf, 0))
    ensures ReadOrder(buf).Ok? && j < |ReadOrder(buf).value.items|
    ensures ReadOrder(buf).value.items[j] == ItemContent(buf, RawItemPlace(buf, Word(buf, 0), j))
  {
    hide RawReference, OrderTableOk, RawOrder, RawItem, ItemOk, ItemContent, Word, ItemCount, RawCount, ItemAt, RawItemPlace;
    hide Indirect, ItemsLength, ReadItems, StringField, StringContent, Items, ReadItem;
    var root := Word(buf, 0);
    RootContent(buf);
    OrderIs(buf, root);
    ItemsSame(buf, root);
    ReadItemsAt(buf, root, 0, RawCount(buf, root), j);
    var place := RawItemPlace(buf, root, j);
    ItemContentRead(buf, place);
    ItemIs(buf, place);
    VerifiedReads.ItemRead(buf, place);
  }

  /** The accessors give the strings, the count and the items that are there in bytes. */
  lemma SoundIsRead(buf: Bytes)
    requires |buf| < 2147483648 && SoundBytes(buf)
    ensures ReadOrder(buf).Ok?
    ensures var root, order := Word(buf, 0), ReadOrder(buf).value;
      && order.orderId == StringContent(buf, root, 4) && order.orderType == StringContent(buf, root, 6)
      && |order.items| == RawCount(buf, root)
      && forall j :: 0 <= j < |order.items| ==> order.items[j] == ItemContent(buf, RawItemPlace(buf, root, j))
  {
    hide RawReference, OffsetOk, OrderTableOk, RawOrder, Word, ReadOrder, RawCount, RawItemPlace, RawItem, ItemContent, StringContent;
    var root := Word(buf, 0);
    RootContent(buf);
    forall j | 0 <= j < RawCount(buf, root)
      ensures ReadOrder(buf).value.items[j] == ItemContent(buf, RawItemPlace(buf, root, j))
    {
      ItemsContent(buf, j);
    }
  }

  /** The string lies wholly inside the buffer, behind its length, at a multiple of 4, and a zero follows it. */
  ghost predicate Terminated(buf: Bytes, s: Bytes) {
    exists p :: StringIn(buf, p, s)
  }

  predicate StringIn(buf: Bytes, p: nat, s: Bytes) {
    p % 4 == 0 && p + 4 + |s| < |buf| && Word(buf, p) == |s| && buf[p + 4..p + 4 + |s|] == s && buf[p + 4 + |s|] == 0
  }

  lemma ContentTerminated(buf: Bytes, p: int, slot: nat)
    requires RawStringField(buf, p, slot) && StringContent(buf, p, slot).Some?
    ensures Terminated(buf, StringContent(buf, p, slot).value)
  {
    hide Word, RawField, RawTarget;
    assert StringIn(buf, RawTarget(buf, p, slot), StringContent(buf, p, slot).value);
  }

  /** Every string that is read from an accepted buffer, whoever made it, is terminated. */
  lemma AcceptedTerminated(buf: Bytes)
    requires |buf| < 2147483648 && Accepted(buf)
    ensures ReadOrder(buf).Ok? && |ReadOrder(buf).value.items| < 1_000_000
    ensures var order := ReadOrder(buf).value;
      && (order.orderId.Some? ==> Terminated(buf, order.orderId.value))
      && (order.orderType.Some? ==> Terminated(buf, order.orderType.value))
      && forall j :: 0 <= j < |order.items| ==>
           && (order.items[j].sku.Some? ==> Terminated(buf, order.items[j].sku.value))
           && (order.items[j].aisle.Some? ==> Terminated(buf, order.items[j].aisle.value))
  {
    hide Accepted, ReadOrder, StringContent, RawStringField, RawTable, Word, RawField, RawCount, RawItemPlace, RawReference, RawTarget;
    hide QuantityContent, Terminated;
    AcceptedIsSound(buf);
    SoundIsRead(buf);
    var root, order := Word(buf, 0), ReadOrder(buf).value;
    if order.orderId.Some? { ContentTerminated(buf, root, 4); }
    if order.orderType.Some? { ContentTerminated(buf, root, 6); }
    forall j | 0 <= j < |order.items|
      ensures order.items[j].sku.Some? ==> Terminated(buf, order.items[j].sku.value)
      ensures order.items[j].aisle.Some? ==> Terminated(buf, order.items[j].aisle.value)
    {
      var place := RawItemPlace(buf, root, j);
      if order.items[j].sku.Some? { ContentTerminated(buf, place, 4); }
      if order.items[j].aisle.Some? { ContentTerminated(buf, place, 8); }
    }
  }

  // ----------------------------------------------------------- what was sent

  lemma WrittenSound(buf: Bytes, at: OrderLayout, orderId: Bytes, orderType: Bytes, sent: seq<Sent>)
    requires Written(buf, at, orderId, orderType, sent)
    ensures |buf| < 2147483648 && SoundBytes(buf) && Word(buf, 0) == |buf| - at.n && RawCount(buf, Word(buf, 0)) == |sent|
  {
    hide Written, OrderHolds, RefAt, Aligned, OffsetOk, RawReference, OrderTableOk, RawOrder, ItemOk, RawItem, Target, Word;
    hide ItemCount, RawCount, ItemAt, RawItemPlace;
    WrittenFacts(buf, at, orderId, orderType, sent);
    RefAccepted(buf, |buf|, at.n);
    OrderAccepted(buf, at, orderId, orderType, sent);
    EveryItemAccepted(buf, at, orderId, orderType, sent, |buf| - at.n);
    ReferenceIs(buf, 0);
    var root := Word(buf, 0);
    OrderIs(buf, root);
    forall j | 0 <= j < RawCount(buf, root) ensures RawItem(buf, RawItemPlace(buf, root, j)) {
      ItemIs(buf, ItemAt(buf, root, j));
    }
  }

  /**
   The broadcast as it lies in its bytes: order id, type and items under their
   slots, each string between its length and a zero, each number with the lowest
   byte first.
   */
  ghost predicate Tells(buf: Bytes, orderId: Bytes, orderType: Bytes, sent: seq<Sent>) {
    && SoundBytes(buf)
    && var root := Word(buf, 0);
       && StringContent(buf, root, 4) == Some(orderId) && StringContent(buf, root, 6) == Some(orderType)
       && RawCount(buf, root) == |sent|
       && forall j :: 0 <= j < |sent| ==>
            var place := RawItemPlace(buf, root, j);
            && StringContent(buf, place, 4) == Some(sent[j].sku) && QuantityContent(buf, place) == sent[j].details.quantity
            && StringContent(buf, place, 8) == Some(sent[j].details.aisle)
  }

  /** What is written tells in bytes what was sent. */
  lemma SentBytes(buf: Bytes, at: OrderLayout, orderId: Bytes, orderType: Bytes, sent: seq<Sent>)
    requires Written(buf, at, orderId, orderType, sent)
    ensures Tells(buf, orderId, orderType, sent) && Word(buf, 0) == |buf| - at.n
  {
    hide Written, RawReference, RawOrder, RawItem, Word, RawCount, RawItemPlace, StringContent, QuantityContent, ReadOrder;
    WrittenSound(buf, at, orderId, orderType, sent);
    WrittenReads(buf, at, orderId, orderType, sent);
    SoundIsRead(buf);
    forall j | 0 <= j < |sent|
      ensures ItemContent(buf, RawItemPlace(buf, Word(buf, 0), j))
              == ItemView(Some(sent[j].sku), sent[j].details.quantity, Some(sent[j].details.aisle))
    {
      assert ReadOrder(buf).value.items[j] == View(sent[j]);
    }
  }

  // ------------------------------------------------------------------ layout

  /** A string takes its length, its bytes and a zero, a vector its length and its elements; each is filled up to a multiple of 4. */
  lemma PartSizes(offset: nat, n: nat)
    ensures StringEnd(offset, n) % 4 == 0 && offset + n + 5 <= StringEnd(offset, n) < offset + n + 9
    ensures VectorEnd(offset, n) % 4 == 0 && offset + 4 * n + 4 <= VectorEnd(offset, n) < offset + 4 * n + 8
    ensures FinishEnd(offset) % 4 == 0 && offset + 4 <= FinishEnd(offset) < offset + 8
  {
  }

  /** An item takes its two strings and a table of two words or three, and with it a vtable of 10 bytes if it is the first of its kind. */
  lemma ItemSizes(sent: seq<Sent>, item: Sent)
    ensures ItemsEnd([], 0) == 0
    ensures ItemsEnd(sent + [item], |sent| + 1)
            == StringEnd(StringEnd(ItemsEnd(sent, |sent|), |item.sku|), |item.details.aisle|)
               + (if item.details.quantity == 0 then 12 else 16)
               + (if exists k :: 0 <= k < |sent| && (sent[k].details.quantity == 0 <==> item.details.quantity == 0) then 0 else 10)
  {
    hide StringEnd;
    ItemsEndSame(sent, item, |sent|);
    SeenMeans(sent, item, |sent|, item.details.quantity != 0);
    assert (sent + [item])[|sent|] == item;
  }

  lemma {:induction false} ItemsEndSame(sent: seq<Sent>, item: Sent, k: nat)
    requires k <= |sent|
    ensures ItemsEnd(sent + [item], k) == ItemsEnd(sent, k)
  {
    hide StringEnd;
    if k > 0 {
      ItemsEndSame(sent, item, k - 1);
      SeenMeans(sent, item, k - 1, sent[k - 1].details.quantity != 0);
    }
  }

  lemma {:induction false} SeenMeans(sent: seq<Sent>, item: Sent, k: nat, stored: bool)
    requires k <= |sent|
    ensures Seen(sent, k, stored) <==> exists i :: 0 <= i < k && (sent[i].details.quantity != 0) == stored
    ensures Seen(sent + [item], k, stored) <==> Seen(sent, k, stored)
  {
    if k > 0 { SeenMeans(sent, item, k - 1, stored); }
  }

  /** The order takes the vector, two strings, a table of four words and perhaps a vtable; in front of it, filled up, its offset. */
  lemma OrderSizes(orderId: Bytes, orderType: Bytes, sent: seq<Sent>)
    ensures SizeOf(orderId, orderType, sent)
            == FinishEnd(StringEnd(StringEnd(VectorEnd(ItemsEnd(sent, |sent|), |sent|), |orderId|), |orderType|) + 16
                         + (if exists k :: 0 <= k < |sent| && sent[k].details.quantity != 0 then 0 else 10))
  {
    hide StringEnd, VectorEnd, FinishEnd, ItemsEnd;
    SeenMeans(sent, Sent([], ItemDetails(0, [])), |sent|, true);
  }
}
