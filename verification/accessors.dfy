/** The accessor objects: a buffer and a place in it, which can be pointed somewhere else. */
module Accessors {
  import opened Wire
  import opened FlatBuffer
  import opened FlatBuilder
  import opened Broadcast
  import opened FlatVerifier
  import opened Mutate

  /** Whether a mutation found a field to write to. */
  function Found(mutated: Access<Option<Bytes>>): Access<bool> {
    if mutated.Ok? then Ok(mutated.value.Some?) else OutOfRange
  }

  /** The buffer after a mutation, the one before it when there was nothing to write to. */
  function After(mutated: Access<Option<Bytes>>, before: Bytes): Bytes {
    if mutated.Ok? && mutated.value.Some? then mutated.value.value else before
  }

  class Item {
    var bytes: array<Byte>
    var pos: nat

    constructor (bytes: array<Byte>, pos: nat)
      ensures this.bytes == bytes && this.pos == pos
    {
      new;
      Init(bytes, pos);
    }

    method Init(bytes: array<Byte>, pos: nat)
      modifies this
      ensures this.bytes == bytes && this.pos == pos
    {
      this.bytes, this.pos := bytes, pos;
    }

    method Sku() returns (sku: Access<Option<Bytes>>)
      ensures sku == StringField(bytes[..], pos, VT_FIRST)
    {
      sku := ReadString(bytes, pos, VT_FIRST);
    }

    method Quantity() returns (quantity: Access<int>)
      ensures quantity == Int32Field(bytes[..], pos, VT_SECOND)
    {
      hide FieldOffset, Number, Wrap32, Signed32;
      var offset := FieldOffset(bytes[..], pos, VT_SECOND);
      if offset.OutOfRange? { return OutOfRange; }
      if offset.value == 0 { return Ok(0); }
      var v := Number(bytes[..], Wrap32(offset.value + pos), 4);
      quantity := if v.Ok? then Ok(Signed32(v.value)) else OutOfRange;
    }

    method Aisle() returns (aisle: Access<Option<Bytes>>)
      ensures aisle == StringField(bytes[..], pos, VT_THIRD)
    {
      aisle := ReadString(bytes, pos, VT_THIRD);
    }

    /** Writes over a stored quantity; a quantity that is not stored cannot be changed. */
    method MutateQuantity(x: int) returns (r: Access<bool>)
      modifies bytes
      ensures r == Found(SlotMutated(old(bytes[..]), pos, VT_SECOND, x))
      ensures bytes[..] == After(SlotMutated(old(bytes[..]), pos, VT_SECOND, x), old(bytes[..]))
    {
      hide FieldOffset, Wrap32, EncodeFixed, Patched;
      var offset := FieldOffset(bytes[..], pos, VT_SECOND);
      if offset.OutOfRange? { return OutOfRange; }
      if offset.value == 0 { return Ok(false); }
      var place := Wrap32(pos + offset.value);
      if place + 4 > bytes.Length { return OutOfRange; }
      WriteBytes(bytes, place, EncodeFixed(Wrap32(x), 4));
      r := Ok(true);
    }
  }

  class OrderBroadcast {
    var bytes: array<Byte>
    var pos: nat

    constructor (bytes: array<Byte>, pos: nat)
      ensures this.bytes == bytes && this.pos == pos
    {
      this.bytes, this.pos := bytes, pos;
    }

    method OrderId() returns (orderId: Access<Option<Bytes>>)
      ensures orderId == StringField(bytes[..], pos, VT_FIRST)
    {
      orderId := ReadString(bytes, pos, VT_FIRST);
    }

    method OrderType() returns (orderType: Access<Option<Bytes>>)
      ensures orderType == StringField(bytes[..], pos, VT_SECOND)
    {
      orderType := ReadString(bytes, pos, VT_SECOND);
    }

    /** Points `obj` at item `j`; false, and `obj` as it was, when there is no vector of items. */
    method Items(obj: Item, j: nat) returns (r: Access<bool>)
      modifies obj
      ensures match Broadcast.Items(bytes[..], pos, j)
              case OutOfRange => r == OutOfRange && obj.bytes == old(obj.bytes) && obj.pos == old(obj.pos)
              case Ok(None) => r == Ok(false) && obj.bytes == old(obj.bytes) && obj.pos == old(obj.pos)
              case Ok(Some(at)) => r == Ok(true) && obj.bytes == bytes && obj.pos == at
    {
      hide FieldOffset, Indirect, Number, Wrap32;
      var offset := FieldOffset(bytes[..], pos, VT_THIRD);
      if offset.OutOfRange? { return OutOfRange; }
      if offset.value == 0 { return Ok(false); }
      var vector := Indirect(bytes[..], Wrap32(offset.value + pos));
      if vector.OutOfRange? { return OutOfRange; }
      var x := Indirect(bytes[..], Wrap32(vector.value + 4 + 4 * j));
      if x.OutOfRange? { return OutOfRange; }
      obj.Init(bytes, x.value);
      r := Ok(true);
    }

    method ItemsLength() returns (length: Access<nat>)
      ensures length == Broadcast.ItemsLength(bytes[..], pos)
    {
      hide FieldOffset, Indirect, Number, Wrap32;
      var offset := FieldOffset(bytes[..], pos, VT_THIRD);
      if offset.OutOfRange? { return OutOfRange; }
      if offset.value == 0 { return Ok(0); }
      var vector := Indirect(bytes[..], Wrap32(offset.value + pos));
      if vector.OutOfRange? { return OutOfRange; }
      length := Number(bytes[..], vector.value, 4);
    }
  }

  method ReadString(bytes: array<Byte>, pos: nat, slot: nat) returns (s: Access<Option<Bytes>>)
    ensures s == StringField(bytes[..], pos, slot)
  {
    hide FieldOffset, ByteVector, Wrap32;
    var offset := FieldOffset(bytes[..], pos, slot);
    if offset.OutOfRange? { return OutOfRange; }
    if offset.value == 0 { return Ok(None); }
    var vector := ByteVector(bytes[..], Wrap32(offset.value + pos));
    s := if vector.Ok? then Ok(Some(vector.value)) else OutOfRange;
  }

  method WriteBytes(buf: array<Byte>, pos: nat, bs: Bytes)
    requires pos + |bs| <= buf.Length
    modifies buf
    ensures buf[..] == Patched(old(buf[..]), pos, bs)
  {
    ghost var was := buf[..];
    for i := 0 to |bs|
      invariant forall j :: pos <= j < pos + i ==> buf[j] == bs[j - pos]
      invariant forall j :: 0 <= j < pos || pos + i <= j < buf.Length ==> buf[j] == was[j]
    {
      buf[pos + i] := bs[i];
    }
    Overwritten(buf[..], was, pos, bs);
  }

  /** The root of a buffer. */
  method GetRootAsOrderBroadcast(bytes: array<Byte>) returns (root: Option<OrderBroadcast>)
    ensures root.Some? <==> Indirect(bytes[..], 0).Ok?
    ensures root.Some? ==> root.value.bytes == bytes && Ok(root.value.pos) == Indirect(bytes[..], 0)
  {
    var pos := Indirect(bytes[..], 0);
    if pos.OutOfRange? { return None; }
    var order := new OrderBroadcast(bytes, pos.value);
    root := Some(order);
  }

  /**
   Reading an order item by item, with one object that is pointed at each in turn,
   gives what is there to be read.  Nothing is read out of bounds if the order as
   a whole is not.
   */
  method ReadItemsInTurn(bytes: array<Byte>, obj: Item) returns (views: seq<ItemView>)
    requires ReadOrder(bytes[..]).Ok?
    modifies obj
    ensures views == ReadOrder(bytes[..]).value.items
  {
    hide StringField, Int32Field, Broadcast.Items, Broadcast.ItemsLength, Indirect, ReadItems, ReadItem;
    ghost var buf := bytes[..];
    var root := GetRootAsOrderBroadcast(bytes);
    var order := root.value;
    var count := order.ItemsLength();
    ghost var items := ReadOrder(buf).value.items;
    ReadItemsLength(buf, order.pos, 0, count.value);
    views := [];
    for j := 0 to count.value
      invariant order.bytes == bytes && Ok(order.pos) == Indirect(buf, 0)
      invariant views == items[..j]
    {
      ReadItemsAt(buf, order.pos, 0, count.value, j);
      var found := order.Items(obj, j);
      var view := ViewItem(obj);
      views := views + [view];
    }
  }

  method ViewItem(obj: Item) returns (view: ItemView)
    requires ReadItem(obj.bytes[..], obj.pos).Ok?
    ensures Ok(view) == ReadItem(obj.bytes[..], obj.pos)
  {
    hide StringField, Int32Field;
    var sku := obj.Sku();
    var quantity := obj.Quantity();
    var aisle := obj.Aisle();
    view := ItemView(sku.value, quantity.value, aisle.value);
  }

  lemma {:induction false} ReadItemsLength(buf: Bytes, pos: nat, j: nat, count: nat)
    requires j <= count && ReadItems(buf, pos, j, count).Ok?
    ensures |ReadItems(buf, pos, j, count).value| == count - j
    decreases count - j
  {
    hide ReadItem, Broadcast.Items;
    if j < count { ReadItemsLength(buf, pos, j + 1, count); }
  }

  lemma {:induction false} ReadItemsAt(buf: Bytes, pos: nat, j: nat, count: nat, k: nat)
    requires j <= k < count && ReadItems(buf, pos, j, count).Ok?
    ensures |ReadItems(buf, pos, j, count).value| == count - j
    ensures Broadcast.Items(buf, pos, k).Ok? && Broadcast.Items(buf, pos, k).value.Some?
    ensures ReadItem(buf, Broadcast.Items(buf, pos, k).value.value) == Ok(ReadItems(buf, pos, j, count).value[k - j])
    decreases k - j
  {
    hide ReadItem, Broadcast.Items;
    ReadItemsLength(buf, pos, j, count);
    if j < k { ReadItemsAt(buf, pos, j + 1, count, k); }
  }

  lemma RootPlace(buf: Bytes, at: OrderLayout, orderId: Bytes, orderType: Bytes, sent: seq<Sent>)
    requires Written(buf, at, orderId, orderType, sent)
    ensures at.n <= |buf| && Indirect(buf, 0) == Ok(|buf| - at.n)
    ensures Broadcast.ItemsLength(buf, |buf| - at.n) == Ok(|sent|)
  {
    hide OrderHolds, Indirect, VtablesClear, ItemsSpaced, OrderSpaced, RefAt, Broadcast.ItemsLength;
    LengthReads(buf, at, orderId, orderType, sent);
    OrderInside(buf, at, orderId, orderType, sent);
    RefRead(buf, |buf|, at.n);
  }

  /**
   Finds item `j` of a finished broadcast and changes its quantity in place: done
   exactly when a quantity is stored, and then it is all that changes.  What is
   left is a finished broadcast, laid out as before, which the verifier accepts
   as it did and which can be changed again.  As it was sent, the quantities that
   are stored are those other than 0.
   */
  method MutateItem(bytes: array<Byte>, obj: Item, j: nat, x: int, ghost at: OrderLayout, ghost orderId: Bytes,
                    ghost orderType: Bytes, ghost sent: seq<Sent>) returns (done: bool)
    requires Written(bytes[..], at, orderId, orderType, sent) && j < |sent| && -TWO_TO_31 <= x < TWO_TO_31
    modifies obj, bytes
    ensures done <==> Stored(at, j)
    ensures DefaultsLeftOut(at.ats, sent) ==> (done <==> sent[j].details.quantity != 0)
    ensures !done ==> bytes[..] == old(bytes[..])
    ensures Written(bytes[..], at, orderId, orderType, SentAfter(at, sent, j, x))
    ensures ReadOrder(bytes[..]) == Ok(OrderView(Some(orderId), Some(orderType), Views(SentAfter(at, sent, j, x))))
    ensures Accepted(bytes[..]) <==> |sent| < 1_000_000
  {
    hide Written, ReadOrder, SentAfter, Views, Accepted, Stored;
    StoredAsSent(at, sent, j);
    ghost var after := SentAfter(at, sent, j, x);
    PointAt(bytes, obj, j, at, orderId, orderType, sent);
    done := MutatePointed(bytes, obj, j, x, at, orderId, orderType, sent);
    WrittenReads(bytes[..], at, orderId, orderType, after);
    WrittenAccepted(bytes[..], at, orderId, orderType, after);
  }

  lemma StoredAsSent(at: OrderLayout, sent: seq<Sent>, j: nat)
    requires j < |sent|
    ensures DefaultsLeftOut(at.ats, sent) ==> (Stored(at, j) <==> sent[j].details.quantity != 0)
  {
    assert DefaultsLeftOut(at.ats, sent) ==> DefaultLeftOut(at.ats[j], sent[j].details);
  }

  method MutatePointed(bytes: array<Byte>, obj: Item, j: nat, x: int, ghost at: OrderLayout, ghost orderId: Bytes,
                       ghost orderType: Bytes, ghost sent: seq<Sent>) returns (done: bool)
    requires Written(bytes[..], at, orderId, orderType, sent) && j < |sent| && -TWO_TO_31 <= x < TWO_TO_31
    requires |at.ats| == |sent| && at.ats[j].n <= bytes.Length && obj.bytes == bytes && obj.pos == bytes.Length - at.ats[j].n
    modifies bytes
    ensures done <==> Stored(at, j)
    ensures !done ==> bytes[..] == old(bytes[..])
    ensures Written(bytes[..], at, orderId, orderType, SentAfter(at, sent, j, x))
  {
    hide Written, SlotMutated, SentAfter, Found, After, Stored;
    MutateOutcome(bytes[..], at, orderId, orderType, sent, j, x);
    var r := obj.MutateQuantity(x);
    done := r.value;
  }

  /** The items as they read afterwards: another quantity at `j`, if one is stored there. */
  function SentAfter(at: OrderLayout, sent: seq<Sent>, j: nat, x: int): (r: seq<Sent>)
    requires j < |sent|
    ensures |r| == |sent|
  {
    if Stored(at, j) then Requantified(sent, j, x) else sent
  }

  /** Points `obj` at item `j` through the root. */
  method PointAt(bytes: array<Byte>, obj: Item, j: nat, ghost at: OrderLayout, ghost orderId: Bytes, ghost orderType: Bytes,
                 ghost sent: seq<Sent>)
    requires Written(bytes[..], at, orderId, orderType, sent) && j < |sent|
    modifies obj
    ensures |at.ats| == |sent| && at.ats[j].n <= bytes.Length
    ensures obj.bytes == bytes && obj.pos == bytes.Length - at.ats[j].n
  {
    hide Written, Broadcast.Items, Indirect;
    ghost var buf := bytes[..];
    RootPlace(buf, at, orderId, orderType, sent);
    ItemPlace(buf, at, orderId, orderType, sent, j);
    var root := GetRootAsOrderBroadcast(bytes);
    var found := root.value.Items(obj, j);
  }

  lemma MutateOutcome(buf: Bytes, at: OrderLayout, orderId: Bytes, orderType: Bytes, sent: seq<Sent>, j: nat, x: int)
    requires Written(buf, at, orderId, orderType, sent) && j < |sent| && -TWO_TO_31 <= x < TWO_TO_31
    ensures |at.ats| == |sent| && at.ats[j].n <= |buf|
    ensures var mutated := SlotMutated(buf, |buf| - at.ats[j].n, VT_SECOND, x);
      && Found(mutated) == Ok(Stored(at, j))
      && (!Stored(at, j) ==> After(mutated, buf) == buf)
      && Written(After(mutated, buf), at, orderId, orderType, SentAfter(at, sent, j, x))
  {
    hide Written, SlotMutated;
    QuantityMutated(buf, at, orderId, orderType, sent, j, x);
  }
}
