/** SendRobotCommand: a map of items goes out, and the accessors give that map back. */
module Publisher {
  import opened Wire
  import opened Message
  import opened MapOrder
  import opened FlatBuffer
  import opened FlatBuilder
  import opened Broadcast
  import opened FlatVerifier
  import opened ReadBytes

  type Items = map<Bytes, ItemDetails>

  predicate ItemsOk(items: Items) {
    forall sku :: sku in items ==> DetailsOk(items[sku])
  }

  /** The items of the map in the order it is ranged over. */
  function Walked(items: Items, walk: seq<Bytes>): (sent: seq<Sent>)
    requires forall k :: 0 <= k < |walk| ==> walk[k] in items
    ensures |sent| == |walk|
    ensures forall k :: 0 <= k < |walk| ==> sent[k] == Sent(walk[k], items[walk[k]])
  {
    seq(|walk|, k requires 0 <= k < |walk| => Sent(walk[k], items[walk[k]]))
  }

  /** The map a robot can make of the items it reads. */
  function Received(views: seq<ItemView>): Items {
    if |views| == 0 then map[]
    else
      var rest, view := Received(views[..|views| - 1]), views[|views| - 1];
      if view.sku.Some? && view.aisle.Some? then rest[view.sku.value := ItemDetails(view.quantity, view.aisle.value)] else rest
  }

  lemma OneReceived(views: seq<ItemView>, sku: Bytes, d: ItemDetails)
    ensures Received(views + [ItemView(Some(sku), d.quantity, Some(d.aisle))]) == Received(views)[sku := d]
  {
    var all := views + [ItemView(Some(sku), d.quantity, Some(d.aisle))];
    assert all[..|all| - 1] == views;
  }

  lemma {:induction false} ReceivedWalked(items: Items, walk: seq<Bytes>)
    requires forall k :: 0 <= k < |walk| ==> walk[k] in items
    ensures var got := Received(Views(Walked(items, walk)));
            (forall sku :: sku in got <==> sku in walk) && forall sku :: sku in got ==> sku in items && got[sku] == items[sku]
  {
    if |walk| != 0 {
      hide Received;
      var front, last := walk[..|walk| - 1], walk[|walk| - 1];
      ReceivedWalked(items, front);
      OneReceived(Views(Walked(items, front)), last, items[last]);
      assert Views(Walked(items, walk)) == Views(Walked(items, front)) + [View(Sent(last, items[last]))];
      assert walk == front + [last];
    }
  }

  /** However the map is ranged over, no item is lost or doubled, and each keeps its own quantity and aisle. */
  lemma EveryItemOnce(items: Items, walk: seq<Bytes>)
    requires Enumerates(walk, items.Keys)
    ensures Received(Views(Walked(items, walk))) == items
    ensures forall i, j :: 0 <= i < j < |walk| ==> Views(Walked(items, walk))[i].sku != Views(Walked(items, walk))[j].sku
  {
    ReceivedWalked(items, walk);
  }

  /**
   Builds the broadcast, ranging over the map in the order of `walk`.  The generated
   verifier accepts it if it is not too long, and the accessors give back the
   order and the items.
   */
  method SendRobotCommand(orderId: Bytes, orderType: Bytes, items: Items, walk: seq<Bytes>)
    returns (payload: Bytes, ghost at: OrderLayout)
    requires ItemsOk(items) && Enumerates(walk, items.Keys)
    requires SizeOf(orderId, orderType, Walked(items, walk)) + 4 < 0x4000_0000
    ensures |payload| == SizeOf(orderId, orderType, Walked(items, walk))
    ensures Written(payload, at, orderId, orderType, Walked(items, walk)) && DefaultsLeftOut(at.ats, Walked(items, walk))
    ensures ReadOrder(payload) == Ok(OrderView(Some(orderId), Some(orderType), Views(Walked(items, walk))))
    ensures var read := ReadOrder(payload).value.items;
      |read| == |walk| && forall j :: 0 <= j < |walk| ==>
        read[j] == ItemView(Some(walk[j]), items[walk[j]].quantity, Some(items[walk[j]].aisle))
    ensures Received(ReadOrder(payload).value.items) == items
    ensures Tells(payload, orderId, orderType, Walked(items, walk))
    ensures Accepted(payload) <==> |items| < 1_000_000
  {
    hide Written, Accepted, ReadOrder, Received, Tells;
    var sent := Walked(items, walk);
    payload, at := Send(orderId, orderType, sent, false);
    WrittenAccepted(payload, at, orderId, orderType, sent);
    SentBytes(payload, at, orderId, orderType, sent);
    EveryItemOnce(items, walk);
    EnumerationLength(walk, items.Keys);
  }

  // ------------------------------------------- broadcasts that are refused

  /** `n` items whose names are the numbers below n. */
  function ManyItems(n: nat): Items {
    map name | name in ManyNames(n) :: ItemDetails(0, [])
  }

  function ManyNames(n: nat): (walk: seq<Bytes>)
    ensures |walk| == n
  {
    seq(n, i requires 0 <= i < n => EncodeFixed(i, 3))
  }

  function ManySent(n: nat): (sent: seq<Sent>)
    ensures |sent| == n
  {
    Walked(ManyItems(n), ManyNames(n))
  }

  lemma ManyNamesEnumerate(n: nat)
    requires n <= 0x100_0000
    ensures Enumerates(ManyNames(n), ManyItems(n).Keys)
  {
    var walk := ManyNames(n);
    assert Pow256(3) == 256 * (256 * Pow256(1));
    forall i, j | 0 <= i < j < n ensures walk[i] != walk[j] {
      DecodeFixedOfEncode(i, 3);
      DecodeFixedOfEncode(j, 3);
    }
  }

  lemma {:induction false} ManyItemsEnd(sent: seq<Sent>, k: nat)
    requires k <= |sent| && forall i :: 0 <= i < |sent| ==> |sent[i].sku| == 3 && |sent[i].details.aisle| == 0
    ensures ItemsEnd(sent, k) <= 45 * k
  {
    if k > 0 { ManyItemsEnd(sent, k - 1); }
  }

  /**
   Maps of any number of items up to 2 to the 24 can be sent, so that broadcasts
   are sent of a million items and more, and these the generated verifier refuses.
   */
  lemma ManyItemsSent(n: nat)
    requires n <= 0x100_0000
    ensures ItemsOk(ManyItems(n)) && |ManyItems(n)| == n && Enumerates(ManyNames(n), ManyItems(n).Keys)
    ensures SizeOf([], [], ManySent(n)) + 4 < 0x4000_0000
  {
    ManyNamesEnumerate(n);
    EnumerationLength(ManyNames(n), ManyItems(n).Keys);
    var sent := ManySent(n);
    hide ManyNames, StringEnd, VectorEnd, FinishEnd;
    ManyItemsEnd(sent, n);
  }

  /** Broadcasts of 999 999 items and of a million are sent; whatever bytes they take, the one is accepted and the other refused. */
  lemma MillionRefused(payload: Bytes, at: OrderLayout, fewer: Bytes, at': OrderLayout)
    requires Written(payload, at, [], [], ManySent(1_000_000))
    requires Written(fewer, at', [], [], ManySent(999_999))
    ensures ItemsOk(ManyItems(1_000_000)) && Enumerates(ManyNames(1_000_000), ManyItems(1_000_000).Keys)
    ensures SizeOf([], [], ManySent(1_000_000)) + 4 < 0x4000_0000
    ensures ItemsOk(ManyItems(999_999)) && Enumerates(ManyNames(999_999), ManyItems(999_999).Keys)
    ensures SizeOf([], [], ManySent(999_999)) + 4 < 0x4000_0000
    ensures !Accepted(payload) && Accepted(fewer)
  {
    hide Written, Accepted, SizeOf, ManyNames, ManySent, ManyItems;
    ManyItemsSent(1_000_000);
    ManyItemsSent(999_999);
    WrittenAccepted(payload, at, [], [], ManySent(1_000_000));
    WrittenAccepted(fewer, at', [], [], ManySent(999_999));
  }

  /**
   The builder functions in C++ add the fields of a table in the opposite order, and
   their builder compares whole vtables, the object size included.  The layout
   differs, but not its size, nor what is read.
   */
  method CreateOrderBroadcast(orderId: Bytes, orderType: Bytes, sent: seq<Sent>) returns (payload: Bytes, ghost at: OrderLayout)
    requires SentOk(sent) && SizeOf(orderId, orderType, sent) + 4 < 0x4000_0000
    ensures |payload| == SizeOf(orderId, orderType, sent)
    ensures Written(payload, at, orderId, orderType, sent) && DefaultsLeftOut(at.ats, sent)
    ensures ReadOrder(payload) == Ok(OrderView(Some(orderId), Some(orderType), Views(sent)))
    ensures Tells(payload, orderId, orderType, sent)
    ensures Accepted(payload) <==> |sent| < 1_000_000
  {
    hide Written, Accepted, ReadOrder, Tells;
    payload, at := Send(orderId, orderType, sent, true);
    WrittenAccepted(payload, at, orderId, orderType, sent);
    SentBytes(payload, at, orderId, orderType, sent);
  }
}
