/**
 One job of a robot, from the broadcast it receives to the report it sends: it
 picks the items of its own aisle and reports how many of each.
 */
module Robot {
  import opened Wire
  import opened Message
  import opened MapOrder
  import opened Inventory
  import opened Objects
  import opened Report
  import opened FlatBuffer
  import opened FlatBuilder
  import opened Broadcast
  import opened Accessors
  import opened Publisher
  import opened Runs

  // -------------------------------------------------------------- one robot

  datatype Job = Job(orderId: Bytes, orderType: Bytes, worked: bool, items: map<Bytes, int>)

  predicate AllNamed(views: seq<ItemView>) {
    forall k :: 0 <= k < |views| ==> views[k].sku.Some? && views[k].aisle.Some?
  }

  /** What the robot takes for granted: nothing that it dereferences is missing. */
  predicate Readable(order: Access<OrderView>) {
    order.Ok? && order.value.orderId.Some? && order.value.orderType.Some? && AllNamed(order.value.items)
  }

  /** The items of an aisle, a later one in place of an earlier one of the same name. */
  function Picked(views: seq<ItemView>, aisle: Bytes): map<Bytes, int>
    requires AllNamed(views)
  {
    if |views| == 0 then map[]
    else
      var rest, view := Picked(views[..|views| - 1], aisle), views[|views| - 1];
      if view.aisle.value == aisle then rest[view.sku.value := view.quantity] else rest
  }

  predicate WorkFor(views: seq<ItemView>, aisle: Bytes) {
    exists k :: 0 <= k < |views| && views[k].aisle == Some(aisle)
  }

  function JobOf(order: OrderView, aisle: Bytes): Job
    requires Readable(Ok(order))
  {
    Job(order.orderId.value, order.orderType.value, WorkFor(order.items, aisle), Picked(order.items, aisle))
  }

  lemma OneMore(views: seq<ItemView>, j: nat, aisle: Bytes)
    requires j < |views| && AllNamed(views)
    ensures AllNamed(views[..j]) && AllNamed(views[..j + 1])
    ensures var view := views[j];
      && Picked(views[..j + 1], aisle)
         == (if view.aisle.value == aisle then Picked(views[..j], aisle)[view.sku.value := view.quantity] else Picked(views[..j], aisle))
      && (WorkFor(views[..j + 1], aisle) <==> WorkFor(views[..j], aisle) || view.aisle.value == aisle)
  {
    assert views[..j + 1][..j] == views[..j] && views[..j + 1][j] == views[j];
    if WorkFor(views[..j], aisle) {
      var k :| 0 <= k < j && views[..j][k].aisle == Some(aisle);
      assert views[..j + 1][k].aisle == Some(aisle);
    }
  }

  /** Goes through the items of a broadcast and keeps those of its aisle. */
  method Pick(bytes: array<Byte>, aisle: Bytes) returns (job: Job)
    requires Readable(ReadOrder(bytes[..]))
    ensures job == JobOf(ReadOrder(bytes[..]).value, aisle)
  {
    hide StringField, Broadcast.Items, Broadcast.ItemsLength, Indirect, ReadItems, ReadItem, Picked, WorkFor;
    ghost var buf := bytes[..];
    ghost var views := ReadOrder(buf).value.items;
    var root := GetRootAsOrderBroadcast(bytes);
    var order := root.value;
    var orderType := order.OrderType();
    var orderId := order.OrderId();
    var worked, items := false, map[];
    var count := order.ItemsLength();
    ReadItemsLength(buf, order.pos, 0, count.value);
    NothingYet(views, aisle);
    var item := new Item(bytes, 0);
    for j := 0 to count.value
      invariant order.bytes == bytes && Ok(order.pos) == Indirect(buf, 0)
      invariant AllNamed(views[..j]) && items == Picked(views[..j], aisle) && worked == WorkFor(views[..j], aisle)
    {
      ReadItemsAt(buf, order.pos, 0, count.value, j);
      var found := order.Items(item, j);
      var view := ViewItem(item);
      if view.aisle.value == aisle {
        worked := true;
        items := items[view.sku.value := view.quantity];
      }
      OneMore(views, j, aisle);
    }
    assert views[..|views|] == views;
    job := Job(orderId.value.value, orderType.value.value, worked, items);
  }

  predicate Named(views: seq<ItemView>, aisle: Bytes, sku: Bytes) {
    exists k :: 0 <= k < |views| && views[k].sku == Some(sku) && views[k].aisle == Some(aisle)
  }

  /** Item `k` is the last of its name in the aisle. */
  predicate LastOfName(views: seq<ItemView>, aisle: Bytes, k: nat) {
    && k < |views| && views[k].aisle == Some(aisle)
    && forall l :: k < l < |views| ==> !(views[l].sku == views[k].sku && views[l].aisle == Some(aisle))
  }

  /** Just the names that an item of the aisle has, each with the quantity of the last such item. */
  lemma {:induction false} PickedItems(views: seq<ItemView>, aisle: Bytes, sku: Bytes)
    requires AllNamed(views)
    ensures sku in Picked(views, aisle) <==> Named(views, aisle, sku)
    ensures forall k: nat :: LastOfName(views, aisle, k) && views[k].sku == Some(sku)
              ==> sku in Picked(views, aisle) && Picked(views, aisle)[sku] == views[k].quantity
  {
    if |views| != 0 {
      var n := |views| - 1;
      hide Named, LastOfName, Picked, WorkFor;
      OneMore(views, n, aisle);
      assert views[..n + 1] == views;
      PickedItems(views[..n], aisle, sku);
      NamedInFront(views, aisle, sku);
      LastInFront(views, aisle);
    }
    else { assert Picked(views, aisle) == map[]; }
  }

  lemma NamedInFront(views: seq<ItemView>, aisle: Bytes, sku: Bytes)
    requires 0 < |views|
    ensures Named(views, aisle, sku) <==>
      || Named(views[..|views| - 1], aisle, sku)
      || (views[|views| - 1].sku == Some(sku) && views[|views| - 1].aisle == Some(aisle))
  {
    var front := views[..|views| - 1];
    if Named(views, aisle, sku) {
      var k :| 0 <= k < |views| && views[k].sku == Some(sku) && views[k].aisle == Some(aisle);
      if k < |front| { assert front[k] == views[k]; }
    }
    if Named(front, aisle, sku) {
      var k :| 0 <= k < |front| && front[k].sku == Some(sku) && front[k].aisle == Some(aisle);
      assert views[k] == front[k];
    }
  }

  lemma LastInFront(views: seq<ItemView>, aisle: Bytes)
    requires 0 < |views|
    ensures forall k: nat :: LastOfName(views, aisle, k) && k != |views| - 1
              ==> LastOfName(views[..|views| - 1], aisle, k) && views[..|views| - 1][k] == views[k]
                  && !(views[|views| - 1].sku == views[k].sku && views[|views| - 1].aisle == Some(aisle))
  {
  }

  lemma NothingYet(views: seq<ItemView>, aisle: Bytes)
    ensures AllNamed(views[..0]) && Picked(views[..0], aisle) == map[] && !WorkFor(views[..0], aisle)
  {
  }

  // ------------------------------------------------------------- the report

  /** "SUCCESS" and "NO_OP" */
  const SUCCESS: Bytes := [83, 85, 67, 67, 69, 83, 83]
  const NO_OP: Bytes := [78, 79, 95, 79, 80]

  function ReportFor(job: Job): ReportRec {
    ReportRec(job.orderId, if job.worked then SUCCESS else NO_OP, job.items, job.orderType, [])
  }

  /** The report as a message object, its map filled entry by entry. */
  method ReportToInventory(job: Job) returns (request: ReportJobStatusRequest)
    requires CountsOk(job.items)
    ensures fresh(request) && request.Valid() && request.Value() == ReportFor(job)
    ensures request.Value().orderId == job.orderId && request.Value().orderType == job.orderType
    ensures request.Value().status == if job.worked then [83, 85, 67, 67, 69, 83, 83] else [78, 79, 95, 79, 80]
    ensures request.Value().processedItems == job.items && request.Value().unknown == []
  {
    request := new ReportJobStatusRequest();
    request.SetOrderId(job.orderId);
    request.SetOrderType(job.orderType);
    request.SetStatus(if job.worked then SUCCESS else NO_OP);
    FillItems(request, job.items);
    assert map[] + job.items == job.items;
  }

  method FillItems(request: ReportJobStatusRequest, items: map<Bytes, int>)
    requires request.Valid() && CountsOk(items)
    modifies request
    ensures request.Valid() && request.Value() == old(request.Value()).(processedItems := old(request.Value()).processedItems + items)
  {
    hide UnknownOk, ReportJobStatusRequest.Valid, ReportJobStatusRequest.Value, Done;
    ghost var was := request.Value();
    ghost var done: map<Bytes, int> := map[];
    var todo := items.Keys;
    NothingDone(was.processedItems, items);
    while todo != {}
      invariant request.Valid() && todo <= items.Keys && Done(items, done, todo)
      invariant request.Value() == was.(processedItems := was.processedItems + done)
      decreases todo
    {
      var sku :| sku in todo;
      request.PutProcessedItem(sku, items[sku]);
      OneDone(was.processedItems, items, done, todo, sku);
      todo, done := todo - {sku}, done[sku := items[sku]];
    }
    AllDone(items, done);
  }

  // ------------------------------------------------------------ end to end

  /** The items that are kept in an aisle, with their quantities. */
  function AisleItems(items: Publisher.Items, aisle: Bytes): map<Bytes, int> {
    map sku | sku in items && items[sku].aisle == aisle :: items[sku].quantity
  }

  lemma {:induction false} PickedAreAisleItems(items: Publisher.Items, walk: seq<Bytes>, aisle: Bytes)
    requires forall k :: 0 <= k < |walk| ==> walk[k] in items
    ensures AllNamed(Views(Walked(items, walk)))
    ensures var picked := Picked(Views(Walked(items, walk)), aisle);
            forall sku :: (sku in picked <==> sku in walk && items[sku].aisle == aisle)
                          && (sku in picked ==> picked[sku] == items[sku].quantity)
  {
    if |walk| != 0 {
      var n := |walk| - 1;
      var front, views := walk[..n], Views(Walked(items, walk));
      PickedAreAisleItems(items, front, aisle);
      assert views[..n] == Views(Walked(items, front)) && views[..n + 1] == views;
      hide Picked, WorkFor;
      OneMore(views, n, aisle);
      assert walk == front + [walk[n]];
    }
  }

  /** A robot that reads the broadcast picks just the items of its aisle, in the quantities ordered. */
  lemma PicksItsAisle(items: Publisher.Items, walk: seq<Bytes>, aisle: Bytes)
    requires Enumerates(walk, items.Keys)
    ensures AllNamed(Views(Walked(items, walk)))
    ensures Picked(Views(Walked(items, walk)), aisle) == AisleItems(items, aisle)
    ensures WorkFor(Views(Walked(items, walk)), aisle) <==> AisleItems(items, aisle) != map[]
  {
    PickedAreAisleItems(items, walk, aisle);
    assert Picked(Views(Walked(items, walk)), aisle) == AisleItems(items, aisle);
    var views := Views(Walked(items, walk));
    if WorkFor(views, aisle) {
      var k :| 0 <= k < |views| && views[k].aisle == Some(aisle);
      assert walk[k] in AisleItems(items, aisle);
    }
    if AisleItems(items, aisle) != map[] {
      var sku :| sku in AisleItems(items, aisle);
      var k :| 0 <= k < |walk| && walk[k] == sku;
      assert views[k].aisle == Some(aisle);
    }
  }

  /** With a robot in every aisle each item is reported once, by the robot of its aisle, in the quantity ordered. */
  lemma EveryItemReportedOnce(items: Publisher.Items, aisles: set<Bytes>, sku: Bytes)
    requires forall sku :: sku in items ==> items[sku].aisle in aisles
    ensures sku in items <==> exists aisle :: aisle in aisles && sku in AisleItems(items, aisle)
    ensures forall aisle, aisle' :: sku in AisleItems(items, aisle) && sku in AisleItems(items, aisle') ==> aisle == aisle'
    ensures forall aisle :: sku in AisleItems(items, aisle) ==> AisleItems(items, aisle)[sku] == items[sku].quantity
  {
    if sku in items { assert sku in AisleItems(items, items[sku].aisle); }
  }

  /** The items of an aisle in the order the map is ranged over. */
  function AisleWalk(items: Publisher.Items, walk: seq<Bytes>, aisle: Bytes): (keys: seq<Bytes>)
    requires forall k :: 0 <= k < |walk| ==> walk[k] in items
    ensures forall i :: 0 <= i < |keys| ==> keys[i] in AisleItems(items, aisle) && keys[i] in walk
  {
    if |walk| == 0 then []
    else
      var rest, last := AisleWalk(items, walk[..|walk| - 1], aisle), walk[|walk| - 1];
      if items[last].aisle == aisle then rest + [last] else rest
  }

  lemma AisleWalkEnumerates(items: Publisher.Items, walk: seq<Bytes>, aisle: Bytes)
    requires Enumerates(walk, items.Keys)
    ensures Enumerates(AisleWalk(items, walk, aisle), AisleItems(items, aisle).Keys)
  {
    AisleWalkAll(items, walk, aisle);
  }

  lemma {:induction false} AisleWalkAll(items: Publisher.Items, walk: seq<Bytes>, aisle: Bytes)
    requires forall k :: 0 <= k < |walk| ==> walk[k] in items
    requires forall i, j :: 0 <= i < j < |walk| ==> walk[i] != walk[j]
    ensures forall sku :: sku in walk && items[sku].aisle == aisle ==> sku in AisleWalk(items, walk, aisle)
    ensures forall i, j :: 0 <= i < j < |AisleWalk(items, walk, aisle)|
              ==> AisleWalk(items, walk, aisle)[i] != AisleWalk(items, walk, aisle)[j]
  {
    if |walk| != 0 {
      var front := walk[..|walk| - 1];
      AisleWalkAll(items, front, aisle);
      assert walk == front + [walk[|walk| - 1]];
    }
  }

  /** What the report says of an item takes no more room than the item did in the broadcast. */
  lemma EntryFits(offset: nat, sku: Bytes, d: ItemDetails)
    requires DetailsOk(d) && |sku| < TWO_TO_31
    ensures |CountEntry(4, sku, d.quantity)| + offset <= ItemTable(offset, sku, d)
  {
    hide CountEntry, VarintSize, StringEnd;
    CountEntrySize(sku, d.quantity);
    VarintFits(|sku|);
    VarintFits(ToVarint(d.quantity));
    var inner := 2 + VarintSize(|sku|) + |sku| + VarintSize(ToVarint(d.quantity));
    VarintFits(inner);
    if d.quantity == 0 { ZeroSize(); }
  }

  lemma ZeroSize()
    ensures VarintSize(ToVarint(0)) == 1
  {
  }

  lemma {:induction false} CountsFit(items: Publisher.Items, walk: seq<Bytes>, aisle: Bytes, k: nat)
    requires Publisher.ItemsOk(items) && (forall i :: 0 <= i < |walk| ==> walk[i] in items) && k <= |walk|
    requires ItemsEnd(Walked(items, walk), k) < LIMIT
    ensures CountsOk(AisleItems(items, aisle))
    ensures |CountsField(4, AisleItems(items, aisle), AisleWalk(items, walk[..k], aisle))| <= ItemsEnd(Walked(items, walk), k)
  {
    if k != 0 {
      var sent, sku, counts := Walked(items, walk), walk[k - 1], AisleItems(items, aisle);
      ItemsEndGrows(sent, k - 1, k);
      assert walk[..k][..k - 1] == walk[..k - 1] && walk[..k][k - 1] == sku;
      hide CountsField, CountEntry, ItemTable;
      CountsFit(items, walk, aisle, k - 1);
      ItemInside(ItemsEnd(sent, k - 1), sku, items[sku]);
      EntryFits(ItemsEnd(sent, k - 1), sku, items[sku]);
      if items[sku].aisle == aisle { CountsFieldAppend(4, counts, AisleWalk(items, walk[..k - 1], aisle), sku); }
    }
  }

  lemma ItemInside(offset: nat, sku: Bytes, d: ItemDetails)
    ensures offset + |sku| <= ItemTable(offset, sku, d)
  {
  }

  lemma StrFits(num: nat, s: Bytes)
    requires num < 16 && |s| < TWO_TO_31
    ensures |StrField(num, s)| <= |s| + 6
  {
    RecLayout([], num, s, 0, 0);
    VarintFits(|s|);
  }

  /** A report on what a broadcast has room for is never too long. */
  lemma ReportFits(orderId: Bytes, orderType: Bytes, items: Publisher.Items, walk: seq<Bytes>, aisle: Bytes, keys: seq<Bytes>)
    requires Publisher.ItemsOk(items) && Enumerates(walk, items.Keys)
    requires SizeOf(orderId, orderType, Walked(items, walk)) + 4 < 0x4000_0000
    requires Enumerates(keys, AisleItems(items, aisle).Keys)
    ensures var v := ReportFor(Job(orderId, orderType, AisleItems(items, aisle) != map[], AisleItems(items, aisle)));
            v.Ok() && |v.Encoded(keys)| < TWO_TO_31
  {
    hide SizeOf, ItemsEnd, CountsField, StrField, Enumerates, AisleWalk, AisleItems, UnknownOk, CountsOk, Walked;
    KeysListed(walk, items.Keys);
    var counts, mine := AisleItems(items, aisle), AisleWalk(items, walk, aisle);
    var v := ReportFor(Job(orderId, orderType, counts != map[], counts));
    SentFits(orderId, orderType, Walked(items, walk));
    CountsFit(items, walk, aisle, |walk|);
    assert walk[..|walk|] == walk;
    AisleWalkEnumerates(items, walk, aisle);
    NoUnknown(REPORT_REQUEST);
    KeysListed(keys, counts.Keys);
    KeysListed(mine, counts.Keys);
    ReportSizeSame(v, keys, mine);
    StrFits(1, orderId);
    StrFits(3, v.status);
    StrFits(5, orderType);
    assert forall i :: 0 <= i < |mine| ==> mine[i] in v.processedItems;
    assert |v.Encoded(mine)|
      == |StrField(1, orderId)| + |StrField(3, v.status)| + |CountsField(4, counts, mine)| + |StrField(5, orderType)|;
  }

  lemma SentFits(orderId: Bytes, orderType: Bytes, sent: seq<Sent>)
    requires SizeOf(orderId, orderType, sent) + 4 < LIMIT
    ensures ItemsEnd(sent, |sent|) + |orderId| + |orderType| < LIMIT
  {
    hide StringEnd, VectorEnd, FinishEnd, ItemsEnd;
  }

  /** What the report holds, field by field. */
  lemma ReportFields(orderId: Bytes, orderType: Bytes, items: Publisher.Items, aisle: Bytes)
    ensures var m := ReportFor(Job(orderId, orderType, AisleItems(items, aisle) != map[], AisleItems(items, aisle))).ToMsg();
      && |m.vals| == 4 && m.vals[0] == VStr(orderId) && m.vals[3] == VStr(orderType) && m.unknown == []
      && ((exists sku :: sku in items && items[sku].aisle == aisle) ==> m.vals[1] == VStr([83, 85, 67, 67, 69, 83, 83]))
      && (!(exists sku :: sku in items && items[sku].aisle == aisle) ==> m.vals[1] == VStr([78, 79, 95, 79, 80]))
      && m.vals[2].VMap? && (forall sku :: sku in m.vals[2].entries <==> sku in items && items[sku].aisle == aisle)
      && forall sku :: sku in m.vals[2].entries ==> m.vals[2].entries[sku] == VInt(items[sku].quantity)
  {
    var mine := AisleItems(items, aisle);
    if sku :| sku in items && items[sku].aisle == aisle { assert sku in mine; }
    if mine != map[] {
      var sku :| sku in mine;
      assert sku in items && items[sku].aisle == aisle;
    }
  }

  lemma ReportFitsOrdered(orderId: Bytes, orderType: Bytes, items: Publisher.Items, walk: seq<Bytes>, aisle: Bytes, ord: Order)
    requires Publisher.ItemsOk(items) && Enumerates(walk, items.Keys) && ValidOrder(ord)
    requires SizeOf(orderId, orderType, Walked(items, walk)) + 4 < 0x4000_0000
    ensures var v := ReportFor(Job(orderId, orderType, AisleItems(items, aisle) != map[], AisleItems(items, aisle)));
            v.Ok() && IsMsg(REPORT_REQUEST, v.ToMsg()) && |Serialize(REPORT_REQUEST, v.ToMsg(), ord)| < TWO_TO_31
  {
    hide SizeOf, Walked, AisleItems, UnknownOk, ReportRec.Encoded, Serialize, IsMsg;
    var counts := AisleItems(items, aisle);
    ReportFits(orderId, orderType, items, walk, aisle, ord(counts.Keys));
    ReportSize(ReportFor(Job(orderId, orderType, counts != map[], counts)), ord, ord(counts.Keys));
  }

  /** The report on the wire, unless it is too long. */
  method WriteReport(job: Job, ghost ord: Order) returns (report: Bytes)
    requires CountsOk(job.items) && ValidOrder(ord) && IsMsg(REPORT_REQUEST, ReportFor(job).ToMsg())
    requires |Serialize(REPORT_REQUEST, ReportFor(job).ToMsg(), ord)| < TWO_TO_31
    ensures ValidSchema(REPORT_REQUEST) && Parse(REPORT_REQUEST, report) == Some(ReportFor(job).ToMsg())
  {
    hide Parse, UnknownOk, IsMsg, Enumerates, ReportFor, Serialize, ReportRec.Encoded;
    var request := ReportToInventory(job);
    var sizing := Walk(request.impl.processedItems.Keys);
    var writing := Walk(request.impl.processedItems.Keys);
    ReportSize(request.Value(), ord, sizing);
    var written := request.SerializeToBytes(false, sizing, writing);
    report := written.value;
  }

  /**
   From the publisher through the robot to whoever parses the report: the report
   is on the order that was sent, and has just the items of the robot's aisle, in
   the quantities ordered, whatever order each map is walked in.
   */
  method RunJob(orderId: Bytes, orderType: Bytes, items: Publisher.Items, walk: seq<Bytes>, aisle: Bytes) returns (report: Bytes)
    requires Publisher.ItemsOk(items) && Enumerates(walk, items.Keys)
    requires SizeOf(orderId, orderType, Walked(items, walk)) + 4 < 0x4000_0000
    ensures ValidSchema(REPORT_REQUEST)
    ensures var mine := AisleItems(items, aisle);
      Parse(REPORT_REQUEST, report) == Some(ReportFor(Job(orderId, orderType, mine != map[], mine)).ToMsg())
    ensures var fields := Parse(REPORT_REQUEST, report).value.vals;
      && |fields| == 4 && fields[0] == VStr(orderId) && fields[3] == VStr(orderType)
      && ((exists sku :: sku in items && items[sku].aisle == aisle) ==> fields[1] == VStr([83, 85, 67, 67, 69, 83, 83]))
      && (!(exists sku :: sku in items && items[sku].aisle == aisle) ==> fields[1] == VStr([78, 79, 95, 79, 80]))
      && fields[2].VMap? && (forall sku :: sku in fields[2].entries <==> sku in items && items[sku].aisle == aisle)
      && forall sku :: sku in fields[2].entries ==> fields[2].entries[sku] == VInt(items[sku].quantity)
    ensures Parse(REPORT_REQUEST, report).value.unknown == []
  {
    ReportFields(orderId, orderType, items, aisle);
    hide Written, ReadOrder, SizeOf, Parse, UnknownOk, Enumerates, Picked, WorkFor, AisleItems, Walked, Received, Serialize;
    hide IsMsg, ReadBytes.Tells, FlatVerifier.Accepted, DefaultsLeftOut;
    var payload, at := SendRobotCommand(orderId, orderType, items, walk);
    PicksItsAisle(items, walk, aisle);
    var bytes := new Byte[|payload|](i requires 0 <= i < |payload| => payload[i]);
    assert bytes[..] == payload;
    var job := Pick(bytes, aisle);
    WalkingValid([], {});
    ghost var ord := Walking([], {});
    ReportFitsOrdered(orderId, orderType, items, walk, aisle, ord);
    report := WriteReport(job, ord);
  }
}
