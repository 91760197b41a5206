/**
 Runs over whole messages: what was received is parsed into an object, written
 from it, and received again.
 */
module Runs {
  import opened Wire
  import opened Message
  import opened MapOrder
  import opened Inventory
  import opened Objects
  import opened Report
  import opened Availability
  import opened AvailabilityParse

  /** An order in which a map may be walked: any one at all. */
  method Walk(keys: set<Bytes>) returns (walk: seq<Bytes>)
    ensures Enumerates(walk, keys)
  {
    walk := [];
    var todo := keys;
    while todo != {}
      invariant todo <= keys && Enumerates(walk, keys - todo)
      decreases todo
    {
      var key :| key in todo;
      assert forall i :: 0 <= i < |walk| ==> walk[i] in keys - todo;
      walk, todo := walk + [key], todo - {key};
    }
    assert keys - {} == keys;
  }

  lemma ReportDefault()
    ensures ValidSchema(REPORT_REQUEST) && ReportRec([], [], map[], [], []).ToMsg() == Default(REPORT_REQUEST)
  {
    ReportRequestValid();
    var m, s := Default(REPORT_REQUEST), REPORT_REQUEST;
    assert s.fields[0].kind == Str && s.fields[1].kind == Str && s.fields[2].kind == Map(PROCESSED_ENTRY) && s.fields[3].kind == Str;
    assert CountsVals(map[]) == map[];
    assert m.vals == ReportRec([], [], map[], [], []).ToMsg().vals;
  }

  /**
   What was received as a report is sent on in deterministic mode, its map walked in
   one order to size it and in another to write it.
   */
  method SendReport(x: Bytes, ghost ord: Order) returns (result: Option<Bytes>, ghost walk: seq<Bytes>)
    requires ValidOrder(ord)
    ensures ValidSchema(REPORT_REQUEST)
    ensures result.Some? <==>
      Parse(REPORT_REQUEST, x).Some? && |Serialize(REPORT_REQUEST, Parse(REPORT_REQUEST, x).value, ord)| < TWO_TO_31
    ensures result.Some? ==> Enumerates(walk, ReportOf(Parse(REPORT_REQUEST, x).value).processedItems.Keys)
    ensures result.Some? ==> result.value == ReportBytes(ReportOf(Parse(REPORT_REQUEST, x).value), true, walk)
  {
    hide UnknownOk, ParseInto, IsMsg, ValidSchema, StringOk, ReportBytes, ReportRec.Encoded, Serialize;
    ReportDefault();
    walk := [];
    var msg := new ReportJobStatusRequest();
    var ok := msg.MergeFromBytes(x);
    if !ok { return None, walk; }
    ReportOfMsg(msg.Value());
    var sizing := Walk(msg.impl.processedItems.Keys);
    var writing := Walk(msg.impl.processedItems.Keys);
    ReportSize(msg.Value(), ord, sizing);
    result := msg.SerializeToBytes(true, sizing, writing);
    walk := writing;
  }

  lemma ReportSize(v: ReportRec, ord: Order, walk: seq<Bytes>)
    requires v.Ok() && ValidOrder(ord) && Enumerates(walk, v.processedItems.Keys)
    ensures IsMsg(REPORT_REQUEST, v.ToMsg()) && |Serialize(REPORT_REQUEST, v.ToMsg(), ord)| == |v.Encoded(walk)|
  {
    ReportEncoding(v, ord);
    ReportSizeSame(v, walk, ord(v.processedItems.Keys));
  }

  /**
   Two programs in turn, each with maps of its own: the second writes the bytes it
   has received, which are the normal form of what the first one received.
   */
  method SendReportTwice(x: Bytes, ghost ord: Order) returns (first: Option<Bytes>, second: Option<Bytes>)
    requires ValidOrder(ord)
    ensures ValidSchema(REPORT_REQUEST)
    ensures first.Some? <==>
      Parse(REPORT_REQUEST, x).Some? && |Serialize(REPORT_REQUEST, Parse(REPORT_REQUEST, x).value, ord)| < TWO_TO_31
    ensures first.Some? ==> Parse(REPORT_REQUEST, first.value) == Parse(REPORT_REQUEST, x)
    ensures second == first
  {
    hide UnknownOk, Parse, IsMsg, ValidSchema, ReportBytes, Serialize;
    ghost var walk, walk';
    first, walk := SendReport(x, ord);
    if first.None? { return None, None; }
    ReportWrittenSize(x, ord, walk);
    second, walk' := SendReport(first.value, ord);
    ReportNormalised(x, walk, walk');
  }

  lemma ReportWrittenSize(x: Bytes, ord: Order, walk: seq<Bytes>)
    requires ValidSchema(REPORT_REQUEST) && ValidOrder(ord) && Parse(REPORT_REQUEST, x).Some?
    requires Enumerates(walk, ReportOf(Parse(REPORT_REQUEST, x).value).processedItems.Keys)
    requires |Serialize(REPORT_REQUEST, Parse(REPORT_REQUEST, x).value, ord)| < TWO_TO_31
    ensures |ReportBytes(ReportOf(Parse(REPORT_REQUEST, x).value), true, walk)| < TWO_TO_31
    ensures Parse(REPORT_REQUEST, ReportBytes(ReportOf(Parse(REPORT_REQUEST, x).value), true, walk)) == Parse(REPORT_REQUEST, x)
  {
    var v := ReportOf(Parse(REPORT_REQUEST, x).value);
    hide UnknownOk, Parse, IsMsg;
    SortKeysEnumerates(walk, v.processedItems.Keys);
    ReportSize(v, ord, SortKeys(walk));
    ReportRoundTrip(v, SortKeys(walk));
  }

  lemma AvailabilityDefault()
    ensures ValidSchema(AVAILABILITY_RESPONSE) && AvailabilityRec(map[], []).ToMsg() == Default(AVAILABILITY_RESPONSE)
  {
    AvailabilityValid();
    var m, s := Default(AVAILABILITY_RESPONSE), AVAILABILITY_RESPONSE;
    assert s.fields[0].kind == Map(ITEMS_ENTRY);
    assert StockVals(map[]) == map[];
    assert m.vals == AvailabilityRec(map[], []).ToMsg().vals;
  }

  /** Likewise what was received as a map of stock levels. */
  method SendAvailability(x: Bytes, ghost ord: Order) returns (result: Option<Bytes>, ghost walk: seq<Bytes>)
    requires ValidOrder(ord)
    ensures ValidSchema(AVAILABILITY_RESPONSE)
    ensures result.Some? <==>
      Parse(AVAILABILITY_RESPONSE, x).Some? && |Serialize(AVAILABILITY_RESPONSE, Parse(AVAILABILITY_RESPONSE, x).value, ord)| < TWO_TO_31
    ensures result.Some? ==> Enumerates(walk, AvailabilityOf(Parse(AVAILABILITY_RESPONSE, x).value).items.Keys)
    ensures result.Some? ==> result.value == AvailabilityBytes(AvailabilityOf(Parse(AVAILABILITY_RESPONSE, x).value), true, walk)
  {
    hide AvailabilityOf, Listed, StockLevelRec.Ok;
    hide UnknownOk, ParseInto, IsMsg, ValidSchema, StockLevel.Valid, StockLevel.Value, StockOwned, StockValues, StockOk, MapOk;
    hide Enumerates, AvailabilityBytes, AvailabilityRec.Encoded, AvailabilityRec.ToMsg, Serialize;
    AvailabilityDefault();
    walk := [];
    var msg := new CheckAvailabilityResponse();
    var ok := ParseResponse(msg, x);
    if !ok { return None, walk; }
    StockValuesAt(msg.impl.items, msg.owned);
    AvailabilityOfMsg(msg.Value());
    var sizing := Walk(msg.impl.items.Keys);
    var writing := Walk(msg.impl.items.Keys);
    AvailabilitySize(msg.Value(), ord, sizing);
    result := msg.SerializeToBytes(true, sizing, writing);
    walk := writing;
  }

  lemma AvailabilitySize(v: AvailabilityRec, ord: Order, walk: seq<Bytes>)
    requires v.Ok() && ValidOrder(ord) && Enumerates(walk, v.items.Keys)
    ensures IsMsg(AVAILABILITY_RESPONSE, v.ToMsg()) && |Serialize(AVAILABILITY_RESPONSE, v.ToMsg(), ord)| == |v.Encoded(walk)|
  {
    AvailabilityEncoding(v, ord);
    AvailabilitySizeSame(v, walk, ord(v.items.Keys));
  }

  /** Likewise for a map to messages. */
  method SendAvailabilityTwice(x: Bytes, ghost ord: Order) returns (first: Option<Bytes>, second: Option<Bytes>)
    requires ValidOrder(ord)
    ensures ValidSchema(AVAILABILITY_RESPONSE)
    ensures first.Some? <==>
      Parse(AVAILABILITY_RESPONSE, x).Some? && |Serialize(AVAILABILITY_RESPONSE, Parse(AVAILABILITY_RESPONSE, x).value, ord)| < TWO_TO_31
    ensures first.Some? ==> Parse(AVAILABILITY_RESPONSE, first.value) == Parse(AVAILABILITY_RESPONSE, x)
    ensures second == first
  {
    hide UnknownOk, Parse, IsMsg, ValidSchema, AvailabilityBytes, Serialize;
    ghost var walk, walk';
    first, walk := SendAvailability(x, ord);
    if first.None? { return None, None; }
    AvailabilityWrittenSize(x, ord, walk);
    second, walk' := SendAvailability(first.value, ord);
    AvailabilityNormalised(x, walk, walk');
  }

  lemma AvailabilityWrittenSize(x: Bytes, ord: Order, walk: seq<Bytes>)
    requires ValidSchema(AVAILABILITY_RESPONSE) && ValidOrder(ord) && Parse(AVAILABILITY_RESPONSE, x).Some?
    requires Enumerates(walk, AvailabilityOf(Parse(AVAILABILITY_RESPONSE, x).value).items.Keys)
    requires |Serialize(AVAILABILITY_RESPONSE, Parse(AVAILABILITY_RESPONSE, x).value, ord)| < TWO_TO_31
    ensures |AvailabilityBytes(AvailabilityOf(Parse(AVAILABILITY_RESPONSE, x).value), true, walk)| < TWO_TO_31
    ensures Parse(AVAILABILITY_RESPONSE, AvailabilityBytes(AvailabilityOf(Parse(AVAILABILITY_RESPONSE, x).value), true, walk))
            == Parse(AVAILABILITY_RESPONSE, x)
  {
    var v := AvailabilityOf(Parse(AVAILABILITY_RESPONSE, x).value);
    hide UnknownOk, Parse, IsMsg;
    SortKeysEnumerates(walk, v.items.Keys);
    AvailabilitySize(v, ord, SortKeys(walk));
    AvailabilityRoundTrip(v, SortKeys(walk));
  }
}
