/**
 The law the wire format is built on, for each message: encodings set one behind
 the other parse to what merging the messages gives.
 */
module MessageLaws {
  import opened Wire
  import opened Message
  import opened Codec
  import opened MapOrder
  import opened Inventory

  lemma SomeOrder(ord: Order)
    requires ord == Walking([], {})
    ensures ValidOrder(ord)
  {
    WalkingValid([], {});
  }

  lemma StockLevelsJoined(a: StockLevelRec, b: StockLevelRec)
    requires a.Ok() && b.Ok() && |a.Encoded()| < TWO_TO_31 && |b.Encoded()| < TWO_TO_31
    ensures ValidSchema(STOCK_LEVEL) && Parse(STOCK_LEVEL, a.Encoded() + b.Encoded()) == Some(a.Merged(b).ToMsg())
  {
    hide Serialize, Merge, Parse, StockLevelRec.Encoded, UnknownOk;
    var ord := Walking([], {});
    SomeOrder(ord);
    TimestampValid();
    StockLevelEncoding(a, ord);
    StockLevelEncoding(b, ord);
    ConcatIsMerge(STOCK_LEVEL, a.ToMsg(), b.ToMsg(), ord, ord);
    StockLevelMerge(a, b);
  }

  lemma RestockItemsJoined(a: RestockItemRec, b: RestockItemRec)
    requires a.Ok() && b.Ok() && |a.Encoded()| < TWO_TO_31 && |b.Encoded()| < TWO_TO_31
    ensures ValidSchema(RESTOCK_ITEM) && Parse(RESTOCK_ITEM, a.Encoded() + b.Encoded()) == Some(a.Merged(b).ToMsg())
  {
    hide Serialize, Merge, Parse, RestockItemRec.Encoded, UnknownOk;
    var ord := Walking([], {});
    SomeOrder(ord);
    RestockItemValid();
    RestockItemEncoding(a, ord);
    RestockItemEncoding(b, ord);
    ConcatIsMerge(RESTOCK_ITEM, a.ToMsg(), b.ToMsg(), ord, ord);
    RestockItemMerge(a, b);
  }

  lemma RestockRequestsJoined(a: RestockRequestRec, b: RestockRequestRec)
    requires a.Ok() && b.Ok() && |a.Encoded()| < TWO_TO_31 && |b.Encoded()| < TWO_TO_31
    ensures ValidSchema(RESTOCK_REQUEST) && Parse(RESTOCK_REQUEST, a.Encoded() + b.Encoded()) == Some(a.Merged(b).ToMsg())
  {
    hide Serialize, Merge, Parse, RestockRequestRec.Encoded, UnknownOk;
    var ord := Walking([], {});
    SomeOrder(ord);
    RestockRequestValid();
    RestockRequestEncoding(a, ord);
    RestockRequestEncoding(b, ord);
    ConcatIsMerge(RESTOCK_REQUEST, a.ToMsg(), b.ToMsg(), ord, ord);
    RestockRequestMerge(a, b);
  }

  /** Each of the two maps may be walked in any order. */
  lemma ReportsJoined(a: ReportRec, b: ReportRec, walkA: seq<Bytes>, walkB: seq<Bytes>)
    requires a.Ok() && Enumerates(walkA, a.processedItems.Keys) && |a.Encoded(walkA)| < TWO_TO_31
    requires b.Ok() && Enumerates(walkB, b.processedItems.Keys) && |b.Encoded(walkB)| < TWO_TO_31
    ensures ValidSchema(REPORT_REQUEST)
    ensures Parse(REPORT_REQUEST, a.Encoded(walkA) + b.Encoded(walkB)) == Some(a.Merged(b).ToMsg())
  {
    hide Serialize, Merge, Parse, ReportRec.Encoded, UnknownOk, CountsOk;
    var ordA, ordB := Walking(walkA, a.processedItems.Keys), Walking(walkB, b.processedItems.Keys);
    WalkingValid(walkA, a.processedItems.Keys);
    WalkingValid(walkB, b.processedItems.Keys);
    ReportRequestValid();
    ReportEncoding(a, ordA);
    ReportEncoding(b, ordB);
    ConcatIsMerge(REPORT_REQUEST, a.ToMsg(), b.ToMsg(), ordA, ordB);
    ReportMerge(a, b);
  }

  lemma AvailabilitiesJoined(a: AvailabilityRec, b: AvailabilityRec, walkA: seq<Bytes>, walkB: seq<Bytes>)
    requires a.Ok() && Enumerates(walkA, a.items.Keys) && |a.Encoded(walkA)| < TWO_TO_31
    requires b.Ok() && Enumerates(walkB, b.items.Keys) && |b.Encoded(walkB)| < TWO_TO_31
    ensures ValidSchema(AVAILABILITY_RESPONSE)
    ensures Parse(AVAILABILITY_RESPONSE, a.Encoded(walkA) + b.Encoded(walkB)) == Some(a.Merged(b).ToMsg())
  {
    hide Serialize, Merge, Parse, AvailabilityRec.Encoded, UnknownOk, StockOk;
    var ordA, ordB := Walking(walkA, a.items.Keys), Walking(walkB, b.items.Keys);
    WalkingValid(walkA, a.items.Keys);
    WalkingValid(walkB, b.items.Keys);
    AvailabilityValid();
    AvailabilityEncoding(a, ordA);
    AvailabilityEncoding(b, ordB);
    ConcatIsMerge(AVAILABILITY_RESPONSE, a.ToMsg(), b.ToMsg(), ordA, ordB);
    AvailabilityMerge(a, b);
  }

  lemma SkusJoined(a: SkusRec, b: SkusRec)
    requires a.Ok() && b.Ok() && |a.Encoded()| < TWO_TO_31 && |b.Encoded()| < TWO_TO_31
    ensures ValidSchema(AVAILABILITY_REQUEST)
    ensures Parse(AVAILABILITY_REQUEST, a.Encoded() + b.Encoded()) == Some(a.Merged(b).ToMsg())
  {
    hide Serialize, Merge, Parse, SkusRec.Encoded, UnknownOk;
    var ord := Walking([], {});
    SomeOrder(ord);
    AvailabilityValid();
    SkusEncoding(a, ord);
    SkusEncoding(b, ord);
    ConcatIsMerge(AVAILABILITY_REQUEST, a.ToMsg(), b.ToMsg(), ord, ord);
    SkusMerge(a, b);
  }

  // ------------------------------------------------- what a merge leaves where

  lemma TimestampMergedFields(a: TimestampRec, b: TimestampRec)
    ensures a.Merged(b).seconds == if b.seconds == 0 then a.seconds else b.seconds
    ensures a.Merged(b).nanos == if b.nanos == 0 then a.nanos else b.nanos
    ensures a.Merged(b).unknown == a.unknown + b.unknown
  {
  }

  /** A field of the source that is set wins; dates merge when both are there. */
  lemma RestockItemMergedFields(a: RestockItemRec, b: RestockItemRec)
    ensures a.Merged(b).sku == if |b.sku| == 0 then a.sku else b.sku
    ensures a.Merged(b).name == if |b.name| == 0 then a.name else b.name
    ensures a.Merged(b).aisleType == if |b.aisleType| == 0 then a.aisleType else b.aisleType
    ensures a.Merged(b).quantity == if b.quantity == 0 then a.quantity else b.quantity
    ensures a.Merged(b).unitCost == if b.unitCost == 0 then a.unitCost else b.unitCost
    ensures b.mfdDate == None ==> a.Merged(b).mfdDate == a.mfdDate
    ensures a.mfdDate == None ==> a.Merged(b).mfdDate == b.mfdDate
    ensures a.mfdDate.Some? && b.mfdDate.Some? ==> a.Merged(b).mfdDate == Some(a.mfdDate.value.Merged(b.mfdDate.value))
    ensures b.expiryDate == None ==> a.Merged(b).expiryDate == a.expiryDate
    ensures a.expiryDate == None ==> a.Merged(b).expiryDate == b.expiryDate
    ensures a.expiryDate.Some? && b.expiryDate.Some? ==> a.Merged(b).expiryDate == Some(a.expiryDate.value.Merged(b.expiryDate.value))
    ensures a.Merged(b).unknown == a.unknown + b.unknown
  {
  }

  lemma RestockRequestMergedFields(a: RestockRequestRec, b: RestockRequestRec)
    ensures a.Merged(b).orderId == if |b.orderId| == 0 then a.orderId else b.orderId
    ensures a.Merged(b).items[..|a.items|] == a.items && a.Merged(b).items[|a.items|..] == b.items
    ensures a.Merged(b).unknown == a.unknown + b.unknown
  {
  }

  /** Of a key that both maps have the source's value is taken. */
  lemma ReportMergedFields(a: ReportRec, b: ReportRec, key: Bytes)
    ensures a.Merged(b).orderId == if |b.orderId| == 0 then a.orderId else b.orderId
    ensures a.Merged(b).status == if |b.status| == 0 then a.status else b.status
    ensures a.Merged(b).orderType == if |b.orderType| == 0 then a.orderType else b.orderType
    ensures key in a.Merged(b).processedItems <==> key in a.processedItems || key in b.processedItems
    ensures key in b.processedItems ==> a.Merged(b).processedItems[key] == b.processedItems[key]
    ensures key in a.processedItems && key !in b.processedItems ==> a.Merged(b).processedItems[key] == a.processedItems[key]
    ensures a.Merged(b).unknown == a.unknown + b.unknown
  {
  }

  lemma AvailabilityMergedFields(a: AvailabilityRec, b: AvailabilityRec, key: Bytes)
    ensures key in a.Merged(b).items <==> key in a.items || key in b.items
    ensures key in b.items ==> a.Merged(b).items[key] == b.items[key]
    ensures key in a.items && key !in b.items ==> a.Merged(b).items[key] == a.items[key]
    ensures a.Merged(b).unknown == a.unknown + b.unknown
  {
  }

  lemma StockLevelMergedFields(a: StockLevelRec, b: StockLevelRec)
    ensures a.Merged(b).sku == if |b.sku| == 0 then a.sku else b.sku
    ensures a.Merged(b).name == if |b.name| == 0 then a.name else b.name
    ensures a.Merged(b).aisleType == if |b.aisleType| == 0 then a.aisleType else b.aisleType
    ensures a.Merged(b).quantity == if b.quantity == 0 then a.quantity else b.quantity
    ensures a.Merged(b).unknown == a.unknown + b.unknown
  {
  }

  lemma SkusMergedFields(a: SkusRec, b: SkusRec)
    ensures a.Merged(b).skus[..|a.skus|] == a.skus && a.Merged(b).skus[|a.skus|..] == b.skus
    ensures a.Merged(b).unknown == a.unknown + b.unknown
  {
  }
}
