/**
 The messages in bytes: which bytes each field is written as, and what each record
 of a message, given as bytes, does to the fields when it is parsed.
 */
module MessageBytes {
  import opened Wire
  import opened WireBytes
  import opened Message
  import opened Codec
  import opened Inventory
  import opened ItemParse
  import opened Restock
  import opened CountParse
  import opened AvailabilityParse

  lemma SmallTag(n: nat)
    requires n < 128
    ensures EncodeVarint(n) == [n]
  {
  }

  /** The records of fields below 16, whose tags take one byte. */
  lemma ShortRecords(num: nat, v: nat, s: Bytes)
    requires num < 15
    ensures EncodeRec(Len(num, s)) == [8 * num + 2] + EncodeVarint(|s|) + s
    ensures EncodeRec(Varint(num, v)) == [8 * num] + EncodeVarint(v)
    ensures EncodeRec(Fixed64(num, v)) == [8 * num + 1] + EncodeFixed(v, 8)
  {
    RecordBytes(num, v, s, []);
    SmallTag(8 * num);
    SmallTag(8 * num + 1);
    SmallTag(8 * num + 2);
  }

  /** Bytes that are one record, or two. */
  lemma OneRecord(s: Schema, m: Msg, r: Rec)
    requires ValidSchema(s) && IsMsg(s, m) && ValidRec(r)
    ensures ParseInto(s, m, EncodeRec(r)) == Apply(s, m, r)
  {
    hide Apply, ApplyAll, ReadRecs, EncodeRec;
    ReadRecsWhole([r]);
    EncodeOne(r);
    ApplyAllOne(s, m, r);
  }

  lemma TwoRecords(s: Schema, m: Msg, r: Rec, r': Rec)
    requires ValidSchema(s) && IsMsg(s, m) && ValidRec(r) && ValidRec(r')
    ensures ParseInto(s, m, EncodeRec(r) + EncodeRec(r'))
         == match Apply(s, m, r) case None => None case Some(m') => Apply(s, m', r')
  {
    hide Apply, ApplyAll, ReadRecs, EncodeRec;
    ReadRecsWhole([r, r']);
    EncodeRecsAppend([r], [r']);
    EncodeOne(r);
    EncodeOne(r');
    assert [r] + [r'] == [r, r'];
    ApplyAllTwo(s, m, r, r');
  }

  /** The int32 that a varint stands for is the one with its low 32 bits. */
  lemma SameInt32(n: nat, q: int)
    requires -TWO_TO_31 <= q < TWO_TO_31 && (q - n) % 4294967296 == 0
    ensures FromVarint32(n) == q
  {
    IntegerRead(n);
  }

  lemma SameInt64(n: nat, q: int)
    requires n < TWO_TO_64 && -TWO_TO_63 <= q < TWO_TO_63 && (q - n) % 18446744073709551616 == 0
    ensures FromVarint64(n) == q
  {
    IntegerRead(n);
  }

  // -------------------------------------------------------------- Timestamp

  lemma TimestampRead(v: TimestampRec, n: nat, q: int)
    requires v.Ok() && n < TWO_TO_64
    ensures ValidSchema(TIMESTAMP) && IsMsg(TIMESTAMP, v.ToMsg())
    ensures -TWO_TO_63 <= q < TWO_TO_63 && (q - n) % 18446744073709551616 == 0 ==>
      ParseInto(TIMESTAMP, v.ToMsg(), [8] + EncodeVarint(n)) == Some(v.(seconds := q).ToMsg())
    ensures -TWO_TO_31 <= q < TWO_TO_31 && (q - n) % 4294967296 == 0 ==>
      ParseInto(TIMESTAMP, v.ToMsg(), [16] + EncodeVarint(n)) == Some(v.(nanos := q).ToMsg())
  {
    hide UnknownOk, ParseInto, Apply, IsMsg, ValidSchema, FromVarint32, FromVarint64, TimestampRec.ToMsg;
    TimestampApply(v, Varint(1, n));
    TimestampApply(v, Varint(2, n));
    OneRecord(TIMESTAMP, v.ToMsg(), Varint(1, n));
    OneRecord(TIMESTAMP, v.ToMsg(), Varint(2, n));
    ShortRecords(1, n, []);
    ShortRecords(2, n, []);
    if -TWO_TO_63 <= q < TWO_TO_63 && (q - n) % 18446744073709551616 == 0 { SameInt64(n, q); }
    if -TWO_TO_31 <= q < TWO_TO_31 && (q - n) % 4294967296 == 0 { SameInt32(n, q); }
  }

  // ------------------------------------------------------------ RestockItem

  lemma ItemStringRead(v: RestockItemRec, s: Bytes)
    requires v.Ok() && |s| < TWO_TO_31
    ensures ValidSchema(RESTOCK_ITEM) && IsMsg(RESTOCK_ITEM, v.ToMsg())
    ensures ParseInto(RESTOCK_ITEM, v.ToMsg(), [10] + EncodeVarint(|s|) + s) == Some(v.(sku := s).ToMsg())
    ensures ParseInto(RESTOCK_ITEM, v.ToMsg(), [18] + EncodeVarint(|s|) + s) == Some(v.(name := s).ToMsg())
    ensures ParseInto(RESTOCK_ITEM, v.ToMsg(), [26] + EncodeVarint(|s|) + s) == Some(v.(aisleType := s).ToMsg())
  {
    hide UnknownOk, ParseInto, IsMsg, ValidSchema, RestockItemRec.ToMsg, RestockItemRec.Ok;
    ItemStringOf(v, 1, s);
    ItemStringOf(v, 2, s);
    ItemStringOf(v, 3, s);
  }

  lemma ItemStringOf(v: RestockItemRec, num: nat, s: Bytes)
    requires v.Ok() && |s| < TWO_TO_31 && 1 <= num <= 3
    ensures ValidSchema(RESTOCK_ITEM) && IsMsg(RESTOCK_ITEM, v.ToMsg())
    ensures ParseInto(RESTOCK_ITEM, v.ToMsg(), [8 * num + 2] + EncodeVarint(|s|) + s)
         == Some((if num == 1 then v.(sku := s) else if num == 2 then v.(name := s) else v.(aisleType := s)).ToMsg())
  {
    hide UnknownOk, ParseInto, IsMsg, ValidSchema, RestockItemRec.ToMsg, RestockItemRec.Ok, EncodeRec, EncodeVarint;
    ItemRecordRead(v, Len(num, s));
    ShortRecords(num, 0, s);
  }

  lemma ItemRecordRead(v: RestockItemRec, r: Rec)
    requires v.Ok() && ValidRec(r)
    ensures ValidSchema(RESTOCK_ITEM) && IsMsg(RESTOCK_ITEM, v.ToMsg())
    ensures ParseInto(RESTOCK_ITEM, v.ToMsg(), EncodeRec(r))
         == if ItemApplied(v, r).None? then None else Some(ItemApplied(v, r).value.ToMsg())
  {
    hide UnknownOk, ParseInto, Apply, IsMsg, ValidSchema, RestockItemRec.ToMsg, RestockItemRec.Ok, ItemApplied;
    ItemApply(v, r);
    OneRecord(RESTOCK_ITEM, v.ToMsg(), r);
  }

  lemma ItemNumberRead(v: RestockItemRec, n: nat, q: int)
    requires v.Ok() && n < TWO_TO_64
    ensures ValidSchema(RESTOCK_ITEM) && IsMsg(RESTOCK_ITEM, v.ToMsg())
    ensures -TWO_TO_31 <= q < TWO_TO_31 && (q - n) % 4294967296 == 0 ==>
      ParseInto(RESTOCK_ITEM, v.ToMsg(), [32] + EncodeVarint(n)) == Some(v.(quantity := q).ToMsg())
    ensures ParseInto(RESTOCK_ITEM, v.ToMsg(), [41] + EncodeFixed(n, 8)) == Some(v.(unitCost := n).ToMsg())
  {
    hide UnknownOk, ParseInto, Apply, IsMsg, ValidSchema, RestockItemRec.ToMsg, RestockItemRec.Ok, FromVarint32;
    ItemRecordRead(v, Varint(4, n));
    ItemRecordRead(v, Fixed64(5, n));
    ShortRecords(4, n, []);
    ShortRecords(5, n, []);
    if -TWO_TO_31 <= q < TWO_TO_31 && (q - n) % 4294967296 == 0 { SameInt32(n, q); }
  }

  /** A date is parsed on top of the one there is, or of nothing, and is there from then on. */
  lemma ItemDateRead(v: RestockItemRec, p: Bytes, was: TimestampRec, num: nat)
    requires v.Ok() && |p| < TWO_TO_31 && was.Ok() && (num == 6 || num == 7)
    requires var date := if num == 6 then v.mfdDate else v.expiryDate; was == if date.Some? then date.value else TimestampRec(0, 0, [])
    ensures ValidSchema(RESTOCK_ITEM) && IsMsg(RESTOCK_ITEM, v.ToMsg()) && ValidSchema(TIMESTAMP) && IsMsg(TIMESTAMP, was.ToMsg())
    ensures ParseInto(TIMESTAMP, was.ToMsg(), p) == None ==>
      ParseInto(RESTOCK_ITEM, v.ToMsg(), [8 * num + 2] + EncodeVarint(|p|) + p) == None
    ensures forall now: TimestampRec :: now.Ok() && ParseInto(TIMESTAMP, was.ToMsg(), p) == Some(now.ToMsg()) ==>
      ParseInto(RESTOCK_ITEM, v.ToMsg(), [8 * num + 2] + EncodeVarint(|p|) + p)
        == Some((if num == 6 then v.(mfdDate := Some(now)) else v.(expiryDate := Some(now))).ToMsg())
  {
    hide UnknownOk, ParseInto, IsMsg, ValidSchema, RestockItemRec.ToMsg, TimestampRec.ToMsg, TimestampRec.Ok, EncodeRec, EncodeVarint;
    TimestampValid();
    TimestampIsMsg(was);
    ItemRecordRead(v, Len(num, p));
    ShortRecords(num, 0, p);
    TimestampToMsgOnce();
  }

  lemma TimestampToMsgOnce()
    ensures forall a: TimestampRec, b: TimestampRec :: a.ToMsg() == b.ToMsg() ==> a == b
  {
    forall a: TimestampRec, b: TimestampRec | a.ToMsg() == b.ToMsg() ensures a == b {
      assert a.ToMsg().vals[0] == b.ToMsg().vals[0] && a.ToMsg().vals[1] == b.ToMsg().vals[1];
    }
  }

  /** A record of another number, whatever its type, joins the unknown ones. */
  lemma ItemUnknownRead(v: RestockItemRec, r: Rec)
    requires v.Ok() && ValidRec(r) && r.num > 7
    ensures ValidSchema(RESTOCK_ITEM) && IsMsg(RESTOCK_ITEM, v.ToMsg())
    ensures ParseInto(RESTOCK_ITEM, v.ToMsg(), EncodeRec(r)) == Some(v.(unknown := v.unknown + [r]).ToMsg())
  {
    hide UnknownOk, ParseInto, IsMsg, ValidSchema, RestockItemRec.ToMsg, RestockItemRec.Ok, EncodeRec;
    ItemRecordRead(v, r);
  }

  lemma ItemNothingRead()
    ensures ValidSchema(RESTOCK_ITEM) && Parse(RESTOCK_ITEM, []) == Some(RestockItemRec([], [], [], 0, 0, None, None, []).ToMsg())
  {
    EmptyItem();
    ParseNothing(RESTOCK_ITEM, NO_ITEM.ToMsg());
  }

  // ----------------------------------------------- RestockItemsOrderRequest

  /** An order id replaces the old one; an item is parsed from nothing and goes to the end of the list. */
  lemma RequestRead(v: RestockRequestRec, s: Bytes)
    requires v.Ok() && |s| < TWO_TO_31
    ensures ValidSchema(RESTOCK_REQUEST) && IsMsg(RESTOCK_REQUEST, v.ToMsg()) && ValidSchema(RESTOCK_ITEM)
    ensures ParseInto(RESTOCK_REQUEST, v.ToMsg(), [10] + EncodeVarint(|s|) + s) == Some(v.(orderId := s).ToMsg())
    ensures Parse(RESTOCK_ITEM, s) == None ==>
      ParseInto(RESTOCK_REQUEST, v.ToMsg(), [18] + EncodeVarint(|s|) + s) == None
    ensures forall w: RestockItemRec :: w.Ok() && Parse(RESTOCK_ITEM, s) == Some(w.ToMsg()) ==>
      ParseInto(RESTOCK_REQUEST, v.ToMsg(), [18] + EncodeVarint(|s|) + s) == Some(v.(items := v.items + [w]).ToMsg())
  {
    hide UnknownOk, ParseInto, Apply, IsMsg, ValidSchema, EncodeRec, EncodeVarint, RestockItemRec.ToMsg, RestockRequestRec.ToMsg;
    hide RequestAppended, RestockItemRec.Ok;
    EmptyItem();
    RequestApply(v, Len(1, s));
    OneRecord(RESTOCK_REQUEST, v.ToMsg(), Len(1, s));
    ShortRecords(1, 0, s);
    RequestItemRead(v, s);
    RequestRefused(v);
    RequestAppends(v);
  }

  lemma RequestItemRead(v: RestockRequestRec, s: Bytes)
    requires v.Ok() && |s| < TWO_TO_31
    ensures ValidSchema(RESTOCK_REQUEST) && IsMsg(RESTOCK_REQUEST, v.ToMsg()) && ValidSchema(RESTOCK_ITEM)
    ensures ParseInto(RESTOCK_REQUEST, v.ToMsg(), [18] + EncodeVarint(|s|) + s) == RequestAppended(v, Parse(RESTOCK_ITEM, s))
  {
    hide UnknownOk, ParseInto, Apply, IsMsg, ValidSchema, EncodeRec, EncodeVarint, RestockItemRec.ToMsg, RestockRequestRec.ToMsg;
    hide RequestAppended, RestockItemRec.Ok;
    EmptyItem();
    RequestApply(v, Len(2, s));
    OneRecord(RESTOCK_REQUEST, v.ToMsg(), Len(2, s));
    ShortRecords(2, 0, s);
  }

  lemma RequestAppends(v: RestockRequestRec)
    ensures forall w: RestockItemRec :: RequestAppended(v, Some(w.ToMsg())) == Some(v.(items := v.items + [w]).ToMsg())
  {
    forall w: RestockItemRec ensures RequestAppended(v, Some(w.ToMsg())) == Some(v.(items := v.items + [w]).ToMsg()) {
      RequestAppend(v, w);
    }
  }

  lemma RequestRefused(v: RestockRequestRec)
    ensures RequestAppended(v, None) == None
  {
  }

  // ------------------------------------------------------------- StockLevel

  lemma StockRecordRead(v: StockLevelRec, r: Rec)
    requires v.Ok() && ValidRec(r)
    ensures ValidSchema(STOCK_LEVEL) && IsMsg(STOCK_LEVEL, v.ToMsg())
    ensures ParseInto(STOCK_LEVEL, v.ToMsg(), EncodeRec(r)) == Some(StockApplied(v, r).ToMsg())
  {
    hide UnknownOk, ParseInto, Apply, IsMsg, ValidSchema, StockLevelRec.ToMsg, StockLevelRec.Ok, StockApplied;
    StockApply(v, r);
    OneRecord(STOCK_LEVEL, v.ToMsg(), r);
  }

  lemma StockRead(v: StockLevelRec, s: Bytes, n: nat, q: int)
    requires v.Ok() && |s| < TWO_TO_31 && n < TWO_TO_64
    ensures ValidSchema(STOCK_LEVEL) && IsMsg(STOCK_LEVEL, v.ToMsg())
    ensures ParseInto(STOCK_LEVEL, v.ToMsg(), [10] + EncodeVarint(|s|) + s) == Some(v.(sku := s).ToMsg())
    ensures ParseInto(STOCK_LEVEL, v.ToMsg(), [18] + EncodeVarint(|s|) + s) == Some(v.(name := s).ToMsg())
    ensures ParseInto(STOCK_LEVEL, v.ToMsg(), [26] + EncodeVarint(|s|) + s) == Some(v.(aisleType := s).ToMsg())
    ensures -TWO_TO_31 <= q < TWO_TO_31 && (q - n) % 4294967296 == 0 ==>
      ParseInto(STOCK_LEVEL, v.ToMsg(), [32] + EncodeVarint(n)) == Some(v.(quantity := q).ToMsg())
  {
    hide UnknownOk, ParseInto, IsMsg, ValidSchema, StockLevelRec.ToMsg, StockLevelRec.Ok;
    StockStringOf(v, 1, s);
    StockStringOf(v, 2, s);
    StockStringOf(v, 3, s);
    if -TWO_TO_31 <= q < TWO_TO_31 && (q - n) % 4294967296 == 0 { StockNumberOf(v, n, q); }
  }

  lemma StockStringOf(v: StockLevelRec, num: nat, s: Bytes)
    requires v.Ok() && |s| < TWO_TO_31 && 1 <= num <= 3
    ensures ValidSchema(STOCK_LEVEL) && IsMsg(STOCK_LEVEL, v.ToMsg())
    ensures ParseInto(STOCK_LEVEL, v.ToMsg(), [8 * num + 2] + EncodeVarint(|s|) + s)
         == Some((if num == 1 then v.(sku := s) else if num == 2 then v.(name := s) else v.(aisleType := s)).ToMsg())
  {
    hide UnknownOk, ParseInto, IsMsg, ValidSchema, StockLevelRec.ToMsg, StockLevelRec.Ok, EncodeRec, EncodeVarint, StockApplied;
    StockStringApplied(v, num, s);
    StockRecordRead(v, Len(num, s));
    ShortRecords(num, 0, s);
  }

  lemma StockStringApplied(v: StockLevelRec, num: nat, s: Bytes)
    requires v.Ok() && |s| < TWO_TO_31 && 1 <= num <= 3
    ensures StockApplied(v, Len(num, s))
         == if num == 1 then v.(sku := s) else if num == 2 then v.(name := s) else v.(aisleType := s)
  {
    hide UnknownOk, StockLevelRec.Ok;
  }

  lemma StockNumberOf(v: StockLevelRec, n: nat, q: int)
    requires v.Ok() && n < TWO_TO_64 && -TWO_TO_31 <= q < TWO_TO_31 && (q - n) % 4294967296 == 0
    ensures ValidSchema(STOCK_LEVEL) && IsMsg(STOCK_LEVEL, v.ToMsg())
    ensures ParseInto(STOCK_LEVEL, v.ToMsg(), [32] + EncodeVarint(n)) == Some(v.(quantity := q).ToMsg())
  {
    hide UnknownOk, ParseInto, IsMsg, ValidSchema, StockLevelRec.ToMsg, StockLevelRec.Ok, EncodeRec, EncodeVarint, FromVarint32;
    SameInt32(n, q);
    StockRecordRead(v, Varint(4, n));
    ShortRecords(4, n, []);
  }

  // ------------------------------------------------ ReportJobStatusRequest

  lemma ReportStringRead(v: ReportRec, s: Bytes)
    requires v.Ok() && |s| < TWO_TO_31
    ensures ValidSchema(REPORT_REQUEST) && IsMsg(REPORT_REQUEST, v.ToMsg())
    ensures ParseInto(REPORT_REQUEST, v.ToMsg(), [10] + EncodeVarint(|s|) + s) == Some(v.(orderId := s).ToMsg())
    ensures ParseInto(REPORT_REQUEST, v.ToMsg(), [26] + EncodeVarint(|s|) + s) == Some(v.(status := s).ToMsg())
    ensures ParseInto(REPORT_REQUEST, v.ToMsg(), [42] + EncodeVarint(|s|) + s) == Some(v.(orderType := s).ToMsg())
    ensures ParseInto(REPORT_REQUEST, v.ToMsg(), [18] + EncodeVarint(|s|) + s) == Some(v.(unknown := v.unknown + [Len(2, s)]).ToMsg())
  {
    hide UnknownOk, ParseInto, IsMsg, ValidSchema, ReportRec.ToMsg, ReportRec.Ok;
    ReportStringOf(v, 1, s);
    ReportStringOf(v, 2, s);
    ReportStringOf(v, 3, s);
    ReportStringOf(v, 5, s);
  }

  lemma ReportRecordRead(v: ReportRec, r: Rec)
    requires v.Ok() && ValidRec(r)
    ensures ValidSchema(REPORT_REQUEST) && IsMsg(REPORT_REQUEST, v.ToMsg())
    ensures ParseInto(REPORT_REQUEST, v.ToMsg(), EncodeRec(r))
         == if ReportApplied(v, r).None? then None else Some(ReportApplied(v, r).value.ToMsg())
  {
    hide UnknownOk, ParseInto, Apply, IsMsg, ValidSchema, ReportRec.ToMsg, ReportRec.Ok, ReportApplied;
    ReportApply(v, r);
    OneRecord(REPORT_REQUEST, v.ToMsg(), r);
  }

  lemma ReportStringOf(v: ReportRec, num: nat, s: Bytes)
    requires v.Ok() && |s| < TWO_TO_31 && 1 <= num <= 5 && num != 4
    ensures ValidSchema(REPORT_REQUEST) && IsMsg(REPORT_REQUEST, v.ToMsg())
    ensures ParseInto(REPORT_REQUEST, v.ToMsg(), [8 * num + 2] + EncodeVarint(|s|) + s)
         == Some((if num == 1 then v.(orderId := s) else if num == 3 then v.(status := s) else if num == 5 then v.(orderType := s)
                  else v.(unknown := v.unknown + [Len(2, s)])).ToMsg())
  {
    hide UnknownOk, ParseInto, IsMsg, ValidSchema, ReportRec.ToMsg, ReportRec.Ok, EncodeRec, EncodeVarint, ReportApplied;
    ReportStringApplied(v, num, s);
    ReportRecordRead(v, Len(num, s));
    ShortRecords(num, 0, s);
  }

  lemma ReportStringApplied(v: ReportRec, num: nat, s: Bytes)
    requires v.Ok() && |s| < TWO_TO_31 && 1 <= num <= 5 && num != 4
    ensures ReportApplied(v, Len(num, s))
         == Some(if num == 1 then v.(orderId := s) else if num == 3 then v.(status := s) else if num == 5 then v.(orderType := s)
                 else v.(unknown := v.unknown + [Len(2, s)]))
  {
    hide UnknownOk, ParseInto, IsMsg, ValidSchema, ReportRec.Ok;
  }

  /** An entry of the map stores its count under its key, over the one that is there; without a count it stores 0. */
  lemma ReportEntryRead(v: ReportRec, key: Bytes, n: nat, q: int)
    requires v.Ok() && |key| < TWO_TO_29 && n < TWO_TO_64
    requires -TWO_TO_31 <= q < TWO_TO_31 && (q - n) % 4294967296 == 0
    ensures ValidSchema(REPORT_REQUEST) && IsMsg(REPORT_REQUEST, v.ToMsg())
    ensures var entry := [10] + EncodeVarint(|key|) + key + ([16] + EncodeVarint(n));
      ParseInto(REPORT_REQUEST, v.ToMsg(), [34] + EncodeVarint(|entry|) + entry)
      == Some(v.(processedItems := v.processedItems[key := q]).ToMsg())
    ensures var entry := [10] + EncodeVarint(|key|) + key;
      ParseInto(REPORT_REQUEST, v.ToMsg(), [34] + EncodeVarint(|entry|) + entry)
      == Some(v.(processedItems := v.processedItems[key := 0]).ToMsg())
  {
    hide UnknownOk, ParseInto, IsMsg, ValidSchema, ReportRec.ToMsg, ReportRec.Ok, EncodeVarint;
    SameInt32(n, q);
    CountEntryRead(key, n, q);
    VarintFits(|key|);
    VarintFits(n);
    ReportEntryOf(v, [10] + EncodeVarint(|key|) + key + ([16] + EncodeVarint(n)), key, q);
    ReportEntryOf(v, [10] + EncodeVarint(|key|) + key, key, 0);
  }

  lemma ReportEntryOf(v: ReportRec, entry: Bytes, key: Bytes, q: int)
    requires v.Ok() && |entry| < TWO_TO_31 && ValidSchema(PROCESSED_ENTRY) && IsMsg(PROCESSED_ENTRY, Default(PROCESSED_ENTRY))
    requires ParseInto(PROCESSED_ENTRY, Default(PROCESSED_ENTRY), entry) == Some(Msg([VStr(key), VInt(q)], []))
    ensures ValidSchema(REPORT_REQUEST) && IsMsg(REPORT_REQUEST, v.ToMsg())
    ensures ParseInto(REPORT_REQUEST, v.ToMsg(), [34] + EncodeVarint(|entry|) + entry)
         == Some(v.(processedItems := v.processedItems[key := q]).ToMsg())
  {
    hide UnknownOk, ParseInto, IsMsg, ValidSchema, ReportRec.ToMsg, ReportRec.Ok, EncodeRec, EncodeVarint, ReportApplied;
    ReportEntryApplied(v, entry, key, q);
    ReportRecordRead(v, Len(4, entry));
    ShortRecords(4, 0, entry);
  }

  lemma ReportEntryApplied(v: ReportRec, entry: Bytes, key: Bytes, q: int)
    requires v.Ok() && |entry| < TWO_TO_31 && ValidSchema(PROCESSED_ENTRY) && IsMsg(PROCESSED_ENTRY, Default(PROCESSED_ENTRY))
    requires ParseInto(PROCESSED_ENTRY, Default(PROCESSED_ENTRY), entry) == Some(Msg([VStr(key), VInt(q)], []))
    ensures ReportApplied(v, Len(4, entry)) == Some(v.(processedItems := v.processedItems[key := q]))
  {
    hide UnknownOk, ParseInto, IsMsg, ValidSchema, ReportRec.Ok, Default;
  }

  lemma CountEntryRead(key: Bytes, n: nat, q: int)
    requires |key| < TWO_TO_31 && n < TWO_TO_64 && FromVarint32(n) == q
    ensures ValidSchema(PROCESSED_ENTRY) && IsMsg(PROCESSED_ENTRY, Default(PROCESSED_ENTRY))
    ensures ParseInto(PROCESSED_ENTRY, Default(PROCESSED_ENTRY), [10] + EncodeVarint(|key|) + key + ([16] + EncodeVarint(n)))
         == Some(Msg([VStr(key), VInt(q)], []))
    ensures ParseInto(PROCESSED_ENTRY, Default(PROCESSED_ENTRY), [10] + EncodeVarint(|key|) + key) == Some(Msg([VStr(key), VInt(0)], []))
  {
    hide UnknownOk, ParseInto, Apply, IsMsg, ValidSchema, EncodeRec, EncodeVarint, FromVarint32;
    EmptyCount();
    var r, r' := Len(1, key), Varint(2, n);
    ShortRecords(1, 0, key);
    ShortRecords(2, n, []);
    CountApply([], 0, [], r);
    NoUnknown(PROCESSED_ENTRY);
    CountApply(key, 0, [], r');
    OneRecord(PROCESSED_ENTRY, Default(PROCESSED_ENTRY), r);
    TwoRecords(PROCESSED_ENTRY, Default(PROCESSED_ENTRY), r, r');
  }

  // ---------------------------------------------------------- availability

  lemma SkusRead(v: SkusRec, s: Bytes)
    requires v.Ok() && |s| < TWO_TO_31
    ensures ValidSchema(AVAILABILITY_REQUEST) && IsMsg(AVAILABILITY_REQUEST, v.ToMsg())
    ensures ParseInto(AVAILABILITY_REQUEST, v.ToMsg(), [10] + EncodeVarint(|s|) + s) == Some(v.(skus := v.skus + [s]).ToMsg())
  {
    hide UnknownOk, ParseInto, Apply, IsMsg, ValidSchema, EncodeRec, EncodeVarint, SkusRec.ToMsg;
    AvailabilityValid();
    FirstIsFirst(s);
    SkusApply(v, Len(1, s));
    OneRecord(AVAILABILITY_REQUEST, v.ToMsg(), Len(1, s));
    ShortRecords(1, 0, s);
  }

  lemma FirstIsFirst(s: Bytes)
    ensures Slot(AVAILABILITY_REQUEST, Len(1, s)) == Slot(AVAILABILITY_RESPONSE, Len(1, s)) == FirstSlot(Len(1, s)) == Some(0)
  {
    assert AVAILABILITY_REQUEST.fields[0] == Field(1, RepStr) && AVAILABILITY_RESPONSE.fields[0] == Field(1, Map(ITEMS_ENTRY));
  }

  /** An entry of this map stores what its level is parsed to, from nothing, whatever there was under the key. */
  lemma AvailabilityEntryRead(v: AvailabilityRec, key: Bytes, p: Bytes)
    requires v.Ok() && |key| < TWO_TO_29 && |p| < TWO_TO_29
    ensures ValidSchema(AVAILABILITY_RESPONSE) && IsMsg(AVAILABILITY_RESPONSE, v.ToMsg()) && ValidSchema(STOCK_LEVEL)
    ensures var entry := [10] + EncodeVarint(|key|) + key + ([18] + EncodeVarint(|p|) + p);
      && (Parse(STOCK_LEVEL, p) == None ==>
            ParseInto(AVAILABILITY_RESPONSE, v.ToMsg(), [10] + EncodeVarint(|entry|) + entry) == None)
      && forall w: StockLevelRec :: w.Ok() && Parse(STOCK_LEVEL, p) == Some(w.ToMsg()) ==>
           ParseInto(AVAILABILITY_RESPONSE, v.ToMsg(), [10] + EncodeVarint(|entry|) + entry) == Some(v.(items := v.items[key := w]).ToMsg())
  {
    hide UnknownOk, ParseInto, IsMsg, ValidSchema, AvailabilityRec.ToMsg, StockLevelRec.ToMsg, AvailabilityRec.Ok, StockLevelRec.Ok;
    hide EncodeVarint;
    VarintFits(|key|);
    VarintFits(|p|);
    var entry := [10] + EncodeVarint(|key|) + key + ([18] + EncodeVarint(|p|) + p);
    StockEntryRead(key, p);
    EmptyLevel();
    AvailabilityRecordRead(v, entry, key, NO_STOCK);
    forall w: StockLevelRec | w.Ok() && Parse(STOCK_LEVEL, p) == Some(w.ToMsg())
      ensures ParseInto(AVAILABILITY_RESPONSE, v.ToMsg(), [10] + EncodeVarint(|entry|) + entry)
              == Some(v.(items := v.items[key := w]).ToMsg())
    {
      StockEntryHolds(key, w);
      AvailabilityRecordRead(v, entry, key, w);
    }
  }

  lemma StockEntryHolds(key: Bytes, w: StockLevelRec)
    requires w.Ok()
    ensures EntryRead(EntryMsg(key, Some(w), []), key, w)
  {
    NoUnknown(ITEMS_ENTRY);
    EntryIsRead(key, Some(w), [], w);
  }

  lemma AvailabilityRecordRead(v: AvailabilityRec, entry: Bytes, key: Bytes, w: StockLevelRec)
    requires v.Ok() && w.Ok() && |entry| < TWO_TO_31
    ensures ValidSchema(AVAILABILITY_RESPONSE) && IsMsg(AVAILABILITY_RESPONSE, v.ToMsg()) && ValidEntry(ITEMS_ENTRY)
    ensures ParseInto(ITEMS_ENTRY, Default(ITEMS_ENTRY), entry) == None ==>
      ParseInto(AVAILABILITY_RESPONSE, v.ToMsg(), [10] + EncodeVarint(|entry|) + entry) == None
    ensures ParseInto(ITEMS_ENTRY, Default(ITEMS_ENTRY), entry).Some?
      && EntryRead(ParseInto(ITEMS_ENTRY, Default(ITEMS_ENTRY), entry).value, key, w)
      ==> ParseInto(AVAILABILITY_RESPONSE, v.ToMsg(), [10] + EncodeVarint(|entry|) + entry) == Some(v.(items := v.items[key := w]).ToMsg())
  {
    hide UnknownOk, ParseInto, Apply, IsMsg, ValidSchema, AvailabilityRec.ToMsg, EncodeRec, EncodeVarint, EntryRead, Slot;
    FirstIsFirst(entry);
    ResponseApplyEntry(v, Len(1, entry), key, w);
    OneRecord(AVAILABILITY_RESPONSE, v.ToMsg(), Len(1, entry));
    ShortRecords(1, 0, entry);
  }

  lemma StockEntryRead(key: Bytes, p: Bytes)
    requires |key| < TWO_TO_31 && |p| < TWO_TO_31
    ensures ValidSchema(STOCK_LEVEL) && ValidEntry(ITEMS_ENTRY) && IsMsg(ITEMS_ENTRY, Default(ITEMS_ENTRY))
    ensures var entry := [10] + EncodeVarint(|key|) + key + ([18] + EncodeVarint(|p|) + p);
      && (Parse(STOCK_LEVEL, p) == None ==> ParseInto(ITEMS_ENTRY, Default(ITEMS_ENTRY), entry) == None)
      && forall w: StockLevelRec :: Parse(STOCK_LEVEL, p) == Some(w.ToMsg()) ==>
           ParseInto(ITEMS_ENTRY, Default(ITEMS_ENTRY), entry) == Some(EntryMsg(key, Some(w), []))
  {
    hide UnknownOk, ParseInto, Apply, IsMsg, ValidSchema, EncodeRec, EncodeVarint, StockLevelRec.ToMsg;
    AvailabilityValid();
    TimestampValid();
    EmptyEntry();
    EmptyLevel();
    NoUnknown(ITEMS_ENTRY);
    var r, r' := Len(1, key), Len(2, p);
    ShortRecords(1, 0, key);
    ShortRecords(2, 0, p);
    EntryApply([], None, [], r);
    EntryApply(key, None, [], r');
    TwoRecords(ITEMS_ENTRY, Default(ITEMS_ENTRY), r, r');
  }
}
