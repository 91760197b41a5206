/**
 The messages of inventory.proto as plain records, each tied to its schema: what
 it is as a schema-generic message, what merging and encoding it come to field
 by field.
 */
module Inventory {
  import opened Wire
  import opened Message

  // ---------------------------------------------------------------- schemas

  const TIMESTAMP := Schema([Field(1, Int64), Field(2, Int32)])

  const STOCK_LEVEL := Schema([Field(1, Str), Field(2, Str), Field(3, Str), Field(4, Int32)])

  const RESTOCK_ITEM := Schema([
      Field(1, Str), Field(2, Str), Field(3, Str), Field(4, Int32), Field(5, Double),
      Field(6, Sub(TIMESTAMP)), Field(7, Sub(TIMESTAMP))])

  const RESTOCK_REQUEST := Schema([Field(1, Str), Field(2, RepSub(RESTOCK_ITEM))])

  const PROCESSED_ENTRY := Schema([Field(1, Str), Field(2, Int32)])

  const REPORT_REQUEST := Schema([
      Field(1, Str), Field(3, Str), Field(4, Map(PROCESSED_ENTRY)), Field(5, Str)])

  const ITEMS_ENTRY := Schema([Field(1, Str), Field(2, Sub(STOCK_LEVEL))])

  const AVAILABILITY_RESPONSE := Schema([Field(1, Map(ITEMS_ENTRY))])

  const AVAILABILITY_REQUEST := Schema([Field(1, RepStr)])

  lemma TimestampValid()
    ensures ValidSchema(TIMESTAMP) && ValidSchema(STOCK_LEVEL)
  {
  }

  lemma RestockItemValid()
    ensures ValidSchema(RESTOCK_ITEM)
  {
    TimestampValid();
    assert ValidKind(Sub(TIMESTAMP));
  }

  lemma RestockRequestValid()
    ensures ValidSchema(RESTOCK_REQUEST)
  {
    RestockItemValid();
    assert ValidKind(RepSub(RESTOCK_ITEM));
  }

  lemma ReportRequestValid()
    ensures ValidSchema(REPORT_REQUEST) && ValidEntry(PROCESSED_ENTRY)
  {
    assert ValidSchema(PROCESSED_ENTRY);
    assert ValidKind(Map(PROCESSED_ENTRY));
  }

  lemma AvailabilityValid()
    ensures ValidSchema(AVAILABILITY_RESPONSE) && ValidEntry(ITEMS_ENTRY) && ValidSchema(AVAILABILITY_REQUEST)
  {
    TimestampValid();
    assert ValidKind(Sub(STOCK_LEVEL));
    assert ValidSchema(ITEMS_ENTRY);
    assert ValidKind(Map(ITEMS_ENTRY));
  }

  // ------------------------------------------------- merging and encoding a field

  function PickStr(a: Bytes, b: Bytes): Bytes { if |b| != 0 then b else a }

  function PickNum(a: int, b: int): int { if b != 0 then b else a }

  function StrField(num: nat, s: Bytes): Bytes {
    if |s| == 0 then [] else EncodeRec(Len(num, s))
  }

  function IntField(num: nat, i: int): Bytes
    requires -TWO_TO_63 <= i < TWO_TO_63
  {
    if i == 0 then [] else EncodeRec(Varint(num, ToVarint(i)))
  }

  function DoubleField(num: nat, bits: nat): Bytes {
    if bits == 0 then [] else EncodeRec(Fixed64(num, bits))
  }

  predicate UnknownOk(s: Schema, unknown: seq<Rec>) {
    ValidRecs(unknown) && AllUnknown(s, unknown)
  }

  lemma UnknownJoined(s: Schema, a: seq<Rec>, b: seq<Rec>)
    requires UnknownOk(s, a) && UnknownOk(s, b)
    ensures UnknownOk(s, a + b)
  {
  }

  lemma UnknownGrows(s: Schema, unknown: seq<Rec>, r: Rec)
    requires UnknownOk(s, unknown) && ValidRec(r) && Slot(s, r) == None
    ensures UnknownOk(s, unknown + [r])
  {
  }

  lemma NoUnknown(s: Schema)
    ensures UnknownOk(s, [])
  {
  }

  /** The encoding of the first `n` fields. */
  ghost function FieldsUpTo(s: Schema, m: Msg, ord: Order, n: nat): Bytes
    requires IsMsg(s, m) && n <= |s.fields|
  {
    if n == 0 then []
    else FieldsUpTo(s, m, ord, n - 1) + EncodeRecs(FieldRecs(s.fields[n - 1].num, s.fields[n - 1].kind, m.vals[n - 1], ord))
  }

  lemma {:induction false} FieldsUpToIsRecs(s: Schema, m: Msg, ord: Order, n: nat)
    requires IsMsg(s, m) && n <= |s.fields|
    ensures EncodeRecs(RecsUpTo(s, m, ord, n)) == FieldsUpTo(s, m, ord, n)
  {
    if n > 0 {
      hide EncodeRecs, FieldRecs;
      FieldsUpToIsRecs(s, m, ord, n - 1);
      EncodeRecsAppend(RecsUpTo(s, m, ord, n - 1),
                       FieldRecs(s.fields[n - 1].num, s.fields[n - 1].kind, m.vals[n - 1], ord));
    }
  }

  /** A serialization is its fields in order and then its unknown records. */
  lemma SerializeIsFields(s: Schema, m: Msg, ord: Order)
    requires IsMsg(s, m)
    ensures Serialize(s, m, ord) == FieldsUpTo(s, m, ord, |s.fields|) + EncodeRecs(m.unknown)
  {
    FieldsUpToIsRecs(s, m, ord, |s.fields|);
    EncodeRecsAppend(RecsUpTo(s, m, ord, |s.fields|), m.unknown);
  }

  lemma FieldEncoding(num: nat, k: Kind, v: Val, ord: Order)
    requires IsVal(k, v)
    ensures k == Str ==> EncodeRecs(FieldRecs(num, k, v, ord)) == StrField(num, v.s)
    ensures k == Int32 || k == Int64 ==> EncodeRecs(FieldRecs(num, k, v, ord)) == IntField(num, v.i)
    ensures k == Double ==> EncodeRecs(FieldRecs(num, k, v, ord)) == DoubleField(num, v.bits)
    ensures k.Sub? ==> (EncodeRecs(FieldRecs(num, k, v, ord))
                        == if v.m.None? then [] else EncodeRec(Len(num, Serialize(k.schema, v.m.value, ord))))
  {
    if !k.RepStr? && !k.RepSub? && !k.Map? && v != DefaultVal(k) {
      EncodeOne(OneRec(num, k, v, ord));
    }
  }

  // -------------------------------------------------------------- Timestamp

  datatype TimestampRec = TimestampRec(seconds: int, nanos: int, unknown: seq<Rec>) {
    predicate Ok() {
      && -TWO_TO_63 <= seconds < TWO_TO_63
      && -TWO_TO_31 <= nanos < TWO_TO_31
      && UnknownOk(TIMESTAMP, unknown)
    }

    function ToMsg(): Msg {
      Msg([VInt(seconds), VInt(nanos)], unknown)
    }

    function Merged(b: TimestampRec): TimestampRec {
      TimestampRec(PickNum(seconds, b.seconds), PickNum(nanos, b.nanos), unknown + b.unknown)
    }

    function Encoded(): Bytes
      requires Ok()
    {
      IntField(1, seconds) + IntField(2, nanos) + EncodeRecs(unknown)
    }
  }

  const NO_TIMESTAMP := TimestampRec(0, 0, [])

  lemma TimestampIsMsg(v: TimestampRec)
    requires v.Ok()
    ensures IsMsg(TIMESTAMP, v.ToMsg())
  {
    var m := v.ToMsg();
    assert IsVal(Int64, m.vals[0]) && IsVal(Int32, m.vals[1]);
  }

  lemma TimestampMerge(a: TimestampRec, b: TimestampRec)
    requires a.Ok() && b.Ok()
    ensures a.Merged(b).Ok()
    ensures IsMsg(TIMESTAMP, a.ToMsg()) && IsMsg(TIMESTAMP, b.ToMsg())
    ensures a.Merged(b).ToMsg() == Merge(TIMESTAMP, a.ToMsg(), b.ToMsg())
  {
    TimestampIsMsg(a);
    TimestampIsMsg(b);
    assert a.Merged(b).ToMsg().vals == Merge(TIMESTAMP, a.ToMsg(), b.ToMsg()).vals;
  }

  lemma TimestampEncoding(v: TimestampRec, ord: Order)
    requires v.Ok()
    ensures IsMsg(TIMESTAMP, v.ToMsg())
    ensures Serialize(TIMESTAMP, v.ToMsg(), ord) == v.Encoded()
  {
    var s, m := TIMESTAMP, v.ToMsg();
    TimestampIsMsg(v);
    SerializeIsFields(s, m, ord);
    FieldEncoding(1, Int64, m.vals[0], ord);
    FieldEncoding(2, Int32, m.vals[1], ord);
    assert FieldsUpTo(s, m, ord, 0) == [];
    assert FieldsUpTo(s, m, ord, 1) == IntField(1, v.seconds);
  }

  // ------------------------------------------------------------- StockLevel

  datatype StockLevelRec = StockLevelRec(sku: Bytes, name: Bytes, aisleType: Bytes, quantity: int, unknown: seq<Rec>) {
    predicate Ok() {
      -TWO_TO_31 <= quantity < TWO_TO_31 && UnknownOk(STOCK_LEVEL, unknown)
    }

    function ToMsg(): Msg {
      Msg([VStr(sku), VStr(name), VStr(aisleType), VInt(quantity)], unknown)
    }

    function Merged(b: StockLevelRec): StockLevelRec {
      StockLevelRec(PickStr(sku, b.sku), PickStr(name, b.name), PickStr(aisleType, b.aisleType),
                    PickNum(quantity, b.quantity), unknown + b.unknown)
    }

    function Encoded(): Bytes
      requires Ok()
    {
      StrField(1, sku) + StrField(2, name) + StrField(3, aisleType) + IntField(4, quantity) + EncodeRecs(unknown)
    }
  }

  const NO_STOCK := StockLevelRec([], [], [], 0, [])

  lemma StockLevelIsMsg(v: StockLevelRec)
    requires v.Ok()
    ensures IsMsg(STOCK_LEVEL, v.ToMsg())
  {
    var m := v.ToMsg();
    assert IsVal(Str, m.vals[0]) && IsVal(Str, m.vals[1]) && IsVal(Str, m.vals[2]) && IsVal(Int32, m.vals[3]);
  }

  lemma StockLevelMerge(a: StockLevelRec, b: StockLevelRec)
    requires a.Ok() && b.Ok()
    ensures a.Merged(b).Ok()
    ensures IsMsg(STOCK_LEVEL, a.ToMsg()) && IsMsg(STOCK_LEVEL, b.ToMsg())
    ensures a.Merged(b).ToMsg() == Merge(STOCK_LEVEL, a.ToMsg(), b.ToMsg())
  {
    StockLevelIsMsg(a);
    StockLevelIsMsg(b);
    assert a.Merged(b).ToMsg().vals == Merge(STOCK_LEVEL, a.ToMsg(), b.ToMsg()).vals;
  }

  lemma StockLevelEncoding(v: StockLevelRec, ord: Order)
    requires v.Ok()
    ensures IsMsg(STOCK_LEVEL, v.ToMsg())
    ensures Serialize(STOCK_LEVEL, v.ToMsg(), ord) == v.Encoded()
  {
    var s, m := STOCK_LEVEL, v.ToMsg();
    StockLevelIsMsg(v);
    SerializeIsFields(s, m, ord);
    FieldEncoding(1, Str, m.vals[0], ord);
    FieldEncoding(2, Str, m.vals[1], ord);
    FieldEncoding(3, Str, m.vals[2], ord);
    FieldEncoding(4, Int32, m.vals[3], ord);
    assert FieldsUpTo(s, m, ord, 1) == [] + StrField(1, v.sku) == StrField(1, v.sku);
    assert FieldsUpTo(s, m, ord, 2) == StrField(1, v.sku) + StrField(2, v.name);
    assert FieldsUpTo(s, m, ord, 3) == StrField(1, v.sku) + StrField(2, v.name) + StrField(3, v.aisleType);
  }

  function StockLevelOf(m: Msg): (v: StockLevelRec)
    requires IsMsg(STOCK_LEVEL, m)
    ensures v.Ok() && v.ToMsg() == m
  {
    StockLevelVals(m);
    var v := StockLevelRec(m.vals[0].s, m.vals[1].s, m.vals[2].s, m.vals[3].i, m.unknown);
    assert v.ToMsg().vals == m.vals;
    v
  }

  lemma StockLevelVals(m: Msg)
    requires IsMsg(STOCK_LEVEL, m)
    ensures |m.vals| == 4 && m.vals[0].VStr? && m.vals[1].VStr? && m.vals[2].VStr?
    ensures m.vals[3].VInt? && -TWO_TO_31 <= m.vals[3].i < TWO_TO_31 && UnknownOk(STOCK_LEVEL, m.unknown)
  {
    assert IsVal(STOCK_LEVEL.fields[0].kind, m.vals[0]) && IsVal(STOCK_LEVEL.fields[1].kind, m.vals[1]);
    assert IsVal(STOCK_LEVEL.fields[2].kind, m.vals[2]) && IsVal(STOCK_LEVEL.fields[3].kind, m.vals[3]);
  }

  // ------------------------------------------------------------ RestockItem

  function DateField(num: nat, date: Option<TimestampRec>): Bytes
    requires date.Some? ==> date.value.Ok()
  {
    if date.None? then [] else EncodeRec(Len(num, date.value.Encoded()))
  }

  function DateVal(date: Option<TimestampRec>): Val {
    VSub(if date.None? then None else Some(date.value.ToMsg()))
  }

  function DateMerged(a: Option<TimestampRec>, b: Option<TimestampRec>): Option<TimestampRec> {
    if b.None? then a else if a.None? then b else Some(a.value.Merged(b.value))
  }

  datatype RestockItemRec = RestockItemRec(
    sku: Bytes, name: Bytes, aisleType: Bytes, quantity: int, unitCost: nat,
    mfdDate: Option<TimestampRec>, expiryDate: Option<TimestampRec>, unknown: seq<Rec>)
  {
    predicate Ok() {
      && -TWO_TO_31 <= quantity < TWO_TO_31
      && unitCost < TWO_TO_64
      && (mfdDate.Some? ==> mfdDate.value.Ok())
      && (expiryDate.Some? ==> expiryDate.value.Ok())
      && UnknownOk(RESTOCK_ITEM, unknown)
    }

    function ToMsg(): Msg {
      Msg([VStr(sku), VStr(name), VStr(aisleType), VInt(quantity), VDouble(unitCost),
           DateVal(mfdDate), DateVal(expiryDate)], unknown)
    }

    function Merged(b: RestockItemRec): RestockItemRec {
      RestockItemRec(PickStr(sku, b.sku), PickStr(name, b.name), PickStr(aisleType, b.aisleType),
                     PickNum(quantity, b.quantity), PickNum(unitCost, b.unitCost),
                     DateMerged(mfdDate, b.mfdDate), DateMerged(expiryDate, b.expiryDate), unknown + b.unknown)
    }

    function Encoded(): Bytes
      requires Ok()
    {
      StrField(1, sku) + StrField(2, name) + StrField(3, aisleType) + IntField(4, quantity)
      + DoubleField(5, unitCost) + DateField(6, mfdDate) + DateField(7, expiryDate) + EncodeRecs(unknown)
    }
  }

  /** A date field whose length prefix is `size`, right or wrong. */
  function DateFieldWith(num: nat, date: Option<TimestampRec>, size: nat): Bytes
    requires date.Some? ==> date.value.Ok()
  {
    if date.None? then [] else EncodeTag(num, WT_LEN) + EncodeVarint(size) + date.value.Encoded()
  }

  /** What the second pass writes when `mfdSize` and `expirySize` are cached. */
  function EncodedWith(v: RestockItemRec, mfdSize: nat, expirySize: nat): Bytes
    requires v.Ok()
  {
    StrField(1, v.sku) + StrField(2, v.name) + StrField(3, v.aisleType) + IntField(4, v.quantity)
    + DoubleField(5, v.unitCost) + DateFieldWith(6, v.mfdDate, mfdSize) + DateFieldWith(7, v.expiryDate, expirySize)
    + EncodeRecs(v.unknown)
  }

  predicate SizeRight(date: Option<TimestampRec>, size: nat)
    requires date.Some? ==> date.value.Ok()
  {
    date.Some? ==> size == |date.value.Encoded()|
  }

  lemma DateFieldWithRight(num: nat, date: Option<TimestampRec>, size: nat)
    requires date.Some? ==> date.value.Ok()
    requires SizeRight(date, size)
    ensures DateFieldWith(num, date, size) == DateField(num, date)
  {
    if date.Some? {
      var body := date.value.Encoded();
      assert EncodeBody(Len(num, body)) == EncodeVarint(size) + body;
      assert EncodeTag(num, WT_LEN) + EncodeVarint(size) + body == EncodeTag(num, WT_LEN) + (EncodeVarint(size) + body);
    }
  }

  /** Length prefixes can be told apart whatever follows them. */
  lemma PrefixDecides(num: nat, date: Option<TimestampRec>, size: nat, tail: Bytes, tail': Bytes)
    requires date.Some? ==> date.value.Ok()
    requires DateFieldWith(num, date, size) + tail == DateField(num, date) + tail'
    ensures SizeRight(date, size) && tail == tail'
  {
    if date.Some? {
      var body, tag := date.value.Encoded(), EncodeTag(num, WT_LEN);
      var x, y := EncodeVarint(size) + (body + tail), EncodeVarint(|body|) + (body + tail');
      DateFieldWithRight(num, date, |body|);
      Assoc(tag + EncodeVarint(size), body, tail);
      Assoc(tag, EncodeVarint(size), body + tail);
      Assoc(tag + EncodeVarint(|body|), body, tail');
      Assoc(tag, EncodeVarint(|body|), body + tail');
      assert x == (tag + x)[|tag|..] && y == (tag + y)[|tag|..];
      VarintPrefix(size, |body|, body + tail, body + tail');
      assert tail == (body + tail)[|body|..] && tail' == (body + tail')[|body|..];
    } else {
      assert [] + tail == tail && [] + tail' == tail';
    }
  }

  /**
   The second pass writes the encoding exactly when every sub-message it writes
   has its true size cached: a size left over from before a change shows.
   */
  lemma CacheDecides(v: RestockItemRec, mfdSize: nat, expirySize: nat)
    requires v.Ok()
    ensures EncodedWith(v, mfdSize, expirySize) == v.Encoded()
       <==> SizeRight(v.mfdDate, mfdSize) && SizeRight(v.expiryDate, expirySize)
  {
    var s := StrField(1, v.sku) + StrField(2, v.name) + StrField(3, v.aisleType) + IntField(4, v.quantity)
             + DoubleField(5, v.unitCost);
    var d6, d7, u := DateFieldWith(6, v.mfdDate, mfdSize), DateFieldWith(7, v.expiryDate, expirySize), EncodeRecs(v.unknown);
    var t6, t7 := DateField(6, v.mfdDate), DateField(7, v.expiryDate);
    if EncodedWith(v, mfdSize, expirySize) == v.Encoded() {
      Assoc(s + d6, d7, u);
      Assoc(s, d6, d7 + u);
      Assoc(s + t6, t7, u);
      Assoc(s, t6, t7 + u);
      assert d6 + (d7 + u) == (s + (d6 + (d7 + u)))[|s|..];
      assert t6 + (t7 + u) == (s + (t6 + (t7 + u)))[|s|..];
      PrefixDecides(6, v.mfdDate, mfdSize, d7 + u, t7 + u);
      PrefixDecides(7, v.expiryDate, expirySize, u, u);
    }
    if SizeRight(v.mfdDate, mfdSize) && SizeRight(v.expiryDate, expirySize) {
      DateFieldWithRight(6, v.mfdDate, mfdSize);
      DateFieldWithRight(7, v.expiryDate, expirySize);
    }
  }

  const NO_ITEM := RestockItemRec([], [], [], 0, 0, None, None, [])

  lemma DateIsVal(date: Option<TimestampRec>)
    requires date.Some? ==> date.value.Ok()
    ensures IsVal(Sub(TIMESTAMP), DateVal(date))
  {
    if date.Some? { TimestampIsMsg(date.value); }
  }

  lemma RestockItemIsMsg(v: RestockItemRec)
    requires v.Ok()
    ensures IsMsg(RESTOCK_ITEM, v.ToMsg())
  {
    var m := v.ToMsg();
    DateIsVal(v.mfdDate);
    DateIsVal(v.expiryDate);
    assert IsVal(Str, m.vals[0]) && IsVal(Str, m.vals[1]) && IsVal(Str, m.vals[2]);
    assert IsVal(Int32, m.vals[3]) && IsVal(Double, m.vals[4]);
  }

  lemma DateMerge(a: Option<TimestampRec>, b: Option<TimestampRec>)
    requires a.Some? ==> a.value.Ok()
    requires b.Some? ==> b.value.Ok()
    ensures DateMerged(a, b).Some? ==> DateMerged(a, b).value.Ok()
    ensures IsVal(Sub(TIMESTAMP), DateVal(a)) && IsVal(Sub(TIMESTAMP), DateVal(b))
    ensures DateVal(DateMerged(a, b)) == MergeVal(Sub(TIMESTAMP), DateVal(a), DateVal(b))
  {
    DateIsVal(a);
    DateIsVal(b);
    if a.Some? && b.Some? { TimestampMerge(a.value, b.value); }
  }

  lemma RestockItemScalarMerge(a: RestockItemRec, b: RestockItemRec)
    requires a.Ok() && b.Ok()
    requires IsMsg(RESTOCK_ITEM, a.ToMsg()) && IsMsg(RESTOCK_ITEM, b.ToMsg())
    ensures a.Merged(b).ToMsg().vals[..5] == Merge(RESTOCK_ITEM, a.ToMsg(), b.ToMsg()).vals[..5]
  {
    hide IsVal, IsMsg, Merge, RestockItemRec.Ok;
    var x, y := a.ToMsg(), b.ToMsg();
    MergeAt(RESTOCK_ITEM, x, y, 0);
    MergeAt(RESTOCK_ITEM, x, y, 1);
    MergeAt(RESTOCK_ITEM, x, y, 2);
    MergeAt(RESTOCK_ITEM, x, y, 3);
    MergeAt(RESTOCK_ITEM, x, y, 4);
    var m := Merge(RESTOCK_ITEM, x, y);
    assert m.vals[..5] == [m.vals[0], m.vals[1], m.vals[2], m.vals[3], m.vals[4]];
  }

  lemma MergeAt(s: Schema, a: Msg, b: Msg, i: nat)
    requires IsMsg(s, a) && IsMsg(s, b) && i < |s.fields|
    ensures IsVal(s.fields[i].kind, a.vals[i]) && IsVal(s.fields[i].kind, b.vals[i])
    ensures |Merge(s, a, b).vals| == |s.fields|
    ensures Merge(s, a, b).vals[i] == MergeVal(s.fields[i].kind, a.vals[i], b.vals[i])
  {
  }

  lemma RestockItemMergedOk(a: RestockItemRec, b: RestockItemRec)
    requires a.Ok() && b.Ok()
    ensures a.Merged(b).Ok()
  {
    hide TimestampRec.Ok, IsVal, DateMerged, UnknownOk;
    DateMerge(a.mfdDate, b.mfdDate);
    DateMerge(a.expiryDate, b.expiryDate);
    UnknownJoined(RESTOCK_ITEM, a.unknown, b.unknown);
  }

  lemma RestockItemMerge(a: RestockItemRec, b: RestockItemRec)
    requires a.Ok() && b.Ok()
    ensures a.Merged(b).Ok()
    ensures IsMsg(RESTOCK_ITEM, a.ToMsg()) && IsMsg(RESTOCK_ITEM, b.ToMsg())
    ensures a.Merged(b).ToMsg() == Merge(RESTOCK_ITEM, a.ToMsg(), b.ToMsg())
  {
    hide IsMsg, MergeVal, UnknownOk, DateMerged, TimestampRec.Ok, IsVal;
    RestockItemMergedOk(a, b);
    RestockItemIsMsg(a);
    RestockItemIsMsg(b);
    DateMerge(a.mfdDate, b.mfdDate);
    DateMerge(a.expiryDate, b.expiryDate);
    var l, r := a.Merged(b).ToMsg().vals, Merge(RESTOCK_ITEM, a.ToMsg(), b.ToMsg()).vals;
    MergeAt(RESTOCK_ITEM, a.ToMsg(), b.ToMsg(), 5);
    MergeAt(RESTOCK_ITEM, a.ToMsg(), b.ToMsg(), 6);
    RestockItemScalarMerge(a, b);
    SevenVals(l, r);
  }

  lemma SevenVals(l: seq<Val>, r: seq<Val>)
    requires |l| == |r| == 7 && l[..5] == r[..5] && l[5] == r[5] && l[6] == r[6]
    ensures l == r
  {
    assert l == l[..5] + [l[5], l[6]] && r == r[..5] + [r[5], r[6]];
  }

  lemma DateEncoding(num: nat, date: Option<TimestampRec>, ord: Order)
    requires date.Some? ==> date.value.Ok()
    ensures IsVal(Sub(TIMESTAMP), DateVal(date))
    ensures EncodeRecs(FieldRecs(num, Sub(TIMESTAMP), DateVal(date), ord)) == DateField(num, date)
  {
    DateIsVal(date);
    FieldEncoding(num, Sub(TIMESTAMP), DateVal(date), ord);
    if date.Some? { TimestampEncoding(date.value, ord); }
  }

  lemma RestockItemEncoding(v: RestockItemRec, ord: Order)
    requires v.Ok()
    ensures IsMsg(RESTOCK_ITEM, v.ToMsg())
    ensures Serialize(RESTOCK_ITEM, v.ToMsg(), ord) == v.Encoded()
  {
    var s, m := RESTOCK_ITEM, v.ToMsg();
    RestockItemIsMsg(v);
    SerializeIsFields(s, m, ord);
    RestockItemScalars(v, ord);
    DateEncoding(6, v.mfdDate, ord);
    DateEncoding(7, v.expiryDate, ord);
    assert FieldsUpTo(s, m, ord, 6) == FieldsUpTo(s, m, ord, 5) + DateField(6, v.mfdDate);
    assert FieldsUpTo(s, m, ord, 7) == FieldsUpTo(s, m, ord, 6) + DateField(7, v.expiryDate);
  }

  lemma RestockItemScalars(v: RestockItemRec, ord: Order)
    requires v.Ok() && IsMsg(RESTOCK_ITEM, v.ToMsg())
    ensures FieldsUpTo(RESTOCK_ITEM, v.ToMsg(), ord, 5)
         == StrField(1, v.sku) + StrField(2, v.name) + StrField(3, v.aisleType) + IntField(4, v.quantity)
            + DoubleField(5, v.unitCost)
  {
    hide StrField, IntField, DoubleField, EncodeRecs, FieldRecs, RestockItemRec.Ok;
    var s, m := RESTOCK_ITEM, v.ToMsg();
    FieldEncoding(1, Str, m.vals[0], ord);
    FieldEncoding(2, Str, m.vals[1], ord);
    FieldEncoding(3, Str, m.vals[2], ord);
    FieldEncoding(4, Int32, m.vals[3], ord);
    FieldEncoding(5, Double, m.vals[4], ord);
    assert FieldsUpTo(s, m, ord, 1) == [] + StrField(1, v.sku) == StrField(1, v.sku);
    assert FieldsUpTo(s, m, ord, 2) == StrField(1, v.sku) + StrField(2, v.name);
    assert FieldsUpTo(s, m, ord, 3) == StrField(1, v.sku) + StrField(2, v.name) + StrField(3, v.aisleType);
    assert FieldsUpTo(s, m, ord, 4)
        == StrField(1, v.sku) + StrField(2, v.name) + StrField(3, v.aisleType) + IntField(4, v.quantity);
  }

  // ----------------------------------------------- RestockItemsOrderRequest

  predicate ItemsOk(items: seq<RestockItemRec>) {
    forall i :: 0 <= i < |items| ==> items[i].Ok()
  }

  function ItemsField(num: nat, items: seq<RestockItemRec>): Bytes
    requires ItemsOk(items)
  {
    if items == [] then []
    else EncodeRec(Len(num, items[0].Encoded())) + ItemsField(num, items[1..])
  }

  function ItemsMsgs(items: seq<RestockItemRec>): seq<Msg> {
    seq(|items|, i requires 0 <= i < |items| => items[i].ToMsg())
  }

  datatype RestockRequestRec = RestockRequestRec(orderId: Bytes, items: seq<RestockItemRec>, unknown: seq<Rec>) {
    predicate Ok() {
      ItemsOk(items) && UnknownOk(RESTOCK_REQUEST, unknown)
    }

    function ToMsg(): Msg {
      Msg([VStr(orderId), VSubs(ItemsMsgs(items))], unknown)
    }

    function Merged(b: RestockRequestRec): RestockRequestRec {
      RestockRequestRec(PickStr(orderId, b.orderId), items + b.items, unknown + b.unknown)
    }

    function Encoded(): Bytes
      requires Ok()
    {
      StrField(1, orderId) + ItemsField(2, items) + EncodeRecs(unknown)
    }
  }

  lemma RestockRequestIsMsg(v: RestockRequestRec)
    requires v.Ok()
    ensures IsMsg(RESTOCK_REQUEST, v.ToMsg())
  {
    var m := v.ToMsg();
    forall i | 0 <= i < |v.items|
      ensures IsMsg(RESTOCK_ITEM, ItemsMsgs(v.items)[i])
    {
      RestockItemIsMsg(v.items[i]);
    }
    assert IsVal(Str, m.vals[0]) && IsVal(RepSub(RESTOCK_ITEM), m.vals[1]);
  }

  lemma RestockRequestMerge(a: RestockRequestRec, b: RestockRequestRec)
    requires a.Ok() && b.Ok()
    ensures a.Merged(b).Ok()
    ensures IsMsg(RESTOCK_REQUEST, a.ToMsg()) && IsMsg(RESTOCK_REQUEST, b.ToMsg())
    ensures a.Merged(b).ToMsg() == Merge(RESTOCK_REQUEST, a.ToMsg(), b.ToMsg())
  {
    RestockRequestIsMsg(a);
    RestockRequestIsMsg(b);
    assert ItemsMsgs(a.items + b.items) == ItemsMsgs(a.items) + ItemsMsgs(b.items);
    assert a.Merged(b).ToMsg().vals == Merge(RESTOCK_REQUEST, a.ToMsg(), b.ToMsg()).vals;
  }

  lemma {:induction false} ItemsEncoding(num: nat, items: seq<RestockItemRec>, ord: Order)
    requires ItemsOk(items)
    ensures forall i :: 0 <= i < |items| ==> IsMsg(RESTOCK_ITEM, ItemsMsgs(items)[i])
    ensures EncodeRecs(SubRecs(num, RESTOCK_ITEM, ItemsMsgs(items), ord)) == ItemsField(num, items)
  {
    hide EncodeRec, Serialize, IsMsg, RestockItemRec.Ok, RestockItemRec.Encoded, RestockItemRec.ToMsg;
    if items != [] {
      RestockItemEncoding(items[0], ord);
      ItemsEncoding(num, items[1..], ord);
      assert ItemsMsgs(items)[1..] == ItemsMsgs(items[1..]);
      var rs := SubRecs(num, RESTOCK_ITEM, ItemsMsgs(items), ord);
      assert rs[0] == Len(num, items[0].Encoded()) && rs[1..] == SubRecs(num, RESTOCK_ITEM, ItemsMsgs(items[1..]), ord);
    }
  }

  lemma RestockRequestEncoding(v: RestockRequestRec, ord: Order)
    requires v.Ok()
    ensures IsMsg(RESTOCK_REQUEST, v.ToMsg())
    ensures Serialize(RESTOCK_REQUEST, v.ToMsg(), ord) == v.Encoded()
  {
    var s, m := RESTOCK_REQUEST, v.ToMsg();
    RestockRequestIsMsg(v);
    SerializeIsFields(s, m, ord);
    FieldEncoding(1, Str, m.vals[0], ord);
    ItemsEncoding(2, v.items, ord);
    assert FieldsUpTo(s, m, ord, 1) == [] + StrField(1, v.orderId) == StrField(1, v.orderId);
    assert FieldsUpTo(s, m, ord, 2) == StrField(1, v.orderId) + ItemsField(2, v.items);
  }

  // ------------------------------------------------- ReportJobStatusRequest

  predicate CountsOk(counts: map<Bytes, int>) {
    forall key :: key in counts ==> -TWO_TO_31 <= counts[key] < TWO_TO_31
  }

  /** A map entry as it travels: key and value are written whatever they are. */
  function CountEntry(num: nat, key: Bytes, count: int): Bytes
    requires -TWO_TO_31 <= count < TWO_TO_31
  {
    EncodeRec(Len(num, EncodeRec(Len(1, key)) + EncodeRec(Varint(2, ToVarint(count)))))
  }

  function CountsField(num: nat, counts: map<Bytes, int>, keys: seq<Bytes>): Bytes
    requires CountsOk(counts)
    requires forall i :: 0 <= i < |keys| ==> keys[i] in counts
  {
    if keys == [] then [] else CountEntry(num, keys[0], counts[keys[0]]) + CountsField(num, counts, keys[1..])
  }

  function CountsVals(counts: map<Bytes, int>): map<Bytes, Val> {
    map key | key in counts :: VInt(counts[key])
  }

  datatype ReportRec = ReportRec(
    orderId: Bytes, status: Bytes, processedItems: map<Bytes, int>, orderType: Bytes, unknown: seq<Rec>)
  {
    predicate Ok() {
      CountsOk(processedItems) && UnknownOk(REPORT_REQUEST, unknown)
    }

    function ToMsg(): Msg {
      Msg([VStr(orderId), VStr(status), VMap(CountsVals(processedItems)), VStr(orderType)], unknown)
    }

    function Merged(b: ReportRec): ReportRec {
      ReportRec(PickStr(orderId, b.orderId), PickStr(status, b.status), processedItems + b.processedItems,
                PickStr(orderType, b.orderType), unknown + b.unknown)
    }

    /** The encoding that visits the map entries in the order of `keys`. */
    function Encoded(keys: seq<Bytes>): Bytes
      requires Ok() && forall i :: 0 <= i < |keys| ==> keys[i] in processedItems
    {
      StrField(1, orderId) + StrField(3, status) + CountsField(4, processedItems, keys) + StrField(5, orderType)
      + EncodeRecs(unknown)
    }
  }

  lemma ReportIsMsg(v: ReportRec)
    requires v.Ok()
    ensures IsMsg(REPORT_REQUEST, v.ToMsg())
  {
    var m := v.ToMsg();
    forall key | key in CountsVals(v.processedItems)
      ensures IsEntryValue(PROCESSED_ENTRY, CountsVals(v.processedItems)[key])
    {
      assert IsVal(Int32, VInt(v.processedItems[key]));
    }
    assert IsVal(Str, m.vals[0]) && IsVal(Str, m.vals[1]) && IsVal(Str, m.vals[3]);
    assert IsVal(Map(PROCESSED_ENTRY), m.vals[2]);
  }

  /** The report a message stands for: no two reports are the same message. */
  function ReportOf(m: Msg): (v: ReportRec)
    requires IsMsg(REPORT_REQUEST, m)
    ensures v.Ok() && v.ToMsg() == m
  {
    ReportVals(m);
    var v := ReportRec(m.vals[0].s, m.vals[1].s, map key | key in m.vals[2].entries :: m.vals[2].entries[key].i, m.vals[3].s, m.unknown);
    assert CountsVals(v.processedItems) == m.vals[2].entries;
    assert v.ToMsg().vals == m.vals;
    v
  }

  lemma ReportVals(m: Msg)
    requires IsMsg(REPORT_REQUEST, m)
    ensures |m.vals| == 4 && m.vals[0].VStr? && m.vals[1].VStr? && m.vals[2].VMap? && m.vals[3].VStr?
    ensures forall key :: key in m.vals[2].entries ==>
      m.vals[2].entries[key].VInt? && -TWO_TO_31 <= m.vals[2].entries[key].i < TWO_TO_31
    ensures UnknownOk(REPORT_REQUEST, m.unknown)
  {
    assert IsVal(REPORT_REQUEST.fields[0].kind, m.vals[0]) && IsVal(REPORT_REQUEST.fields[1].kind, m.vals[1]);
    assert IsVal(REPORT_REQUEST.fields[2].kind, m.vals[2]) && IsVal(REPORT_REQUEST.fields[3].kind, m.vals[3]);
  }

  lemma ReportOfMsg(v: ReportRec)
    requires v.Ok()
    ensures IsMsg(REPORT_REQUEST, v.ToMsg()) && ReportOf(v.ToMsg()) == v
  {
    ReportIsMsg(v);
    assert ReportOf(v.ToMsg()).processedItems == v.processedItems;
  }

  /** The report after one more record has been parsed into it. */
  function ReportApplied(v: ReportRec, r: Rec): Option<ReportRec>
    requires v.Ok() && ValidRec(r)
  {
    if r.Len? && r.num == 1 then Some(v.(orderId := r.payload))
    else if r.Len? && r.num == 3 then Some(v.(status := r.payload))
    else if r.Len? && r.num == 4 then
      (ReportRequestValid();
       match ParseInto(PROCESSED_ENTRY, Default(PROCESSED_ENTRY), r.payload)
       case None => None
       case Some(e) =>
         assert IsVal(PROCESSED_ENTRY.fields[0].kind, e.vals[0]) && IsVal(PROCESSED_ENTRY.fields[1].kind, e.vals[1]);
         Some(v.(processedItems := v.processedItems[e.vals[0].s := e.vals[1].i])))
    else if r.Len? && r.num == 5 then Some(v.(orderType := r.payload))
    else Some(v.(unknown := v.unknown + [r]))
  }

  lemma ReportSlots(r: Rec)
    ensures Slot(REPORT_REQUEST, r)
         == if r.Len? && r.num == 1 then Some(0) else if r.Len? && r.num == 3 then Some(1)
            else if r.Len? && r.num == 4 then Some(2) else if r.Len? && r.num == 5 then Some(3) else None
  {
    var s := REPORT_REQUEST;
    assert s.fields[0] == Field(1, Str) && s.fields[1] == Field(3, Str);
    assert s.fields[2] == Field(4, Map(PROCESSED_ENTRY)) && s.fields[3] == Field(5, Str);
    assert r.Len? <==> WireType(r) == WT_LEN;
  }

  lemma ReportApply(v: ReportRec, r: Rec)
    requires v.Ok() && ValidRec(r)
    ensures ValidSchema(REPORT_REQUEST) && IsMsg(REPORT_REQUEST, v.ToMsg())
    ensures ReportApplied(v, r).Some? ==> ReportApplied(v, r).value.Ok()
    ensures Apply(REPORT_REQUEST, v.ToMsg(), r)
         == if ReportApplied(v, r).None? then None else Some(ReportApplied(v, r).value.ToMsg())
  {
    ReportRequestValid();
    ReportIsMsg(v);
    ReportSlots(r);
    if r.Len? && r.num == 4 {
      ReportApplyEntry(v, r);
    } else if Slot(REPORT_REQUEST, r).Some? {
      hide UnknownOk, IsMsg, ValidSchema;
      ReportStringSet(v, r.payload);
    } else {
      hide IsMsg, ValidSchema;
      UnknownGrows(REPORT_REQUEST, v.unknown, r);
    }
  }

  lemma ReportStringSet(v: ReportRec, s: Bytes)
    ensures v.ToMsg().vals[0 := VStr(s)] == v.(orderId := s).ToMsg().vals
    ensures v.ToMsg().vals[1 := VStr(s)] == v.(status := s).ToMsg().vals
    ensures v.ToMsg().vals[3 := VStr(s)] == v.(orderType := s).ToMsg().vals
  {
  }

  lemma ReportApplyEntry(v: ReportRec, r: Rec)
    requires v.Ok() && ValidRec(r) && r.Len? && r.num == 4
    requires ValidSchema(REPORT_REQUEST) && ValidEntry(PROCESSED_ENTRY) && IsMsg(REPORT_REQUEST, v.ToMsg())
    ensures ReportApplied(v, r).Some? ==> ReportApplied(v, r).value.Ok()
    ensures Apply(REPORT_REQUEST, v.ToMsg(), r)
         == if ReportApplied(v, r).None? then None else Some(ReportApplied(v, r).value.ToMsg())
  {
    var m := v.ToMsg();
    ReportSlots(r);
    assert ValidKind(REPORT_REQUEST.fields[2].kind) && IsVal(REPORT_REQUEST.fields[2].kind, m.vals[2]);
    match ParseInto(PROCESSED_ENTRY, Default(PROCESSED_ENTRY), r.payload)
    case None =>
    case Some(e) =>
      assert IsVal(PROCESSED_ENTRY.fields[0].kind, e.vals[0]) && IsVal(PROCESSED_ENTRY.fields[1].kind, e.vals[1]);
      var counts := v.processedItems[e.vals[0].s := e.vals[1].i];
      assert CountsVals(counts) == CountsVals(v.processedItems)[e.vals[0].s := e.vals[1]];
      assert m.vals[2 := VMap(CountsVals(counts))] == v.(processedItems := counts).ToMsg().vals;
  }

  lemma ReportMerge(a: ReportRec, b: ReportRec)
    requires a.Ok() && b.Ok()
    ensures a.Merged(b).Ok()
    ensures IsMsg(REPORT_REQUEST, a.ToMsg()) && IsMsg(REPORT_REQUEST, b.ToMsg())
    ensures a.Merged(b).ToMsg() == Merge(REPORT_REQUEST, a.ToMsg(), b.ToMsg())
  {
    hide IsMsg, UnknownOk, IsVal, CountsVals;
    UnknownJoined(REPORT_REQUEST, a.unknown, b.unknown);
    ReportIsMsg(a);
    ReportIsMsg(b);
    CountsJoined(a.processedItems, b.processedItems);
    MergeAt(REPORT_REQUEST, a.ToMsg(), b.ToMsg(), 0);
    MergeAt(REPORT_REQUEST, a.ToMsg(), b.ToMsg(), 1);
    MergeAt(REPORT_REQUEST, a.ToMsg(), b.ToMsg(), 2);
    MergeAt(REPORT_REQUEST, a.ToMsg(), b.ToMsg(), 3);
    assert a.Merged(b).ToMsg().vals == Merge(REPORT_REQUEST, a.ToMsg(), b.ToMsg()).vals;
  }

  lemma CountsJoined(a: map<Bytes, int>, b: map<Bytes, int>)
    ensures CountsVals(a + b) == CountsVals(a) + CountsVals(b)
    ensures CountsOk(a) && CountsOk(b) ==> CountsOk(a + b)
  {
  }

  lemma CountEntryEncoding(num: nat, key: Bytes, count: int, ord: Order)
    requires -TWO_TO_31 <= count < TWO_TO_31
    ensures IsEntryValue(PROCESSED_ENTRY, VInt(count))
    ensures EncodeRec(Len(num, EncodeRecs(EntryBody(PROCESSED_ENTRY, key, VInt(count), ord)))) == CountEntry(num, key, count)
  {
    assert IsVal(Int32, VInt(count));
    var r, r' := Len(1, key), Varint(2, ToVarint(count));
    assert EntryBody(PROCESSED_ENTRY, key, VInt(count), ord) == [r] + [r'];
    EncodeRecsAppend([r], [r']);
    EncodeOne(r);
    EncodeOne(r');
  }

  lemma {:induction false} CountsEncoding(num: nat, counts: map<Bytes, int>, keys: seq<Bytes>, ord: Order)
    requires CountsOk(counts)
    requires IsVal(Map(PROCESSED_ENTRY), VMap(CountsVals(counts)))
    requires forall i :: 0 <= i < |keys| ==> keys[i] in counts
    ensures EncodeRecs(EntryRecs(num, PROCESSED_ENTRY, CountsVals(counts), keys, ord)) == CountsField(num, counts, keys)
  {
    if keys != [] {
      CountEntryEncoding(num, keys[0], counts[keys[0]], ord);
      CountsEncoding(num, counts, keys[1..], ord);
      var rs := EntryRecs(num, PROCESSED_ENTRY, CountsVals(counts), keys, ord);
      assert rs[1..] == EntryRecs(num, PROCESSED_ENTRY, CountsVals(counts), keys[1..], ord);
    }
  }

  lemma ReportEncoding(v: ReportRec, ord: Order)
    requires v.Ok() && ValidOrder(ord)
    ensures IsMsg(REPORT_REQUEST, v.ToMsg())
    ensures forall i :: 0 <= i < |ord(v.processedItems.Keys)| ==> ord(v.processedItems.Keys)[i] in v.processedItems
    ensures Serialize(REPORT_REQUEST, v.ToMsg(), ord) == v.Encoded(ord(v.processedItems.Keys))
  {
    var s, m, keys := REPORT_REQUEST, v.ToMsg(), ord(v.processedItems.Keys);
    ReportIsMsg(v);
    SerializeIsFields(s, m, ord);
    FieldEncoding(1, Str, m.vals[0], ord);
    FieldEncoding(3, Str, m.vals[1], ord);
    FieldEncoding(5, Str, m.vals[3], ord);
    assert CountsVals(v.processedItems).Keys == v.processedItems.Keys;
    assert Enumerates(keys, v.processedItems.Keys);
    assert IsVal(Map(PROCESSED_ENTRY), m.vals[2]);
    CountsEncoding(4, v.processedItems, keys, ord);
    assert FieldsUpTo(s, m, ord, 1) == [] + StrField(1, v.orderId) == StrField(1, v.orderId);
    assert FieldsUpTo(s, m, ord, 2) == StrField(1, v.orderId) + StrField(3, v.status);
    assert FieldsUpTo(s, m, ord, 3)
        == StrField(1, v.orderId) + StrField(3, v.status) + CountsField(4, v.processedItems, keys);
  }

  // ---------------------------------------------- CheckAvailabilityResponse

  predicate StockOk(stock: map<Bytes, StockLevelRec>) {
    forall key :: key in stock ==> stock[key].Ok()
  }

  function StockEntry(num: nat, key: Bytes, level: StockLevelRec): Bytes
    requires level.Ok()
  {
    EncodeRec(Len(num, EncodeRec(Len(1, key)) + EncodeRec(Len(2, level.Encoded()))))
  }

  function StockField(num: nat, stock: map<Bytes, StockLevelRec>, keys: seq<Bytes>): Bytes
    requires StockOk(stock)
    requires forall i :: 0 <= i < |keys| ==> keys[i] in stock
  {
    if keys == [] then [] else StockEntry(num, keys[0], stock[keys[0]]) + StockField(num, stock, keys[1..])
  }

  function StockVals(stock: map<Bytes, StockLevelRec>): map<Bytes, Val> {
    map key | key in stock :: VSub(Some(stock[key].ToMsg()))
  }

  datatype AvailabilityRec = AvailabilityRec(items: map<Bytes, StockLevelRec>, unknown: seq<Rec>) {
    predicate Ok() {
      StockOk(items) && UnknownOk(AVAILABILITY_RESPONSE, unknown)
    }

    function ToMsg(): Msg {
      Msg([VMap(StockVals(items))], unknown)
    }

    function Merged(b: AvailabilityRec): AvailabilityRec {
      AvailabilityRec(items + b.items, unknown + b.unknown)
    }

    function Encoded(keys: seq<Bytes>): Bytes
      requires Ok() && forall i :: 0 <= i < |keys| ==> keys[i] in items
    {
      StockField(1, items, keys) + EncodeRecs(unknown)
    }
  }

  lemma AvailabilityIsMsg(v: AvailabilityRec)
    requires v.Ok()
    ensures IsMsg(AVAILABILITY_RESPONSE, v.ToMsg())
  {
    var m := v.ToMsg();
    forall key | key in StockVals(v.items)
      ensures IsEntryValue(ITEMS_ENTRY, StockVals(v.items)[key])
    {
      StockLevelIsMsg(v.items[key]);
      assert IsVal(Sub(STOCK_LEVEL), VSub(Some(v.items[key].ToMsg())));
    }
    assert IsVal(Map(ITEMS_ENTRY), m.vals[0]);
  }

  /** The response a message stands for: no two responses are the same message. */
  function AvailabilityOf(m: Msg): (v: AvailabilityRec)
    requires IsMsg(AVAILABILITY_RESPONSE, m)
    ensures v.Ok() && v.ToMsg() == m
  {
    hide UnknownOk, IsMsg, StockLevelRec.Ok, ValidSchema;
    AvailabilityVals(m);
    var entries := m.vals[0].entries;
    var items := map key | key in entries :: StockLevelOf(entries[key].m.value);
    StockBack(entries, items);
    AvailabilityBack(m, items);
    AvailabilityRec(items, m.unknown)
  }

  lemma StockBack(entries: map<Bytes, Val>, items: map<Bytes, StockLevelRec>)
    requires forall key :: key in entries ==> entries[key].VSub? && entries[key].m.Some? && IsMsg(STOCK_LEVEL, entries[key].m.value)
    requires items.Keys == entries.Keys && forall key :: key in items ==> items[key] == StockLevelOf(entries[key].m.value)
    ensures StockOk(items) && StockVals(items) == entries
  {
    hide IsMsg, StockLevelRec.Ok, StockLevelRec.ToMsg;
  }

  lemma AvailabilityBack(m: Msg, items: map<Bytes, StockLevelRec>)
    requires |m.vals| == 1 && m.vals[0] == VMap(StockVals(items))
    ensures AvailabilityRec(items, m.unknown).ToMsg() == m
  {
    assert AvailabilityRec(items, m.unknown).ToMsg().vals == m.vals;
  }

  lemma AvailabilityVals(m: Msg)
    requires IsMsg(AVAILABILITY_RESPONSE, m)
    ensures |m.vals| == 1 && m.vals[0].VMap? && UnknownOk(AVAILABILITY_RESPONSE, m.unknown)
    ensures forall key :: key in m.vals[0].entries ==>
      var v := m.vals[0].entries[key]; v.VSub? && v.m.Some? && IsMsg(STOCK_LEVEL, v.m.value)
  {
    assert IsVal(AVAILABILITY_RESPONSE.fields[0].kind, m.vals[0]);
    hide IsMsg;
    forall key | key in m.vals[0].entries
      ensures var v := m.vals[0].entries[key]; v.VSub? && v.m.Some? && IsMsg(STOCK_LEVEL, v.m.value)
    {
      PresentIsMsg(ITEMS_ENTRY, STOCK_LEVEL, m.vals[0].entries[key]);
    }
  }

  lemma PresentIsMsg(entry: Schema, s: Schema, v: Val)
    requires EntryShape(entry) && ValueKind(entry) == Sub(s) && IsEntryValue(entry, v)
    ensures v.VSub? && v.m.Some? && IsMsg(s, v.m.value)
  {
    assert IsVal(Sub(s), v);
  }

  lemma AvailabilityOfMsg(v: AvailabilityRec)
    requires v.Ok()
    ensures IsMsg(AVAILABILITY_RESPONSE, v.ToMsg()) && AvailabilityOf(v.ToMsg()) == v
  {
    AvailabilityIsMsg(v);
    var w := AvailabilityOf(v.ToMsg());
    forall key | key in v.items
      ensures w.items[key] == v.items[key]
    {
      assert StockVals(w.items)[key] == StockVals(v.items)[key];
      StockLevelToMsgOnce(w.items[key], v.items[key]);
    }
    assert StockVals(w.items).Keys == StockVals(v.items).Keys;
    assert w.items == v.items;
  }

  lemma StockLevelToMsgOnce(a: StockLevelRec, b: StockLevelRec)
    requires a.ToMsg() == b.ToMsg()
    ensures a == b
  {
    assert a.ToMsg().vals[0] == b.ToMsg().vals[0] && a.ToMsg().vals[1] == b.ToMsg().vals[1];
    assert a.ToMsg().vals[2] == b.ToMsg().vals[2] && a.ToMsg().vals[3] == b.ToMsg().vals[3];
  }

  lemma AvailabilityMerge(a: AvailabilityRec, b: AvailabilityRec)
    requires a.Ok() && b.Ok()
    ensures a.Merged(b).Ok()
    ensures IsMsg(AVAILABILITY_RESPONSE, a.ToMsg()) && IsMsg(AVAILABILITY_RESPONSE, b.ToMsg())
    ensures a.Merged(b).ToMsg() == Merge(AVAILABILITY_RESPONSE, a.ToMsg(), b.ToMsg())
  {
    hide IsMsg, UnknownOk, IsVal, StockVals, StockOk;
    UnknownJoined(AVAILABILITY_RESPONSE, a.unknown, b.unknown);
    AvailabilityIsMsg(a);
    AvailabilityIsMsg(b);
    StockJoined(a.items, b.items);
    MergeAt(AVAILABILITY_RESPONSE, a.ToMsg(), b.ToMsg(), 0);
    assert a.Merged(b).ToMsg().vals == Merge(AVAILABILITY_RESPONSE, a.ToMsg(), b.ToMsg()).vals;
  }

  lemma StockJoined(a: map<Bytes, StockLevelRec>, b: map<Bytes, StockLevelRec>)
    ensures StockVals(a + b) == StockVals(a) + StockVals(b)
    ensures StockOk(a) && StockOk(b) ==> StockOk(a + b)
  {
    hide StockLevelRec.Ok, StockLevelRec.ToMsg;
  }

  lemma StockEntryEncoding(num: nat, key: Bytes, level: StockLevelRec, ord: Order)
    requires level.Ok()
    ensures IsEntryValue(ITEMS_ENTRY, VSub(Some(level.ToMsg())))
    ensures EncodeRec(Len(num, EncodeRecs(EntryBody(ITEMS_ENTRY, key, VSub(Some(level.ToMsg())), ord))))
         == StockEntry(num, key, level)
  {
    StockLevelEncoding(level, ord);
    assert IsVal(Sub(STOCK_LEVEL), VSub(Some(level.ToMsg())));
    var r, r' := Len(1, key), Len(2, level.Encoded());
    assert EntryBody(ITEMS_ENTRY, key, VSub(Some(level.ToMsg())), ord) == [r] + [r'];
    EncodeRecsAppend([r], [r']);
    EncodeOne(r);
    EncodeOne(r');
  }

  lemma {:induction false} StockEncoding(num: nat, stock: map<Bytes, StockLevelRec>, keys: seq<Bytes>, ord: Order)
    requires StockOk(stock)
    requires IsVal(Map(ITEMS_ENTRY), VMap(StockVals(stock)))
    requires forall i :: 0 <= i < |keys| ==> keys[i] in stock
    ensures EncodeRecs(EntryRecs(num, ITEMS_ENTRY, StockVals(stock), keys, ord)) == StockField(num, stock, keys)
  {
    if keys != [] {
      StockEntryEncoding(num, keys[0], stock[keys[0]], ord);
      StockEncoding(num, stock, keys[1..], ord);
      var rs := EntryRecs(num, ITEMS_ENTRY, StockVals(stock), keys, ord);
      assert rs[1..] == EntryRecs(num, ITEMS_ENTRY, StockVals(stock), keys[1..], ord);
    }
  }

  lemma AvailabilityEncoding(v: AvailabilityRec, ord: Order)
    requires v.Ok() && ValidOrder(ord)
    ensures IsMsg(AVAILABILITY_RESPONSE, v.ToMsg())
    ensures forall i :: 0 <= i < |ord(v.items.Keys)| ==> ord(v.items.Keys)[i] in v.items
    ensures Serialize(AVAILABILITY_RESPONSE, v.ToMsg(), ord) == v.Encoded(ord(v.items.Keys))
  {
    var s, m, keys := AVAILABILITY_RESPONSE, v.ToMsg(), ord(v.items.Keys);
    AvailabilityIsMsg(v);
    SerializeIsFields(s, m, ord);
    assert StockVals(v.items).Keys == v.items.Keys;
    assert Enumerates(keys, v.items.Keys);
    assert IsVal(Map(ITEMS_ENTRY), m.vals[0]);
    StockEncoding(1, v.items, keys, ord);
    assert FieldsUpTo(s, m, ord, 1) == [] + StockField(1, v.items, keys) == StockField(1, v.items, keys);
  }

  // ----------------------------------------------- CheckAvailabilityRequest

  function StrsField(num: nat, ss: seq<Bytes>): Bytes {
    if ss == [] then [] else EncodeRec(Len(num, ss[0])) + StrsField(num, ss[1..])
  }

  datatype SkusRec = SkusRec(skus: seq<Bytes>, unknown: seq<Rec>) {
    predicate Ok() {
      UnknownOk(AVAILABILITY_REQUEST, unknown)
    }

    function ToMsg(): Msg {
      Msg([VStrs(skus)], unknown)
    }

    function Merged(b: SkusRec): SkusRec {
      SkusRec(skus + b.skus, unknown + b.unknown)
    }

    function Encoded(): Bytes {
      StrsField(1, skus) + EncodeRecs(unknown)
    }
  }

  lemma SkusMerge(a: SkusRec, b: SkusRec)
    requires a.Ok() && b.Ok()
    ensures a.Merged(b).Ok()
    ensures IsMsg(AVAILABILITY_REQUEST, a.ToMsg()) && IsMsg(AVAILABILITY_REQUEST, b.ToMsg())
    ensures a.Merged(b).ToMsg() == Merge(AVAILABILITY_REQUEST, a.ToMsg(), b.ToMsg())
  {
    assert IsVal(RepStr, a.ToMsg().vals[0]) && IsVal(RepStr, b.ToMsg().vals[0]);
    assert a.Merged(b).ToMsg().vals == Merge(AVAILABILITY_REQUEST, a.ToMsg(), b.ToMsg()).vals;
  }

  lemma {:induction false} StrsEncoding(num: nat, ss: seq<Bytes>)
    ensures EncodeRecs(StrRecs(num, ss)) == StrsField(num, ss)
  {
    if ss != [] {
      StrsEncoding(num, ss[1..]);
      assert StrRecs(num, ss)[1..] == StrRecs(num, ss[1..]);
    }
  }

  lemma SkusEncoding(v: SkusRec, ord: Order)
    requires v.Ok()
    ensures IsMsg(AVAILABILITY_REQUEST, v.ToMsg())
    ensures Serialize(AVAILABILITY_REQUEST, v.ToMsg(), ord) == v.Encoded()
  {
    var s, m := AVAILABILITY_REQUEST, v.ToMsg();
    assert IsVal(RepStr, m.vals[0]);
    SerializeIsFields(s, m, ord);
    StrsEncoding(1, v.skus);
    assert FieldsUpTo(s, m, ord, 1) == [] + StrsField(1, v.skus) == StrsField(1, v.skus);
  }
}
