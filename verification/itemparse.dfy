/** Parsing a RestockItem in place, record by record, into sub-messages that may be there already. */
module ItemParse {
  import opened Wire
  import opened Message
  import opened Codec
  import opened Inventory
  import opened Objects
  import opened ParseTable

  // -------------------------------------------------------------- Timestamp

  function TimestampOf(m: Msg): (v: TimestampRec)
    requires IsMsg(TIMESTAMP, m)
    ensures v.Ok() && v.ToMsg() == m
  {
    assert IsVal(TIMESTAMP.fields[0].kind, m.vals[0]) && IsVal(TIMESTAMP.fields[1].kind, m.vals[1]);
    assert m.vals == [m.vals[0], m.vals[1]];
    TimestampRec(m.vals[0].i, m.vals[1].i, m.unknown)
  }

  /** The timestamp after one more record has been parsed into it. */
  function TimestampApplied(v: TimestampRec, r: Rec): TimestampRec
    requires v.Ok() && ValidRec(r)
  {
    if r.Varint? && r.num == 1 then v.(seconds := FromVarint64(r.v))
    else if r.Varint? && r.num == 2 then v.(nanos := FromVarint32(r.v))
    else v.(unknown := v.unknown + [r])
  }

  lemma TimestampSlots(r: Rec)
    ensures Slot(TIMESTAMP, r)
         == if r.Varint? && r.num == 1 then Some(0) else if r.Varint? && r.num == 2 then Some(1) else None
  {
    assert TIMESTAMP.fields[0] == Field(1, Int64) && TIMESTAMP.fields[1] == Field(2, Int32);
    assert r.Varint? <==> WireType(r) == WT_VARINT;
  }

  lemma TimestampApply(v: TimestampRec, r: Rec)
    requires v.Ok() && ValidRec(r)
    ensures ValidSchema(TIMESTAMP) && IsMsg(TIMESTAMP, v.ToMsg())
    ensures TimestampApplied(v, r).Ok()
    ensures Apply(TIMESTAMP, v.ToMsg(), r) == Some(TimestampApplied(v, r).ToMsg())
  {
    hide UnknownOk, IsMsg, ValidSchema, FromVarint32, FromVarint64;
    TimestampValid();
    TimestampIsMsg(v);
    TimestampSlots(r);
    if r.Varint? {
      TimestampSet(v, FromVarint64(r.v));
      TimestampSet(v, FromVarint32(r.v));
    }
    if Slot(TIMESTAMP, r).None? { UnknownGrows(TIMESTAMP, v.unknown, r); }
  }

  lemma TimestampSet(v: TimestampRec, i: int)
    ensures v.ToMsg().vals[0 := VInt(i)] == v.(seconds := i).ToMsg().vals
    ensures v.ToMsg().vals[1 := VInt(i)] == v.(nanos := i).ToMsg().vals
  {
  }

  /** What parsing the input on top of a timestamp leaves. */
  function TimestampParsed(v: TimestampRec, bs: Bytes): (r: Option<TimestampRec>)
    requires v.Ok()
    ensures r.Some? ==> r.value.Ok()
  {
    TimestampValid();
    TimestampIsMsg(v);
    match ParseInto(TIMESTAMP, v.ToMsg(), bs)
    case None => None
    case Some(m) => Some(TimestampOf(m))
  }

  method ParseTimestampRecord(date: Timestamp, r: Rec)
    requires date.Valid() && ValidRec(r)
    modifies date
    ensures date.Valid() && date.Value() == TimestampApplied(old(date.Value()), r)
  {
    TimestampApply(date.Value(), r);
    if r.Varint? && r.num == 1 {
      date.seconds := FromVarint64(r.v);
      date.hasBits := date.hasBits + {0};
    } else if r.Varint? && r.num == 2 {
      date.nanos := FromVarint32(r.v);
      date.hasBits := date.hasBits + {1};
    } else {
      date.unknown := date.unknown + [r];
    }
  }

  method ParseTimestamp(date: Timestamp, bs: Bytes) returns (ok: bool)
    requires date.Valid()
    modifies date
    ensures date.Valid()
    ensures ok <==> TimestampParsed(old(date.Value()), bs).Some?
    ensures ok ==> TimestampParsed(old(date.Value()), bs) == Some(date.Value())
  {
    hide UnknownOk, ParseInto, TimestampApplied, IsMsg, ValidSchema, ReadOne, Timestamp.Valid;
    DateIsOk(date);
    TimestampValid();
    TimestampIsMsg(date.Value());
    ghost var goal := ParseInto(TIMESTAMP, date.Value().ToMsg(), bs);
    var rest := bs;
    while |rest| != 0
      invariant date.Valid() && date.Value().Ok() && IsMsg(TIMESTAMP, date.Value().ToMsg())
      invariant ParseInto(TIMESTAMP, date.Value().ToMsg(), rest) == goal
      decreases |rest|
    {
      ParseStep(TIMESTAMP, date.Value().ToMsg(), rest);
      var one := ReadOne(rest);
      if one.Fail? { return false; }
      TimestampApply(date.Value(), one.value);
      ParseTimestampRecord(date, one.value);
      rest := one.rest;
    }
    ParseNothing(TIMESTAMP, date.Value().ToMsg());
    ok := true;
  }

  lemma DateIsOk(date: Timestamp)
    requires date.Valid()
    ensures date.Value().Ok()
  {
  }

  // ------------------------------------------------------------ RestockItem

  /** A sub-message record is parsed into the sub-message there is, or into a new one. */
  function DateParsed(date: Option<TimestampRec>, payload: Bytes): (r: Option<TimestampRec>)
    requires date.Some? ==> date.value.Ok()
    ensures r.Some? ==> r.value.Ok()
  {
    EmptyDate();
    TimestampParsed(if date.Some? then date.value else NO_TIMESTAMP, payload)
  }

  lemma EmptyDate()
    ensures NO_TIMESTAMP.Ok() && ValidSchema(TIMESTAMP) && NO_TIMESTAMP.ToMsg() == Default(TIMESTAMP)
  {
    TimestampValid();
    assert NO_TIMESTAMP.ToMsg().vals == Default(TIMESTAMP).vals;
  }

  /** The item after one more record has been parsed into it. */
  function ItemApplied(v: RestockItemRec, r: Rec): Option<RestockItemRec>
    requires v.Ok() && ValidRec(r)
  {
    if r.Len? && r.num == 1 then Some(v.(sku := r.payload))
    else if r.Len? && r.num == 2 then Some(v.(name := r.payload))
    else if r.Len? && r.num == 3 then Some(v.(aisleType := r.payload))
    else if r.Varint? && r.num == 4 then Some(v.(quantity := FromVarint32(r.v)))
    else if r.Fixed64? && r.num == 5 then Some(v.(unitCost := r.bits))
    else if r.Len? && r.num == 6 then
      (match DateParsed(v.mfdDate, r.payload)
       case None => None
       case Some(date) => Some(v.(mfdDate := Some(date))))
    else if r.Len? && r.num == 7 then
      (match DateParsed(v.expiryDate, r.payload)
       case None => None
       case Some(date) => Some(v.(expiryDate := Some(date))))
    else Some(v.(unknown := v.unknown + [r]))
  }

  function ItemSlot(r: Rec): Option<nat> {
    if r.Len? && (1 <= r.num <= 3 || r.num == 6 || r.num == 7) then Some(r.num - 1)
    else if r.Varint? && r.num == 4 then Some(3)
    else if r.Fixed64? && r.num == 5 then Some(4)
    else None
  }

  lemma ItemSlots(r: Rec)
    ensures Slot(RESTOCK_ITEM, r) == ItemSlot(r)
  {
    var s := RESTOCK_ITEM;
    assert forall i :: 0 <= i < 7 ==> s.fields[i].num == i + 1;
    assert r.Len? <==> WireType(r) == WT_LEN;
    assert r.Varint? <==> WireType(r) == WT_VARINT;
    assert r.Fixed64? <==> WireType(r) == WT_FIXED64;
    assert 1 <= r.num <= 7 ==> s.fields[r.num - 1].num == r.num;
  }

  lemma DateApply(date: Option<TimestampRec>, r: Rec)
    requires (date.Some? ==> date.value.Ok()) && ValidRec(r) && r.Len?
    ensures ValidKind(Sub(TIMESTAMP)) && IsVal(Sub(TIMESTAMP), DateVal(date))
    ensures ApplyVal(Sub(TIMESTAMP), DateVal(date), r)
         == match DateParsed(date, r.payload) case None => None case Some(d) => Some(DateVal(Some(d)))
  {
    EmptyDate();
    DateIsVal(date);
  }

  lemma ItemApply(v: RestockItemRec, r: Rec)
    requires v.Ok() && ValidRec(r)
    ensures ValidSchema(RESTOCK_ITEM) && IsMsg(RESTOCK_ITEM, v.ToMsg())
    ensures ItemApplied(v, r).Some? ==> ItemApplied(v, r).value.Ok()
    ensures Apply(RESTOCK_ITEM, v.ToMsg(), r)
         == if ItemApplied(v, r).None? then None else Some(ItemApplied(v, r).value.ToMsg())
  {
    hide UnknownOk, TimestampParsed, IsMsg, ValidSchema, TimestampRec.Ok, DateParsed;
    RestockItemValid();
    RestockItemIsMsg(v);
    ItemSlots(r);
    if ItemSlot(r) == None {
      UnknownGrows(RESTOCK_ITEM, v.unknown, r);
    } else if ItemSlot(r) == Some(5) || ItemSlot(r) == Some(6) {
      ItemApplyDate(v, r);
    } else {
      FieldSet(v, r);
    }
  }

  lemma ItemApplyDate(v: RestockItemRec, r: Rec)
    requires v.Ok() && ValidRec(r) && (ItemSlot(r) == Some(5) || ItemSlot(r) == Some(6))
    requires ValidSchema(RESTOCK_ITEM) && IsMsg(RESTOCK_ITEM, v.ToMsg())
    ensures ItemApplied(v, r).Some? ==> ItemApplied(v, r).value.Ok()
    ensures Apply(RESTOCK_ITEM, v.ToMsg(), r)
         == if ItemApplied(v, r).None? then None else Some(ItemApplied(v, r).value.ToMsg())
  {
    hide UnknownOk, TimestampParsed, IsMsg, ValidSchema, TimestampRec.Ok, DateParsed, ApplyVal;
    ItemSlots(r);
    DateApply(if r.num == 6 then v.mfdDate else v.expiryDate, r);
    if ItemApplied(v, r).Some? { FieldSet(v, r); }
  }

  lemma FieldSet(v: RestockItemRec, r: Rec)
    requires v.Ok() && ValidRec(r) && ItemApplied(v, r).Some? && ItemSlot(r).Some?
    ensures var m, m' := v.ToMsg(), ItemApplied(v, r).value.ToMsg();
            m'.unknown == m.unknown && m'.vals == m.vals[ItemSlot(r).value := m'.vals[ItemSlot(r).value]]
  {
  }

  /** Parses into the sub-message that is allocated, be it present or cleared, or into a new one. */
  method ParseDate(bits: HasBits, k: nat, held: Timestamp?, payload: Bytes) returns (ok: bool, date: Timestamp)
    requires DateOk(bits, k, held)
    modifies held
    ensures date.Valid() && (if held == null then fresh(date) else date == held)
    ensures ok <==> DateParsed(old(DateValue(bits, k, held)), payload).Some?
    ensures ok ==> DateParsed(old(DateValue(bits, k, held)), payload) == Some(date.Value())
  {
    hide UnknownOk, TimestampParsed;
    if held == null {
      date := new Timestamp();
    } else {
      date := held;
    }
    ok := ParseTimestamp(date, payload);
  }

  /** The targets in the parse table are the fields and has-bits of the message object. */
  lemma ItemTargets(r: Rec)
    requires EntriesFit(RESTOCK_ITEM_TABLE, RESTOCK_ITEM)
    ensures Wanted(RESTOCK_ITEM_TABLE, RESTOCK_ITEM, r)
         == match ItemSlot(r) case None => Target.Unknown case Some(i) => Known(i, [0, 1, 2, 6, 5, 3, 4][i], if i == 6 then 1 else 0)
  {
    ItemSlots(r);
  }

  method ParseItemRecord(item: RestockItem, r: Rec, target: Target) returns (ok: bool)
    requires item.Valid() && ValidRec(r) && EntriesFit(RESTOCK_ITEM_TABLE, RESTOCK_ITEM)
    requires target == Wanted(RESTOCK_ITEM_TABLE, RESTOCK_ITEM, r)
    modifies item, item.impl.mfdDate, item.impl.expiryDate
    ensures item.Valid()
    ensures item.impl.mfdDate != old(item.impl.mfdDate) ==> fresh(item.impl.mfdDate)
    ensures item.impl.expiryDate != old(item.impl.expiryDate) ==> fresh(item.impl.expiryDate)
    ensures ok <==> ItemApplied(old(item.Value()), r).Some?
    ensures ok ==> ItemApplied(old(item.Value()), r) == Some(item.Value())
    ensures item.impl.hasBits == old(item.impl.hasBits) + (if target.Known? then {target.hasBit} else {})
  {
    hide UnknownOk, DateParsed, ItemApplied, RestockItem.Valid, RestockItem.Value;
    ItemTargets(r);
    if target.Unknown? {
      ParseUnknown(item, r);
      ok := true;
    } else if target.field == 5 {
      ok := ParseMfdDate(item, r, target.hasBit);
    } else if target.field == 6 {
      ok := ParseExpiryDate(item, r, target.hasBit);
    } else {
      ParseScalar(item, r, target.field, target.hasBit);
      ok := true;
    }
  }

  method ParseUnknown(item: RestockItem, r: Rec)
    requires item.Valid() && ValidRec(r) && ItemSlot(r) == None
    modifies item`unknown
    ensures item.Valid() && ItemApplied(old(item.Value()), r) == Some(item.Value())
  {
    hide UnknownOk, DateParsed;
    ItemSlots(r);
    UnknownGrows(RESTOCK_ITEM, item.unknown, r);
    item.unknown := item.unknown + [r];
  }

  method ParseScalar(item: RestockItem, r: Rec, field: nat, bit: nat)
    requires item.Valid() && ValidRec(r) && ItemSlot(r) == Some(field) && field < 5 && bit == [0, 1, 2, 6, 5][field]
    modifies item`impl
    ensures item.Valid() && ItemApplied(old(item.Value()), r) == Some(item.Value())
    ensures item.impl.mfdDate == old(item.impl.mfdDate) && item.impl.expiryDate == old(item.impl.expiryDate)
    ensures item.impl.hasBits == old(item.impl.hasBits) + {bit}
  {
    hide UnknownOk, DateParsed, ItemApplied, RestockItem.Valid, RestockItem.Value;
    if field <= 2 { ParseString(item, r, field, bit); } else { ParseNumber(item, r, field, bit); }
  }

  method ParseString(item: RestockItem, r: Rec, field: nat, bit: nat)
    requires item.Valid() && ValidRec(r) && ItemSlot(r) == Some(field) && field < 3 && bit == field
    modifies item`impl
    ensures item.Valid() && ItemApplied(old(item.Value()), r) == Some(item.Value())
    ensures item.impl.mfdDate == old(item.impl.mfdDate) && item.impl.expiryDate == old(item.impl.expiryDate)
    ensures item.impl.hasBits == old(item.impl.hasBits) + {bit}
  {
    hide UnknownOk, DateParsed;
    var bits := item.impl.hasBits + {bit};
    if field == 0 {
      item.impl := item.impl.(hasBits := bits, sku := Owned(r.payload));
    } else if field == 1 {
      item.impl := item.impl.(hasBits := bits, name := Owned(r.payload));
    } else {
      item.impl := item.impl.(hasBits := bits, aisleType := Owned(r.payload));
    }
  }

  method ParseNumber(item: RestockItem, r: Rec, field: nat, bit: nat)
    requires item.Valid() && ValidRec(r) && ItemSlot(r) == Some(field) && 3 <= field < 5 && bit == 9 - field
    modifies item`impl
    ensures item.Valid() && ItemApplied(old(item.Value()), r) == Some(item.Value())
    ensures item.impl.mfdDate == old(item.impl.mfdDate) && item.impl.expiryDate == old(item.impl.expiryDate)
    ensures item.impl.hasBits == old(item.impl.hasBits) + {bit}
  {
    hide UnknownOk, DateParsed;
    var bits := item.impl.hasBits + {bit};
    if field == 3 {
      item.impl := item.impl.(hasBits := bits, quantity := FromVarint32(r.v));
    } else {
      item.impl := item.impl.(hasBits := bits, unitCost := r.bits);
    }
  }

  method ParseMfdDate(item: RestockItem, r: Rec, bit: nat) returns (ok: bool)
    requires item.Valid() && ValidRec(r) && ItemSlot(r) == Some(5) && bit == 3
    modifies item, item.impl.mfdDate
    ensures item.Valid() && item.impl.expiryDate == old(item.impl.expiryDate)
    ensures item.impl.mfdDate != old(item.impl.mfdDate) ==> fresh(item.impl.mfdDate)
    ensures ok <==> ItemApplied(old(item.Value()), r).Some?
    ensures ok ==> ItemApplied(old(item.Value()), r) == Some(item.Value())
    ensures item.impl.hasBits == old(item.impl.hasBits) + {bit}
  {
    hide UnknownOk, DateParsed;
    var i := item.impl;
    var date: Timestamp;
    ok, date := ParseDate(i.hasBits, 3, i.mfdDate, r.payload);
    item.impl := i.(hasBits := i.hasBits + {bit}, mfdDate := date);
  }

  method ParseExpiryDate(item: RestockItem, r: Rec, bit: nat) returns (ok: bool)
    requires item.Valid() && ValidRec(r) && ItemSlot(r) == Some(6) && bit == 4
    modifies item, item.impl.expiryDate
    ensures item.Valid() && item.impl.mfdDate == old(item.impl.mfdDate)
    ensures item.impl.expiryDate != old(item.impl.expiryDate) ==> fresh(item.impl.expiryDate)
    ensures ok <==> ItemApplied(old(item.Value()), r).Some?
    ensures ok ==> ItemApplied(old(item.Value()), r) == Some(item.Value())
    ensures item.impl.hasBits == old(item.impl.hasBits) + {bit}
  {
    hide UnknownOk, DateParsed;
    var i := item.impl;
    var date: Timestamp;
    ok, date := ParseDate(i.hasBits, 4, i.expiryDate, r.payload);
    item.impl := i.(hasBits := i.hasBits + {bit}, expiryDate := date);
  }

  /** Reads one record and stores it: what is left to parse then gives what all of it would have given. */
  method ParseOne(item: RestockItem, bs: Bytes) returns (ok: bool, rest: Bytes)
    requires item.Valid() && |bs| != 0
    modifies item, item.impl.mfdDate, item.impl.expiryDate
    ensures item.Valid() && ValidSchema(RESTOCK_ITEM)
    ensures IsMsg(RESTOCK_ITEM, old(item.Value()).ToMsg()) && IsMsg(RESTOCK_ITEM, item.Value().ToMsg())
    ensures item.impl.mfdDate != old(item.impl.mfdDate) ==> fresh(item.impl.mfdDate)
    ensures item.impl.expiryDate != old(item.impl.expiryDate) ==> fresh(item.impl.expiryDate)
    ensures ok ==> |rest| < |bs|
    ensures ok ==> ParseInto(RESTOCK_ITEM, old(item.Value()).ToMsg(), bs) == ParseInto(RESTOCK_ITEM, item.Value().ToMsg(), rest)
    ensures !ok ==> ParseInto(RESTOCK_ITEM, old(item.Value()).ToMsg(), bs) == None
  {
    hide UnknownOk, ParseInto, ItemApplied, IsMsg, ValidSchema, Fits, Slot, SlowTarget, ReadTag, EntriesFit, ReadOne;
    hide RestockItem.Value, ScalarsOk, RestockItemRec.Ok, RestockItemRec.ToMsg, Timestamp.Valid, DateValue;
    RestockItemTableFits();
    FitsEntries(RESTOCK_ITEM_TABLE, RESTOCK_ITEM);
    ItemIsOk(item);
    RestockItemValid();
    RestockItemIsMsg(item.Value());
    ParseStep(RESTOCK_ITEM, item.Value().ToMsg(), bs);
    var one := ReadOne(bs);
    if one.Fail? { return false, bs; }
    ItemApply(item.Value(), one.value);
    var target := Dispatch(RESTOCK_ITEM_TABLE, RESTOCK_ITEM, bs);
    ok := ParseItemRecord(item, one.value, target.value);
    ItemIsOk(item);
    RestockItemIsMsg(item.Value());
    rest := one.rest;
  }

  /** Merges an encoded item in, as the parse table directs; a rejected input may have been merged in part. */
  method ParseItem(item: RestockItem, bs: Bytes) returns (ok: bool)
    requires item.Valid()
    modifies item, item.impl.mfdDate, item.impl.expiryDate
    ensures item.Valid() && ValidSchema(RESTOCK_ITEM) && IsMsg(RESTOCK_ITEM, old(item.Value()).ToMsg())
    ensures item.impl.mfdDate != old(item.impl.mfdDate) ==> fresh(item.impl.mfdDate)
    ensures item.impl.expiryDate != old(item.impl.expiryDate) ==> fresh(item.impl.expiryDate)
    ensures ok <==> ParseInto(RESTOCK_ITEM, old(item.Value()).ToMsg(), bs).Some?
    ensures ok ==> ParseInto(RESTOCK_ITEM, old(item.Value()).ToMsg(), bs) == Some(item.Value().ToMsg())
  {
    hide UnknownOk, ParseInto, IsMsg, ValidSchema, RestockItem.Value, ScalarsOk, RestockItemRec.Ok, RestockItemRec.ToMsg;
    hide Timestamp.Valid, DateValue;
    ItemIsOk(item);
    RestockItemValid();
    RestockItemIsMsg(item.Value());
    ghost var goal := ParseInto(RESTOCK_ITEM, item.Value().ToMsg(), bs);
    var rest := bs;
    while |rest| != 0
      invariant item.Valid() && IsMsg(RESTOCK_ITEM, item.Value().ToMsg())
      invariant item.impl.mfdDate == old(item.impl.mfdDate) || fresh(item.impl.mfdDate)
      invariant item.impl.expiryDate == old(item.impl.expiryDate) || fresh(item.impl.expiryDate)
      invariant ParseInto(RESTOCK_ITEM, item.Value().ToMsg(), rest) == goal
      decreases |rest|
    {
      ok, rest := ParseOne(item, rest);
      if !ok { return; }
    }
    ParseNothing(RESTOCK_ITEM, item.Value().ToMsg());
    ok := true;
  }

  lemma ItemIsOk(item: RestockItem)
    requires item.Valid()
    ensures item.Value().Ok()
  {
  }
}