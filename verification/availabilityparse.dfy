/** Parsing the availability messages in place: strings, levels, and a map whose entries hold levels. */
module AvailabilityParse {
  import opened Wire
  import opened Message
  import opened Codec
  import opened Inventory
  import opened Objects
  import opened ParseTable
  import opened Availability

  // ------------------------------------------------------------- StockLevel

  function StockSlot(r: Rec): Option<nat> {
    if r.Len? && 1 <= r.num <= 3 then Some(r.num - 1) else if r.Varint? && r.num == 4 then Some(3) else None
  }

  lemma StockSlots(r: Rec)
    ensures Slot(STOCK_LEVEL, r) == StockSlot(r)
  {
    var s := STOCK_LEVEL;
    assert forall i :: 0 <= i < 4 ==> s.fields[i].num == i + 1;
    assert r.Len? <==> WireType(r) == WT_LEN;
    assert r.Varint? <==> WireType(r) == WT_VARINT;
    assert 1 <= r.num <= 4 ==> s.fields[r.num - 1].num == r.num;
  }

  lemma StockTargets(r: Rec)
    requires EntriesFit(STOCK_LEVEL_TABLE, STOCK_LEVEL)
    ensures Slot(STOCK_LEVEL, r) == StockSlot(r)
    ensures Wanted(STOCK_LEVEL_TABLE, STOCK_LEVEL, r)
         == match StockSlot(r) case None => Target.Unknown case Some(i) => Known(i, i, 0)
  {
    StockSlots(r);
  }

  /** The level after one more record has been parsed into it. */
  function StockApplied(v: StockLevelRec, r: Rec): StockLevelRec
    requires v.Ok() && ValidRec(r)
  {
    match StockSlot(r)
    case None => v.(unknown := v.unknown + [r])
    case Some(i) =>
      if i == 0 then v.(sku := r.payload)
      else if i == 1 then v.(name := r.payload)
      else if i == 2 then v.(aisleType := r.payload)
      else v.(quantity := FromVarint32(r.v))
  }

  lemma StockApply(v: StockLevelRec, r: Rec)
    requires v.Ok() && ValidRec(r)
    ensures ValidSchema(STOCK_LEVEL) && IsMsg(STOCK_LEVEL, v.ToMsg())
    ensures Apply(STOCK_LEVEL, v.ToMsg(), r) == Some(StockApplied(v, r).ToMsg())
  {
    hide UnknownOk, IsMsg, ValidSchema;
    TimestampValid();
    StockLevelIsMsg(v);
    StockSlots(r);
    if StockSlot(r).Some? { StockFieldSet(v, r); }
  }

  lemma StockFieldSet(v: StockLevelRec, r: Rec)
    requires v.Ok() && ValidRec(r) && StockSlot(r).Some?
    ensures var m, m', i := v.ToMsg(), StockApplied(v, r).ToMsg(), StockSlot(r).value;
            m'.unknown == m.unknown && m'.vals == m.vals[i := m'.vals[i]]
  {
  }

  method ParseStockRecord(level: StockLevel, r: Rec, target: Target)
    requires level.Valid() && ValidRec(r) && EntriesFit(STOCK_LEVEL_TABLE, STOCK_LEVEL)
    requires target == Wanted(STOCK_LEVEL_TABLE, STOCK_LEVEL, r)
    modifies level
    ensures level.Valid() && level.Value() == StockApplied(old(level.Value()), r)
    ensures level.impl.hasBits == old(level.impl.hasBits) + (if target.Known? then {target.hasBit} else {})
  {
    hide UnknownOk;
    StockTargets(r);
    if target.Unknown? {
      UnknownGrows(STOCK_LEVEL, level.unknown, r);
      level.unknown := level.unknown + [r];
      return;
    }
    var i := level.impl;
    var bits := i.hasBits + {target.hasBit};
    if target.field == 0 {
      level.impl := i.(hasBits := bits, sku := Owned(r.payload));
    } else if target.field == 1 {
      level.impl := i.(hasBits := bits, name := Owned(r.payload));
    } else if target.field == 2 {
      level.impl := i.(hasBits := bits, aisleType := Owned(r.payload));
    } else {
      level.impl := i.(hasBits := bits, quantity := FromVarint32(r.v));
    }
  }

  /** Merges an encoded level in; a rejected input may have been merged in part. */
  method ParseStock(level: StockLevel, bs: Bytes) returns (ok: bool)
    requires level.Valid()
    modifies level
    ensures level.Valid() && ValidSchema(STOCK_LEVEL) && IsMsg(STOCK_LEVEL, old(level.Value()).ToMsg())
    ensures ok <==> ParseInto(STOCK_LEVEL, old(level.Value()).ToMsg(), bs).Some?
    ensures ok ==> ParseInto(STOCK_LEVEL, old(level.Value()).ToMsg(), bs) == Some(level.Value().ToMsg())
  {
    hide UnknownOk, ParseInto, StockApplied, IsMsg, ValidSchema, ReadOne, StockLevel.Valid, StockLevel.Value;
    hide Fits, Slot, EntriesFit, SlowTarget, ReadTag;
    StockLevelTableFits();
    FitsEntries(STOCK_LEVEL_TABLE, STOCK_LEVEL);
    LevelIsOk(level);
    TimestampValid();
    StockLevelIsMsg(level.Value());
    ghost var goal := ParseInto(STOCK_LEVEL, level.Value().ToMsg(), bs);
    var rest := bs;
    while |rest| != 0
      invariant level.Valid() && level.Value().Ok() && IsMsg(STOCK_LEVEL, level.Value().ToMsg())
      invariant ParseInto(STOCK_LEVEL, level.Value().ToMsg(), rest) == goal
      decreases |rest|
    {
      ParseStep(STOCK_LEVEL, level.Value().ToMsg(), rest);
      var one := ReadOne(rest);
      if one.Fail? { return false; }
      StockApply(level.Value(), one.value);
      var target := Dispatch(STOCK_LEVEL_TABLE, STOCK_LEVEL, rest);
      ParseStockRecord(level, one.value, target.value);
      LevelIsOk(level);
      StockLevelIsMsg(level.Value());
      rest := one.rest;
    }
    ParseNothing(STOCK_LEVEL, level.Value().ToMsg());
    ok := true;
  }

  lemma LevelIsOk(level: StockLevel)
    requires level.Valid()
    ensures level.Value().Ok()
  {
  }

  // ------------------------------------------------------------ map entries

  /** An entry that has been read so far: a key, and a level if there was one. */
  function EntryMsg(key: Bytes, level: Option<StockLevelRec>, unknown: seq<Rec>): Msg {
    Msg([VStr(key), VSub(if level.None? then None else Some(level.value.ToMsg()))], unknown)
  }

  predicate EntryOk(level: Option<StockLevelRec>, unknown: seq<Rec>) {
    (level.Some? ==> level.value.Ok()) && UnknownOk(ITEMS_ENTRY, unknown)
  }

  lemma EntryIsMsg(key: Bytes, level: Option<StockLevelRec>, unknown: seq<Rec>)
    requires EntryOk(level, unknown)
    ensures ValidSchema(ITEMS_ENTRY) && IsMsg(ITEMS_ENTRY, EntryMsg(key, level, unknown))
  {
    AvailabilityValid();
    if level.Some? { StockLevelIsMsg(level.value); }
    var m := EntryMsg(key, level, unknown);
    assert IsVal(Str, m.vals[0]) && IsVal(Sub(STOCK_LEVEL), m.vals[1]);
  }

  function EntrySlot(r: Rec): Option<nat> {
    if r.Len? && r.num == 1 then Some(0) else if r.Len? && r.num == 2 then Some(1) else None
  }

  lemma EntrySlots(r: Rec)
    ensures Slot(ITEMS_ENTRY, r) == EntrySlot(r)
  {
    assert ITEMS_ENTRY.fields[0] == Field(1, Str) && ITEMS_ENTRY.fields[1] == Field(2, Sub(STOCK_LEVEL));
    assert r.Len? <==> WireType(r) == WT_LEN;
  }

  lemma EntryTargets(r: Rec)
    requires EntriesFit(ITEMS_ENTRY_TABLE, ITEMS_ENTRY)
    ensures Wanted(ITEMS_ENTRY_TABLE, ITEMS_ENTRY, r)
         == if EntrySlot(r) == Some(0) then Known(0, 0, 0) else if EntrySlot(r) == Some(1) then Known(1, 1, 0) else Target.Unknown
  {
    EntrySlots(r);
  }

  lemma EmptyLevel()
    ensures NO_STOCK.Ok() && ValidSchema(STOCK_LEVEL) && NO_STOCK.ToMsg() == Default(STOCK_LEVEL)
    ensures IsMsg(STOCK_LEVEL, NO_STOCK.ToMsg())
  {
    TimestampValid();
    assert NO_STOCK.ToMsg().vals == Default(STOCK_LEVEL).vals;
  }

  lemma EmptyEntry()
    ensures ValidSchema(ITEMS_ENTRY) && EntryMsg([], None, []) == Default(ITEMS_ENTRY)
  {
    AvailabilityValid();
    assert EntryMsg([], None, []).vals == Default(ITEMS_ENTRY).vals;
  }

  /** The level a value record is parsed into: the one there is, or a default one. */
  function LevelSoFar(level: Option<StockLevelRec>): StockLevelRec {
    if level.Some? then level.value else NO_STOCK
  }

  lemma EntryApply(key: Bytes, level: Option<StockLevelRec>, unknown: seq<Rec>, r: Rec)
    requires EntryOk(level, unknown) && ValidRec(r)
    ensures ValidSchema(ITEMS_ENTRY) && IsMsg(ITEMS_ENTRY, EntryMsg(key, level, unknown))
    ensures ValidSchema(STOCK_LEVEL) && IsMsg(STOCK_LEVEL, LevelSoFar(level).ToMsg())
    ensures Apply(ITEMS_ENTRY, EntryMsg(key, level, unknown), r)
         == if EntrySlot(r) == Some(0) then Some(EntryMsg(r.payload, level, unknown))
            else if EntrySlot(r) == Some(1) then EntryWith(key, ParseInto(STOCK_LEVEL, LevelSoFar(level).ToMsg(), r.payload), unknown)
            else Some(EntryMsg(key, level, unknown + [r]))
  {
    hide UnknownOk, ParseInto, IsMsg, ValidSchema;
    EntryIsMsg(key, level, unknown);
    EmptyLevel();
    if level.Some? { StockLevelIsMsg(level.value); }
    EntrySlots(r);
    if EntrySlot(r) == Some(0) {
      EntryKeySet(key, level, unknown, r.payload);
    } else if EntrySlot(r) == Some(1) {
      EntryApplyValue(key, level, unknown, r);
    }
  }

  lemma EntryKeySet(key: Bytes, level: Option<StockLevelRec>, unknown: seq<Rec>, key': Bytes)
    ensures EntryMsg(key, level, unknown).vals[0 := VStr(key')] == EntryMsg(key', level, unknown).vals
  {
  }

  function EntryWith(key: Bytes, level: Option<Msg>, unknown: seq<Rec>): Option<Msg> {
    match level
    case None => None
    case Some(m) => Some(Msg([VStr(key), VSub(Some(m))], unknown))
  }

  lemma EntryApplyValue(key: Bytes, level: Option<StockLevelRec>, unknown: seq<Rec>, r: Rec)
    requires EntryOk(level, unknown) && ValidRec(r) && EntrySlot(r) == Some(1)
    requires ValidSchema(ITEMS_ENTRY) && IsMsg(ITEMS_ENTRY, EntryMsg(key, level, unknown))
    requires ValidSchema(STOCK_LEVEL) && IsMsg(STOCK_LEVEL, LevelSoFar(level).ToMsg())
    ensures Apply(ITEMS_ENTRY, EntryMsg(key, level, unknown), r)
         == EntryWith(key, ParseInto(STOCK_LEVEL, LevelSoFar(level).ToMsg(), r.payload), unknown)
  {
    hide UnknownOk, ParseInto, IsMsg, ValidSchema;
    EmptyLevel();
    EntrySlots(r);
    var m := EntryMsg(key, level, unknown);
    assert ValidKind(ITEMS_ENTRY.fields[1].kind) && IsVal(ITEMS_ENTRY.fields[1].kind, m.vals[1]);
    match ParseInto(STOCK_LEVEL, LevelSoFar(level).ToMsg(), r.payload)
    case None =>
    case Some(v) => assert m.vals[1 := VSub(Some(v))] == [VStr(key), VSub(Some(v))];
  }

  ghost function LevelIf(present: bool, level: StockLevel): Option<StockLevelRec>
    reads level
  {
    if present then Some(level.Value()) else None
  }

  /** Reads one map entry: the last key, and a level that all value records have been parsed into. */
  method ParseEntry(bs: Bytes) returns (ok: bool, key: Bytes, level: StockLevel)
    ensures fresh(level) && level.Valid()
    ensures ValidEntry(ITEMS_ENTRY) && IsMsg(ITEMS_ENTRY, Default(ITEMS_ENTRY))
    ensures ok <==> ParseInto(ITEMS_ENTRY, Default(ITEMS_ENTRY), bs).Some?
    ensures ok ==> EntryRead(ParseInto(ITEMS_ENTRY, Default(ITEMS_ENTRY), bs).value, key, level.Value())
  {
    hide UnknownOk, ParseInto, IsMsg, ValidSchema, ReadOne, Apply, StockLevel.Valid, StockLevel.Value;
    hide Fits, Slot, EntriesFit, SlowTarget, ReadTag, Wanted;
    EntryTablesFit();
    FitsEntries(ITEMS_ENTRY_TABLE, ITEMS_ENTRY);
    AvailabilityValid();
    EmptyEntry();
    level := new StockLevel();
    key := [];
    var present := false;
    ghost var unknown: seq<Rec> := [];
    NoUnknown(ITEMS_ENTRY);
    EntryIsMsg(key, None, unknown);
    ghost var goal := ParseInto(ITEMS_ENTRY, Default(ITEMS_ENTRY), bs);
    var rest := bs;
    while |rest| != 0
      invariant level.Valid() && fresh(level) && EntryOk(LevelIf(present, level), unknown)
      invariant !present ==> level.Value() == NO_STOCK
      invariant IsMsg(ITEMS_ENTRY, EntryMsg(key, LevelIf(present, level), unknown))
      invariant ParseInto(ITEMS_ENTRY, EntryMsg(key, LevelIf(present, level), unknown), rest) == goal
      decreases |rest|
    {
      ghost var was := LevelIf(present, level);
      ParseStep(ITEMS_ENTRY, EntryMsg(key, was, unknown), rest);
      var one := ReadOne(rest);
      if one.Fail? { return false, key, level; }
      var r := one.value;
      EntryApply(key, was, unknown, r);
      var found := Dispatch(ITEMS_ENTRY_TABLE, ITEMS_ENTRY, rest);
      EntryTargets(r);
      var target := found.value;
      if target == Known(0, 0, 0) {
        key := r.payload;
      } else if target == Known(1, 1, 0) {
        var parsed := ParseStock(level, r.payload);
        if !parsed { return false, key, level; }
        present := true;
        LevelIsOk(level);
      } else {
        EntrySlots(r);
        UnknownGrows(ITEMS_ENTRY, unknown, r);
        unknown := unknown + [r];
      }
      EntryIsMsg(key, LevelIf(present, level), unknown);
      rest := one.rest;
    }
    ParseNothing(ITEMS_ENTRY, EntryMsg(key, LevelIf(present, level), unknown));
    EntryIsRead(key, LevelIf(present, level), unknown, level.Value());
    ok := true;
  }

  /** What a map makes of an entry: one without a value stands for the default level. */
  ghost predicate EntryRead(e: Msg, key: Bytes, v: StockLevelRec) {
    && |e.vals| == 2 && e.vals[0] == VStr(key) && ValidEntry(ITEMS_ENTRY) && IsVal(ValueKind(ITEMS_ENTRY), e.vals[1])
    && PresentValue(ITEMS_ENTRY, e.vals[1]) == VSub(Some(v.ToMsg()))
  }

  lemma EntryIsRead(key: Bytes, level: Option<StockLevelRec>, unknown: seq<Rec>, v: StockLevelRec)
    requires EntryOk(level, unknown) && v == LevelSoFar(level)
    ensures EntryRead(EntryMsg(key, level, unknown), key, v)
  {
    hide UnknownOk, IsMsg, ValidSchema;
    AvailabilityValid();
    EmptyLevel();
    if level.Some? { StockLevelIsMsg(level.value); }
    assert ValueKind(ITEMS_ENTRY) == Sub(STOCK_LEVEL);
  }

  // ---------------------------------------------- CheckAvailabilityResponse

  function FirstSlot(r: Rec): Option<nat> {
    if r.Len? && r.num == 1 then Some(0) else None
  }

  lemma ResponseTargets(r: Rec)
    requires EntriesFit(AVAILABILITY_RESPONSE_TABLE, AVAILABILITY_RESPONSE)
    ensures Slot(AVAILABILITY_RESPONSE, r) == FirstSlot(r)
    ensures Wanted(AVAILABILITY_RESPONSE_TABLE, AVAILABILITY_RESPONSE, r)
         == match FirstSlot(r) case None => Target.Unknown case Some(i) => Known(i, 0, 0)
  {
    assert AVAILABILITY_RESPONSE.fields[0] == Field(1, Map(ITEMS_ENTRY));
    assert r.Len? <==> WireType(r) == WT_LEN;
  }

  lemma ResponseApplyUnknown(v: AvailabilityRec, r: Rec)
    requires v.Ok() && ValidRec(r) && Slot(AVAILABILITY_RESPONSE, r) == None
    ensures ValidSchema(AVAILABILITY_RESPONSE) && IsMsg(AVAILABILITY_RESPONSE, v.ToMsg())
    ensures Apply(AVAILABILITY_RESPONSE, v.ToMsg(), r) == Some(v.(unknown := v.unknown + [r]).ToMsg())
  {
    AvailabilityValid();
    AvailabilityIsMsg(v);
  }

  /** A record of the map stores the level it holds under its key, or is rejected with its entry. */
  lemma ResponseApplyEntry(v: AvailabilityRec, r: Rec, key: Bytes, w: StockLevelRec)
    requires v.Ok() && w.Ok() && ValidRec(r) && r.Len? && Slot(AVAILABILITY_RESPONSE, r) == Some(0)
    ensures ValidSchema(AVAILABILITY_RESPONSE) && IsMsg(AVAILABILITY_RESPONSE, v.ToMsg())
    ensures ValidEntry(ITEMS_ENTRY)
    ensures var e := ParseInto(ITEMS_ENTRY, Default(ITEMS_ENTRY), r.payload);
      && (e.None? ==> Apply(AVAILABILITY_RESPONSE, v.ToMsg(), r) == None)
      && (e.Some? && EntryRead(e.value, key, w) ==>
            Apply(AVAILABILITY_RESPONSE, v.ToMsg(), r) == Some(v.(items := v.items[key := w]).ToMsg()))
  {
    hide UnknownOk, ParseInto, IsMsg, ValidSchema, PresentValue;
    AvailabilityValid();
    AvailabilityIsMsg(v);
    var m := v.ToMsg();
    assert AVAILABILITY_RESPONSE.fields[0].kind == Map(ITEMS_ENTRY);
    assert ValidKind(AVAILABILITY_RESPONSE.fields[0].kind) && IsVal(AVAILABILITY_RESPONSE.fields[0].kind, m.vals[0]);
    StockValsPut(v, key, w);
    var e := ParseInto(ITEMS_ENTRY, Default(ITEMS_ENTRY), r.payload);
    if e.Some? && EntryRead(e.value, key, w) {
      assert e.value.vals[0].s == key;
    }
  }

  lemma StockValsPut(v: AvailabilityRec, key: Bytes, w: StockLevelRec)
    ensures v.ToMsg().vals[0 := VMap(StockVals(v.items)[key := VSub(Some(w.ToMsg()))])] == v.(items := v.items[key := w]).ToMsg().vals
  {
    assert StockVals(v.items[key := w]) == StockVals(v.items)[key := VSub(Some(w.ToMsg()))];
  }

  /** Stores one record where the parse table says, under the has-bit the table says, or rejects it. */
  method ParseResponseRecord(msg: CheckAvailabilityResponse, r: Rec, target: Target) returns (ok: bool)
    requires msg.Valid() && ValidRec(r) && EntriesFit(AVAILABILITY_RESPONSE_TABLE, AVAILABILITY_RESPONSE)
    requires target == Wanted(AVAILABILITY_RESPONSE_TABLE, AVAILABILITY_RESPONSE, r)
    modifies msg
    ensures msg.Valid() && fresh(msg.owned - old(msg.owned))
    ensures ValidSchema(AVAILABILITY_RESPONSE) && IsMsg(AVAILABILITY_RESPONSE, old(msg.Value()).ToMsg())
    ensures Apply(AVAILABILITY_RESPONSE, old(msg.Value()).ToMsg(), r) == if ok then Some(msg.Value().ToMsg()) else None
  {
    hide StockOk, AvailabilityRec.ToMsg, AvailabilityRec.Ok, Wanted, EntriesFit;
    hide UnknownOk, StockLevel.Valid, StockLevel.Value, StockOwned, StockValues, ParseInto, Apply, IsMsg, ValidSchema, EntryRead;
    ResponseTargets(r);
    ghost var v := msg.Value();
    if target.Unknown? {
      ResponseApplyUnknown(v, r);
      UnknownGrows(AVAILABILITY_RESPONSE, msg.unknown, r);
      msg.unknown := msg.unknown + [r];
      return true;
    }
    var key, level;
    ok, key, level := ParseEntry(r.payload);
    LevelIsOk(level);
    ResponseApplyEntry(v, r, key, level.Value());
    if ok {
      StockPut(msg.impl.items, msg.owned, key, level);
      msg.owned := msg.owned + {level};
      msg.impl := AvailabilityImpl(msg.impl.hasBits + {target.hasBit}, msg.impl.items[key := level]);
    }
  }

  /** Merges an encoded response in, as the parse table directs; a rejected input may have been merged in part. */
  method ParseResponse(msg: CheckAvailabilityResponse, bs: Bytes) returns (ok: bool)
    requires msg.Valid()
    modifies msg
    ensures msg.Valid() && fresh(msg.owned - old(msg.owned))
    ensures ValidSchema(AVAILABILITY_RESPONSE) && IsMsg(AVAILABILITY_RESPONSE, old(msg.Value()).ToMsg())
    ensures ok <==> ParseInto(AVAILABILITY_RESPONSE, old(msg.Value()).ToMsg(), bs).Some?
    ensures ok ==> ParseInto(AVAILABILITY_RESPONSE, old(msg.Value()).ToMsg(), bs) == Some(msg.Value().ToMsg())
  {
    hide UnknownOk, StockLevel.Valid, StockLevel.Value, StockOwned, StockValues, ParseInto, Apply, IsMsg, ValidSchema;
    hide Fits, Slot, EntriesFit, ReadOne, SlowTarget, ReadTag;
    AvailabilityTablesFit();
    FitsEntries(AVAILABILITY_RESPONSE_TABLE, AVAILABILITY_RESPONSE);
    AvailabilityValid();
    AvailabilityIsMsg(msg.Value());
    ghost var goal := ParseInto(AVAILABILITY_RESPONSE, msg.Value().ToMsg(), bs);
    var rest := bs;
    while |rest| != 0
      invariant msg.Valid() && fresh(msg.owned - old(msg.owned)) && IsMsg(AVAILABILITY_RESPONSE, msg.Value().ToMsg())
      invariant ParseInto(AVAILABILITY_RESPONSE, msg.Value().ToMsg(), rest) == goal
      decreases |rest|
    {
      ParseStep(AVAILABILITY_RESPONSE, msg.Value().ToMsg(), rest);
      var one := ReadOne(rest);
      if one.Fail? { return false; }
      var target := Dispatch(AVAILABILITY_RESPONSE_TABLE, AVAILABILITY_RESPONSE, rest);
      var stored := ParseResponseRecord(msg, one.value, target.value);
      if !stored { return false; }
      AvailabilityIsMsg(msg.Value());
      rest := one.rest;
    }
    ParseNothing(AVAILABILITY_RESPONSE, msg.Value().ToMsg());
    ok := true;
  }

  // ----------------------------------------------- CheckAvailabilityRequest

  lemma SkusTargets(r: Rec)
    requires EntriesFit(AVAILABILITY_REQUEST_TABLE, AVAILABILITY_REQUEST)
    ensures Slot(AVAILABILITY_REQUEST, r) == FirstSlot(r)
    ensures Wanted(AVAILABILITY_REQUEST_TABLE, AVAILABILITY_REQUEST, r)
         == match FirstSlot(r) case None => Target.Unknown case Some(i) => Known(i, 0, 0)
  {
    assert AVAILABILITY_REQUEST.fields[0] == Field(1, RepStr);
    assert r.Len? <==> WireType(r) == WT_LEN;
  }

  /** The list after one more record has been parsed into it. */
  function SkusApplied(v: SkusRec, r: Rec): SkusRec {
    if r.Len? && r.num == 1 then v.(skus := v.skus + [r.payload]) else v.(unknown := v.unknown + [r])
  }

  lemma SkusApply(v: SkusRec, r: Rec)
    requires v.Ok() && ValidRec(r) && Slot(AVAILABILITY_REQUEST, r) == FirstSlot(r)
    ensures ValidSchema(AVAILABILITY_REQUEST) && IsMsg(AVAILABILITY_REQUEST, v.ToMsg())
    ensures Apply(AVAILABILITY_REQUEST, v.ToMsg(), r) == Some(SkusApplied(v, r).ToMsg())
  {
    AvailabilityValid();
    assert IsVal(RepStr, v.ToMsg().vals[0]);
    assert v.ToMsg().vals[0 := VStrs(SkusApplied(v, r).skus)] == SkusApplied(v, r).ToMsg().vals;
  }

  /** Merges an encoded request in; it is refused only where it is no sequence of records. */
  method ParseSkus(msg: CheckAvailabilityRequest, bs: Bytes) returns (ok: bool)
    requires msg.Valid()
    modifies msg
    ensures msg.Valid() && ValidSchema(AVAILABILITY_REQUEST) && IsMsg(AVAILABILITY_REQUEST, old(msg.Value()).ToMsg())
    ensures ok <==> ParseInto(AVAILABILITY_REQUEST, old(msg.Value()).ToMsg(), bs).Some?
    ensures ok ==> ParseInto(AVAILABILITY_REQUEST, old(msg.Value()).ToMsg(), bs) == Some(msg.Value().ToMsg())
  {
    hide UnknownOk, ParseInto, Apply, IsMsg, ValidSchema, Fits, Slot, EntriesFit, ReadOne, SlowTarget, ReadTag;
    AvailabilityTablesFit();
    FitsEntries(AVAILABILITY_REQUEST_TABLE, AVAILABILITY_REQUEST);
    AvailabilityValid();
    SkusIsMsg(msg.Value());
    ghost var goal := ParseInto(AVAILABILITY_REQUEST, msg.Value().ToMsg(), bs);
    var rest := bs;
    while |rest| != 0
      invariant msg.Valid() && IsMsg(AVAILABILITY_REQUEST, msg.Value().ToMsg())
      invariant ParseInto(AVAILABILITY_REQUEST, msg.Value().ToMsg(), rest) == goal
      decreases |rest|
    {
      ParseStep(AVAILABILITY_REQUEST, msg.Value().ToMsg(), rest);
      var one := ReadOne(rest);
      if one.Fail? { return false; }
      var r := one.value;
      var target := Dispatch(AVAILABILITY_REQUEST_TABLE, AVAILABILITY_REQUEST, rest);
      SkusTargets(r);
      SkusApply(msg.Value(), r);
      if target.value.Known? {
        msg.impl := SkusImpl(msg.impl.hasBits + {target.value.hasBit}, msg.impl.skus + [r.payload]);
      } else {
        UnknownGrows(AVAILABILITY_REQUEST, msg.unknown, r);
        msg.unknown := msg.unknown + [r];
      }
      SkusIsMsg(msg.Value());
      rest := one.rest;
    }
    ParseNothing(AVAILABILITY_REQUEST, msg.Value().ToMsg());
    ok := true;
  }

  lemma SkusIsMsg(v: SkusRec)
    requires v.Ok()
    ensures IsMsg(AVAILABILITY_REQUEST, v.ToMsg())
  {
    assert IsVal(RepStr, v.ToMsg().vals[0]);
  }
}
