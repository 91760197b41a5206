/** The entries of a map of counts: messages of two fields, parsed by a table of their own. */
module CountParse {
  import opened Wire
  import opened Message
  import opened Codec
  import opened Inventory
  import opened ParseTable

  function CountMsg(key: Bytes, count: int, unknown: seq<Rec>): Msg {
    Msg([VStr(key), VInt(count)], unknown)
  }

  predicate CountOk(count: int, unknown: seq<Rec>) {
    -TWO_TO_31 <= count < TWO_TO_31 && UnknownOk(PROCESSED_ENTRY, unknown)
  }

  lemma CountIsMsg(key: Bytes, count: int, unknown: seq<Rec>)
    requires CountOk(count, unknown)
    ensures ValidSchema(PROCESSED_ENTRY) && IsMsg(PROCESSED_ENTRY, CountMsg(key, count, unknown))
  {
    ReportRequestValid();
    var m := CountMsg(key, count, unknown);
    assert IsVal(Str, m.vals[0]) && IsVal(Int32, m.vals[1]);
  }

  function CountSlot(r: Rec): Option<nat> {
    if r.Len? && r.num == 1 then Some(0) else if r.Varint? && r.num == 2 then Some(1) else None
  }

  lemma CountSlots(r: Rec)
    ensures Slot(PROCESSED_ENTRY, r) == CountSlot(r)
  {
    assert PROCESSED_ENTRY.fields[0] == Field(1, Str) && PROCESSED_ENTRY.fields[1] == Field(2, Int32);
    assert (r.Len? <==> WireType(r) == WT_LEN) && (r.Varint? <==> WireType(r) == WT_VARINT);
  }

  lemma CountTargets(r: Rec)
    requires EntriesFit(PROCESSED_ENTRY_TABLE, PROCESSED_ENTRY)
    ensures Wanted(PROCESSED_ENTRY_TABLE, PROCESSED_ENTRY, r)
         == if CountSlot(r) == Some(0) then Known(0, 0, 0) else if CountSlot(r) == Some(1) then Known(1, 1, 0) else Target.Unknown
  {
    CountSlots(r);
  }

  /** Storing one record in an entry: the last key and the last value win. */
  lemma CountApply(key: Bytes, count: int, unknown: seq<Rec>, r: Rec)
    requires CountOk(count, unknown) && ValidRec(r)
    ensures ValidSchema(PROCESSED_ENTRY) && IsMsg(PROCESSED_ENTRY, CountMsg(key, count, unknown))
    ensures Apply(PROCESSED_ENTRY, CountMsg(key, count, unknown), r)
         == Some(if CountSlot(r) == Some(0) then CountMsg(r.payload, count, unknown)
                 else if CountSlot(r) == Some(1) then CountMsg(key, FromVarint32(r.v), unknown)
                 else CountMsg(key, count, unknown + [r]))
  {
    hide UnknownOk, IsMsg, ValidSchema;
    CountIsMsg(key, count, unknown);
    CountSlots(r);
    if r.Len? { CountSet(key, count, r.payload, 0); }
    if r.Varint? { CountSet(key, count, [], FromVarint32(r.v)); }
  }

  lemma CountSet(key: Bytes, count: int, key': Bytes, count': int)
    ensures [VStr(key), VInt(count)][0 := VStr(key')] == [VStr(key'), VInt(count)]
    ensures [VStr(key), VInt(count)][1 := VInt(count')] == [VStr(key), VInt(count')]
  {
  }

  lemma EmptyCount()
    ensures ValidSchema(PROCESSED_ENTRY) && CountMsg([], 0, []) == Default(PROCESSED_ENTRY) && CountOk(0, [])
  {
    ReportRequestValid();
    NoUnknown(PROCESSED_ENTRY);
    assert CountMsg([], 0, []).vals == Default(PROCESSED_ENTRY).vals;
  }

  lemma CountGrows(count: int, unknown: seq<Rec>, r: Rec)
    requires CountOk(count, unknown) && ValidRec(r) && CountSlot(r).None?
    ensures CountOk(count, unknown + [r])
  {
    CountSlots(r);
    UnknownGrows(PROCESSED_ENTRY, unknown, r);
  }

  /** Reads one map entry, as its table directs: the last key and the last count, by default none and 0. */
  method ParseCount(bs: Bytes) returns (ok: bool, key: Bytes, count: int)
    ensures -TWO_TO_31 <= count < TWO_TO_31
    ensures ValidSchema(PROCESSED_ENTRY) && IsMsg(PROCESSED_ENTRY, Default(PROCESSED_ENTRY))
    ensures ok <==> ParseInto(PROCESSED_ENTRY, Default(PROCESSED_ENTRY), bs).Some?
    ensures ok ==> ParseInto(PROCESSED_ENTRY, Default(PROCESSED_ENTRY), bs).value.vals == [VStr(key), VInt(count)]
  {
    hide UnknownOk, ParseInto, IsMsg, ValidSchema, ReadOne, Apply, Fits, Slot, EntriesFit, SlowTarget, ReadTag, Wanted;
    EntryTablesFit();
    FitsEntries(PROCESSED_ENTRY_TABLE, PROCESSED_ENTRY);
    EmptyCount();
    key, count := [], 0;
    ghost var unknown: seq<Rec> := [];
    CountIsMsg(key, count, unknown);
    ghost var goal := ParseInto(PROCESSED_ENTRY, Default(PROCESSED_ENTRY), bs);
    var rest := bs;
    while |rest| != 0
      invariant CountOk(count, unknown) && IsMsg(PROCESSED_ENTRY, CountMsg(key, count, unknown))
      invariant ParseInto(PROCESSED_ENTRY, CountMsg(key, count, unknown), rest) == goal
      decreases |rest|
    {
      ParseStep(PROCESSED_ENTRY, CountMsg(key, count, unknown), rest);
      var one := ReadOne(rest);
      if one.Fail? { return false, key, count; }
      var r := one.value;
      CountApply(key, count, unknown, r);
      var found := Dispatch(PROCESSED_ENTRY_TABLE, PROCESSED_ENTRY, rest);
      CountTargets(r);
      if found.value == Known(0, 0, 0) {
        key := r.payload;
      } else if found.value == Known(1, 1, 0) {
        count := FromVarint32(r.v);
      } else {
        CountGrows(count, unknown, r);
        unknown := unknown + [r];
      }
      CountIsMsg(key, count, unknown);
      rest := one.rest;
    }
    ParseNothing(PROCESSED_ENTRY, CountMsg(key, count, unknown));
    ok := true;
  }
}
