/** ReportJobStatusRequest: strings and a map, a gap in the field numbers, and a parse loop. */
module Report {
  import opened Wire
  import opened Message
  import opened Codec
  import opened Laws
  import opened MapOrder
  import opened Inventory
  import opened Objects
  import opened ParseTable
  import opened CountParse

  /** `_impl_`; bits 0 to 2 are the strings, bit 3 the map. */
  datatype ReportImpl = ReportImpl(
    hasBits: HasBits, orderId: ArenaString, status: ArenaString, orderType: ArenaString, processedItems: map<Bytes, int>)

  /** A clear has-bit means the map is empty. */
  predicate MapOk<T>(bits: HasBits, k: nat, entries: map<Bytes, T>) { k in bits || |entries| == 0 }

  class ReportJobStatusRequest {
    var impl: ReportImpl
    var cachedSize: nat
    var unknown: seq<Rec>

    ghost predicate Valid()
      reads this
    {
      && StringOk(impl.hasBits, 0, impl.orderId)
      && StringOk(impl.hasBits, 1, impl.status)
      && StringOk(impl.hasBits, 2, impl.orderType)
      && MapOk(impl.hasBits, 3, impl.processedItems)
      && Value().Ok()
    }

    ghost function Value(): ReportRec
      reads this
    {
      ReportRec(impl.orderId.Get(), impl.status.Get(), impl.processedItems, impl.orderType.Get(), unknown)
    }

    constructor ()
      ensures Valid() && Value() == ReportRec([], [], map[], [], [])
    {
      impl := ReportImpl({}, Shared, Shared, Shared, map[]);
      cachedSize, unknown := 0, [];
    }

    constructor CopyOf(from: ReportJobStatusRequest)
      requires from.Valid()
      ensures Valid() && Value() == from.Value()
      ensures impl.hasBits == from.impl.hasBits
    {
      unknown, impl, cachedSize := from.unknown, from.impl, 0;
    }

    method Clear()
      requires Valid()
      modifies this
      ensures Valid() && Value() == ReportRec([], [], map[], [], [])
      ensures impl.hasBits == {}
    {
      hide UnknownOk;
      NoUnknown(REPORT_REQUEST);
      var i := impl;
      impl := ReportImpl(
        {},
        ClearString(i.hasBits, 0, i.orderId),
        ClearString(i.hasBits, 1, i.status),
        ClearString(i.hasBits, 2, i.orderType),
        if 3 in i.hasBits then map[] else i.processedItems);
      unknown := [];
    }

    method MergeFrom(from: ReportJobStatusRequest)
      requires Valid() && from.Valid() && from != this
      modifies this
      ensures Valid() && Value() == old(Value()).Merged(from.Value())
      ensures impl.hasBits == old(impl.hasBits) + from.impl.hasBits
    {
      hide PickStr, UnknownOk, StringOk, MergeString;
      UnknownJoined(REPORT_REQUEST, unknown, from.unknown);
      var i, j := impl, from.impl;
      impl := ReportImpl(
        i.hasBits + j.hasBits,
        MergeString(i.hasBits, j.hasBits, 0, i.orderId, j.orderId),
        MergeString(i.hasBits, j.hasBits, 1, i.status, j.status),
        MergeString(i.hasBits, j.hasBits, 2, i.orderType, j.orderType),
        if 3 in j.hasBits then i.processedItems + j.processedItems else i.processedItems);
      assert 3 !in j.hasBits ==> i.processedItems + j.processedItems == i.processedItems;
      unknown := unknown + from.unknown;
    }

    method CopyFrom(from: ReportJobStatusRequest)
      requires Valid() && from.Valid()
      modifies this
      ensures Valid() && Value() == old(from.Value())
      ensures impl.hasBits == old(from.impl.hasBits)
    {
      hide UnknownOk, StringOk;
      if from == this { return; }
      Clear();
      MergeFrom(from);
      assert [] + from.unknown == from.unknown;
      assert map[] + from.impl.processedItems == from.impl.processedItems;
    }

    method InternalSwap(other: ReportJobStatusRequest)
      requires Valid() && other.Valid() && other != this
      modifies this, other
      ensures Valid() && other.Valid()
      ensures Value() == old(other.Value()) && other.Value() == old(Value())
      ensures impl == old(other.impl) && other.impl == old(impl)
    {
      hide UnknownOk, StringOk;
      unknown, other.unknown := other.unknown, unknown;
      impl, other.impl := other.impl, impl;
    }

    method SetOrderId(value: Bytes)
      requires Valid()
      modifies this
      ensures Valid() && Value() == old(Value()).(orderId := value)
      ensures impl.hasBits == old(impl.hasBits) + {0}
    {
      hide UnknownOk;
      impl := impl.(hasBits := impl.hasBits + {0}, orderId := Owned(value));
    }

    method SetStatus(value: Bytes)
      requires Valid()
      modifies this
      ensures Valid() && Value() == old(Value()).(status := value)
      ensures impl.hasBits == old(impl.hasBits) + {1}
    {
      hide UnknownOk;
      impl := impl.(hasBits := impl.hasBits + {1}, status := Owned(value));
    }

    method SetOrderType(value: Bytes)
      requires Valid()
      modifies this
      ensures Valid() && Value() == old(Value()).(orderType := value)
      ensures impl.hasBits == old(impl.hasBits) + {2}
    {
      hide UnknownOk;
      impl := impl.(hasBits := impl.hasBits + {2}, orderType := Owned(value));
    }

    /** Stores one entry through the pointer `mutable_processed_items` hands out. */
    method PutProcessedItem(key: Bytes, count: int)
      requires Valid() && -TWO_TO_31 <= count < TWO_TO_31
      modifies this
      ensures Valid()
      ensures Value() == old(Value()).(processedItems := old(Value()).processedItems[key := count])
      ensures impl.hasBits == old(impl.hasBits) + {3}
    {
      hide UnknownOk;
      impl := impl.(hasBits := impl.hasBits + {3}, processedItems := impl.processedItems[key := count]);
    }

    method ClearProcessedItems()
      requires Valid()
      modifies this
      ensures Valid() && Value() == old(Value()).(processedItems := map[])
      ensures impl.hasBits == old(impl.hasBits) - {3}
    {
      hide UnknownOk;
      impl := impl.(processedItems := map[], hasBits := impl.hasBits - {3});
    }

    // ------------------------------------------------------ the two passes

    /** The first pass, walking the map in the order of `walk`. */
    method ByteSizeLong(walk: seq<Bytes>) returns (size: nat)
      requires Valid() && Enumerates(walk, impl.processedItems.Keys)
      modifies this`cachedSize
      ensures size == cachedSize == |Value().Encoded(walk)|
    {
      hide UnknownOk, StringOk, StrField, Enumerates;
      KeysListed(walk, impl.processedItems.Keys);
      var i := impl;
      size := StringSize(i.hasBits, 0, 1, i.orderId) + StringSize(i.hasBits, 1, 3, i.status)
            + StringSize(i.hasBits, 2, 5, i.orderType);
      if 3 in i.hasBits {
        var counts := CountsSize(i.processedItems, walk);
        size := size + counts;
      } else {
        EnumerationLength(walk, i.processedItems.Keys);
      }
      RecsSizeIsLength(unknown);
      size := size + RecsSize(unknown);
      cachedSize := size;
    }

    /** The second pass; in deterministic mode more than one entry are written in key order. */
    method InternalSerialize(target: Bytes, deterministic: bool, walk: seq<Bytes>) returns (out: Bytes)
      requires Valid() && Enumerates(walk, impl.processedItems.Keys)
      ensures out == target + ReportBytes(Value(), deterministic, walk)
    {
      hide UnknownOk, StringOk;
      var i := impl;
      var keys := if deterministic then SortKeys(walk) else walk;
      SortKeysEnumerates(walk, i.processedItems.Keys);
      out := WriteString(target, i.hasBits, 0, 1, i.orderId);
      out := WriteString(out, i.hasBits, 1, 3, i.status);
      if 3 in i.hasBits {
        if |i.processedItems| != 0 {
          if deterministic && |i.processedItems| > 1 {
            out := WriteCounts(out, i.processedItems, SortKeys(walk));
          } else {
            out := WriteCounts(out, i.processedItems, walk);
            if deterministic { FewKeysSorted(walk, i.processedItems.Keys); }
          }
        } else {
          EnumerationLength(keys, i.processedItems.Keys);
        }
      } else {
        EnumerationLength(keys, i.processedItems.Keys);
      }
      assert out == target + StrField(1, i.orderId.Get()) + StrField(3, i.status.Get()) + CountsField(4, i.processedItems, keys);
      out := WriteString(out, i.hasBits, 2, 5, i.orderType);
      out := out + EncodeRecs(unknown);
      ghost var strings := StrField(1, i.orderId.Get()) + StrField(3, i.status.Get());
      Assoc(target, StrField(1, i.orderId.Get()), StrField(3, i.status.Get()));
      Joined(target, strings, CountsField(4, i.processedItems, keys), StrField(5, i.orderType.Get()), EncodeRecs(unknown));
    }

    /**
     Both passes, over a map that may be walked in another order each time.  The
     bytes always parse back to this message.
     */
    method SerializeToBytes(deterministic: bool, walk: seq<Bytes>, walk': seq<Bytes>) returns (result: Option<Bytes>)
      requires Valid() && Enumerates(walk, impl.processedItems.Keys) && Enumerates(walk', impl.processedItems.Keys)
      modifies this`cachedSize
      ensures ValidSchema(REPORT_REQUEST)
      ensures result.Some? <==> |Value().Encoded(walk)| < TWO_TO_31
      ensures result.Some? ==> |result.value| == cachedSize
      ensures result.Some? ==> result.value == ReportBytes(Value(), deterministic, walk')
      ensures result.Some? ==> Parse(REPORT_REQUEST, result.value) == Some(Value().ToMsg())
    {
      hide UnknownOk, StringOk;
      ReportRequestValid();
      SortKeysEnumerates(walk', impl.processedItems.Keys);
      var keys := if deterministic then SortKeys(walk') else walk';
      ReportSizeSame(Value(), walk, keys);
      var size := ByteSizeLong(walk);
      if size >= TWO_TO_31 { return None; }
      var out := InternalSerialize([], deterministic, walk');
      ReportRoundTrip(Value(), keys);
      assert out == Value().Encoded(keys);
      result := Some(out);
    }

    // --------------------------------------------------------------- parse

    /** Stores one record where the parse table says, under the has-bit the table says, or rejects it. */
    method ParseRecord(r: Rec, target: Target) returns (ok: bool)
      requires Valid() && ValidRec(r) && EntriesFit(REPORT_TABLE, REPORT_REQUEST)
      requires target == Wanted(REPORT_TABLE, REPORT_REQUEST, r)
      modifies this
      ensures ok <==> ReportApplied(old(Value()), r).Some?
      ensures ok ==> ReportApplied(old(Value()), r) == Some(Value())
      ensures Valid()
      ensures ok ==> impl.hasBits == old(impl.hasBits) + (if target.Known? then {target.hasBit} else {})
    {
      hide IsMsg, ValidSchema, EntriesFit, Wanted, ReportRec.ToMsg, UnknownOk;
      ghost var v := Value();
      ReportApply(v, r);
      ReportTargets(r);
      ok := true;
      if target.Unknown? {
        unknown := unknown + [r];
        return;
      }
      var bits := impl.hasBits + {target.hasBit};
      if target.field == 0 {
        impl := impl.(hasBits := bits, orderId := Owned(r.payload));
      } else if target.field == 1 {
        impl := impl.(hasBits := bits, status := Owned(r.payload));
      } else if target.field == 3 {
        impl := impl.(hasBits := bits, orderType := Owned(r.payload));
      } else {
        var parsed, key, count := ParseCount(r.payload);
        if !parsed { return false; }
        impl := impl.(hasBits := bits, processedItems := impl.processedItems[key := count]);
      }
    }

    /** Merges an encoded message in; a rejected input may have been merged in part. */
    method MergeFromBytes(bs: Bytes) returns (ok: bool)
      requires Valid()
      modifies this
      ensures Valid()
      ensures ValidSchema(REPORT_REQUEST) && IsMsg(REPORT_REQUEST, old(Value()).ToMsg())
      ensures ok <==> ParseInto(REPORT_REQUEST, old(Value()).ToMsg(), bs).Some?
      ensures ok ==> ParseInto(REPORT_REQUEST, old(Value()).ToMsg(), bs) == Some(Value().ToMsg())
    {
      hide UnknownOk, StringOk, ParseInto, ReportApplied, IsMsg, ValidSchema, Fits, Slot, SlowTarget, ReadTag, EntriesFit, ReadOne;
      ReportRequestValid();
      ReportTableFits();
      FitsEntries(REPORT_TABLE, REPORT_REQUEST);
      ReportIsMsg(Value());
      ghost var goal := ParseInto(REPORT_REQUEST, Value().ToMsg(), bs);
      var rest := bs;
      while |rest| != 0
        invariant Valid() && IsMsg(REPORT_REQUEST, Value().ToMsg())
        invariant ParseInto(REPORT_REQUEST, Value().ToMsg(), rest) == goal
        decreases |rest|
      {
        ParseStep(REPORT_REQUEST, Value().ToMsg(), rest);
        var one := ReadOne(rest);
        if one.Fail? { return false; }
        ReportApply(Value(), one.value);
        var target := Dispatch(REPORT_TABLE, REPORT_REQUEST, rest);
        var stored := ParseRecord(one.value, target.value);
        if !stored { return false; }
        rest := one.rest;
      }
      ParseNothing(REPORT_REQUEST, Value().ToMsg());
      ok := true;
    }
  }

  /** The targets in the parse table are the fields and has-bits of the message object. */
  lemma ReportTargets(r: Rec)
    requires EntriesFit(REPORT_TABLE, REPORT_REQUEST)
    ensures Wanted(REPORT_TABLE, REPORT_REQUEST, r)
         == if r.Len? && r.num == 1 then Known(0, 0, 0) else if r.Len? && r.num == 3 then Known(1, 1, 0)
            else if r.Len? && r.num == 4 then Known(2, 3, 0) else if r.Len? && r.num == 5 then Known(3, 2, 0) else Target.Unknown
  {
    ReportSlots(r);
  }

  lemma FewKeysSorted(keys: seq<Bytes>, all: set<Bytes>)
    requires Enumerates(keys, all) && |all| <= 1
    ensures SortKeys(keys) == keys
  {
    EnumerationLength(keys, all);
    if |keys| == 1 {
      assert keys[1..] == [] && SortKeys([]) == [];
    }
  }

  // ---------------------------------------------------- writing map entries

  lemma {:induction false} CountsFieldAppend(num: nat, counts: map<Bytes, int>, keys: seq<Bytes>, key: Bytes)
    requires CountsOk(counts) && key in counts
    requires forall i :: 0 <= i < |keys| ==> keys[i] in counts
    ensures CountsField(num, counts, keys + [key]) == CountsField(num, counts, keys) + CountEntry(num, key, counts[key])
  {
    if keys == [] {
      assert [key][1..] == [];
    } else {
      assert (keys + [key])[1..] == keys[1..] + [key];
      CountsFieldAppend(num, counts, keys[1..], key);
    }
  }

  lemma CountEntrySize(key: Bytes, count: int)
    requires -TWO_TO_31 <= count < TWO_TO_31
    ensures var inner := 2 + VarintSize(|key|) + |key| + VarintSize(ToVarint(count));
            |CountEntry(4, key, count)| == 1 + VarintSize(inner) + inner
  {
    RecLayout([], 1, key, 0, 0);
    RecLayout([], 2, [], ToVarint(count), 0);
    RecLayout([], 4, EncodeRec(Len(1, key)) + EncodeRec(Varint(2, ToVarint(count))), 0, 0);
  }

  method CountsSize(counts: map<Bytes, int>, keys: seq<Bytes>) returns (size: nat)
    requires CountsOk(counts) && forall i :: 0 <= i < |keys| ==> keys[i] in counts
    ensures size == |CountsField(4, counts, keys)|
  {
    size := |keys|;
    assert CountsField(4, counts, keys[..0]) == [];
    hide CountsField, CountEntry, VarintSize;
    for k := 0 to |keys|
      invariant size == |keys| - k + |CountsField(4, counts, keys[..k])|
    {
      var key := keys[k];
      var inner := 2 + VarintSize(|key|) + |key| + VarintSize(ToVarint(counts[key]));
      size := size + VarintSize(inner) + inner;
      CountEntrySize(key, counts[key]);
      CountsFieldAppend(4, counts, keys[..k], key);
      assert keys[..k + 1] == keys[..k] + [key];
    }
    assert keys[..|keys|] == keys;
  }

  method WriteCounts(target: Bytes, counts: map<Bytes, int>, keys: seq<Bytes>) returns (out: Bytes)
    requires CountsOk(counts) && forall i :: 0 <= i < |keys| ==> keys[i] in counts
    ensures out == target + CountsField(4, counts, keys)
  {
    out := target;
    assert target + CountsField(4, counts, keys[..0]) == target;
    hide CountsField;
    for k := 0 to |keys|
      invariant out == target + CountsField(4, counts, keys[..k])
    {
      var key := keys[k];
      out := WriteCount(out, key, counts[key]);
      CountsFieldAppend(4, counts, keys[..k], key);
      Assoc(target, CountsField(4, counts, keys[..k]), CountEntry(4, key, counts[key]));
      assert keys[..k + 1] == keys[..k] + [key];
    }
    assert keys[..|keys|] == keys;
  }

  /** An entry's length prefix is computed from its key and value. */
  function WriteCount(target: Bytes, key: Bytes, count: int): (out: Bytes)
    requires -TWO_TO_31 <= count < TWO_TO_31
    ensures out == target + CountEntry(4, key, count)
  {
    var inner := 2 + VarintSize(|key|) + |key| + VarintSize(ToVarint(count));
    var body := EncodeTag(1, WT_LEN) + EncodeVarint(|key|) + key + EncodeTag(2, WT_VARINT) + EncodeVarint(ToVarint(count));
    RecLayout([], 1, key, 0, 0);
    RecLayout([], 2, [], ToVarint(count), 0);
    RecLayout(target, 4, EncodeRec(Len(1, key)) + EncodeRec(Varint(2, ToVarint(count))), 0, 0);
    assert body == EncodeRec(Len(1, key)) + EncodeRec(Varint(2, ToVarint(count)));
    target + EncodeTag(4, WT_LEN) + EncodeVarint(inner) + body
  }

  // --------------------------------------------------------- any walk order

  /** However the map is walked, the encoding has the same length ... */
  lemma ReportSizeSame(v: ReportRec, walk: seq<Bytes>, walk': seq<Bytes>)
    requires v.Ok() && Enumerates(walk, v.processedItems.Keys) && Enumerates(walk', v.processedItems.Keys)
    ensures |v.Encoded(walk)| == |v.Encoded(walk')|
  {
    var all := v.processedItems.Keys;
    WalkingValid(walk, all);
    WalkingValid(walk', all);
    ReportEncoding(v, Walking(walk, all));
    ReportEncoding(v, Walking(walk', all));
    OrderKeepsSize(REPORT_REQUEST, v.ToMsg(), Walking(walk, all), Walking(walk', all));
  }

  /** ... and parses to the same message, the one it was made from. */
  lemma ReportRoundTrip(v: ReportRec, walk: seq<Bytes>)
    requires v.Ok() && Enumerates(walk, v.processedItems.Keys) && |v.Encoded(walk)| < TWO_TO_31
    ensures ValidSchema(REPORT_REQUEST)
    ensures Parse(REPORT_REQUEST, v.Encoded(walk)) == Some(v.ToMsg())
  {
    ReportRequestValid();
    WalkingValid(walk, v.processedItems.Keys);
    ReportEncoding(v, Walking(walk, v.processedItems.Keys));
    ParseSerializeRoundTrip(REPORT_REQUEST, v.ToMsg(), Walking(walk, v.processedItems.Keys));
  }

  /** What the second pass writes, walking the map in the order of `walk`. */
  ghost function ReportBytes(v: ReportRec, deterministic: bool, walk: seq<Bytes>): Bytes
    requires v.Ok() && Enumerates(walk, v.processedItems.Keys)
  {
    SortKeysEnumerates(walk, v.processedItems.Keys);
    v.Encoded(if deterministic then SortKeys(walk) else walk)
  }

  /** In deterministic mode equal messages give equal bytes, whatever order their maps are walked in. */
  lemma ReportDeterministic(v: ReportRec, walk: seq<Bytes>, walk': seq<Bytes>)
    requires v.Ok() && Enumerates(walk, v.processedItems.Keys) && Enumerates(walk', v.processedItems.Keys)
    ensures ReportBytes(v, true, walk) == ReportBytes(v, true, walk')
  {
    SortKeysCanonical(walk, walk', v.processedItems.Keys);
  }

  /**
   In deterministic mode any accepted input is normalised to the bytes: parsing
   what was written and writing it again gives these bytes, however the two maps
   are walked.
   */
  lemma ReportNormalised(x: Bytes, walk: seq<Bytes>, walk': seq<Bytes>)
    requires ValidSchema(REPORT_REQUEST) && Parse(REPORT_REQUEST, x).Some?
    requires Enumerates(walk, ReportOf(Parse(REPORT_REQUEST, x).value).processedItems.Keys)
    requires |ReportBytes(ReportOf(Parse(REPORT_REQUEST, x).value), true, walk)| < TWO_TO_31
    ensures var y := ReportBytes(ReportOf(Parse(REPORT_REQUEST, x).value), true, walk);
      && Parse(REPORT_REQUEST, y) == Parse(REPORT_REQUEST, x)
      && (Enumerates(walk', ReportOf(Parse(REPORT_REQUEST, y).value).processedItems.Keys) ==>
            ReportBytes(ReportOf(Parse(REPORT_REQUEST, y).value), true, walk') == y)
  {
    var v := ReportOf(Parse(REPORT_REQUEST, x).value);
    hide UnknownOk, Parse, IsMsg;
    SortKeysEnumerates(walk, v.processedItems.Keys);
    ReportRoundTrip(v, SortKeys(walk));
    if Enumerates(walk', v.processedItems.Keys) {
      ReportDeterministic(v, walk, walk');
    }
  }

  /** Field number 2 is retired: a record that carries it is kept as unknown and changes nothing else. */
  lemma RetiredFieldUnknown(r: Rec)
    requires r.num == 2
    ensures AllUnknown(REPORT_REQUEST, [r])
  {
    ReportSlots(r);
  }
}
