/** CheckAvailabilityRequest (repeated strings), StockLevel, and CheckAvailabilityResponse (a map to messages). */
module Availability {
  import opened Wire
  import opened Message
  import opened Codec
  import opened Laws
  import opened MapOrder
  import opened Inventory
  import opened CachedSizes
  import opened Objects
  import opened Report

  // ----------------------------------------------- CheckAvailabilityRequest

  datatype SkusImpl = SkusImpl(hasBits: HasBits, skus: seq<Bytes>)

  class CheckAvailabilityRequest {
    var impl: SkusImpl
    var cachedSize: nat
    var unknown: seq<Rec>

    ghost predicate Valid()
      reads this
    {
      (0 in impl.hasBits || |impl.skus| == 0) && Value().Ok()
    }

    ghost function Value(): SkusRec
      reads this
    {
      SkusRec(impl.skus, unknown)
    }

    constructor ()
      ensures Valid() && Value() == SkusRec([], [])
    {
      impl, cachedSize, unknown := SkusImpl({}, []), 0, [];
    }

    method AddSkus(value: Bytes)
      requires Valid()
      modifies this
      ensures Valid() && Value() == old(Value()).(skus := old(Value()).skus + [value])
      ensures impl.hasBits == old(impl.hasBits) + {0}
    {
      impl := SkusImpl(impl.hasBits + {0}, impl.skus + [value]);
    }

    /** Writes to one element; the has-bit is left as it is. */
    method SetSkus(index: nat, value: Bytes)
      requires Valid() && index < |impl.skus|
      modifies this
      ensures Valid() && Value() == old(Value()).(skus := old(Value()).skus[index := value])
      ensures impl.hasBits == old(impl.hasBits)
    {
      impl := SkusImpl(impl.hasBits, impl.skus[index := value]);
    }

    /** Edits the list through the pointer the accessor hands out. */
    method MutableSkus(edit: seq<Bytes> -> seq<Bytes>)
      requires Valid()
      modifies this
      ensures Valid() && Value() == old(Value()).(skus := edit(old(Value()).skus))
      ensures impl.hasBits == old(impl.hasBits) + {0}
    {
      impl := SkusImpl(impl.hasBits + {0}, edit(impl.skus));
    }

    method ClearSkus()
      requires Valid()
      modifies this
      ensures Valid() && Value() == old(Value()).(skus := [])
      ensures impl.hasBits == old(impl.hasBits) - {0}
    {
      impl := SkusImpl(impl.hasBits - {0}, []);
    }

    /** Only looks at the list when its has-bit is set. */
    method Clear()
      requires Valid()
      modifies this
      ensures Valid() && Value() == SkusRec([], [])
      ensures impl.hasBits == {}
    {
      impl := SkusImpl({}, if 0 in impl.hasBits then [] else impl.skus);
      unknown := [];
    }

    method MergeFrom(from: CheckAvailabilityRequest)
      requires Valid() && from.Valid() && from != this
      modifies this
      ensures Valid() && Value() == old(Value()).Merged(from.Value())
      ensures impl.hasBits == old(impl.hasBits) + from.impl.hasBits
    {
      hide UnknownOk;
      UnknownJoined(AVAILABILITY_REQUEST, unknown, from.unknown);
      var i, j := impl, from.impl;
      assert 0 !in j.hasBits ==> i.skus + j.skus == i.skus;
      impl := SkusImpl(i.hasBits + j.hasBits, if 0 in j.hasBits then i.skus + j.skus else i.skus);
      unknown := unknown + from.unknown;
    }

    method CopyFrom(from: CheckAvailabilityRequest)
      requires Valid() && from.Valid()
      modifies this
      ensures Valid() && Value() == old(from.Value())
      ensures impl.hasBits == old(from.impl.hasBits)
    {
      hide UnknownOk;
      if from == this { return; }
      Clear();
      MergeFrom(from);
      assert [] + from.unknown == from.unknown && [] + from.impl.skus == from.impl.skus;
    }

    method InternalSwap(other: CheckAvailabilityRequest)
      requires Valid() && other.Valid() && other != this
      modifies this, other
      ensures Valid() && other.Valid()
      ensures Value() == old(other.Value()) && other.Value() == old(Value())
      ensures impl == old(other.impl) && other.impl == old(impl)
    {
      unknown, other.unknown := other.unknown, unknown;
      impl, other.impl := other.impl, impl;
    }

    method ByteSizeLong() returns (size: nat)
      requires Valid()
      modifies this`cachedSize
      ensures size == cachedSize == |Value().Encoded()|
    {
      var skus := impl.skus;
      size := 0;
      if 0 in impl.hasBits {
        size := |skus|;
        assert StrsField(1, skus[..0]) == [];
        for k := 0 to |skus|
          invariant size == |skus| - k + |StrsField(1, skus[..k])|
        {
          size := size + VarintSize(|skus[k]|) + |skus[k]|;
          StrsFieldAppend(1, skus[..k], skus[k]);
          RecLayout([], 1, skus[k], 0, 0);
          assert skus[..k + 1] == skus[..k] + [skus[k]];
        }
        assert skus[..|skus|] == skus;
      }
      RecsSizeIsLength(unknown);
      size := size + RecsSize(unknown);
      cachedSize := size;
    }

    /** Leaves the whole list out when its has-bit is clear, whatever is in it. */
    method InternalSerialize(target: Bytes) returns (out: Bytes)
      ensures out == target + SkusRec(WithBit(impl), unknown).Encoded()
      ensures Valid() ==> out == target + Value().Encoded()
    {
      var skus := impl.skus;
      out := target;
      assert target + StrsField(1, skus[..0]) == target;
      if 0 in impl.hasBits {
        for k := 0 to |skus|
          invariant out == target + StrsField(1, skus[..k])
        {
          RecLayout(out, 1, skus[k], 0, 0);
          StrsFieldAppend(1, skus[..k], skus[k]);
          Assoc(target, StrsField(1, skus[..k]), EncodeRec(Len(1, skus[k])));
          out := out + EncodeTag(1, WT_LEN) + EncodeVarint(|skus[k]|) + skus[k];
          assert skus[..k + 1] == skus[..k] + [skus[k]];
        }
        assert skus[..|skus|] == skus;
      }
      assert out == target + StrsField(1, WithBit(impl));
      Assoc(target, StrsField(1, WithBit(impl)), EncodeRecs(unknown));
      out := out + EncodeRecs(unknown);
    }
  }

  /** The elements the second pass gets to see. */
  function WithBit(impl: SkusImpl): seq<Bytes> {
    if 0 in impl.hasBits then impl.skus else []
  }

  /** The representation invariant is just what the second pass needs: without it, and only then, elements are lost. */
  lemma HasBitDecides(impl: SkusImpl, unknown: seq<Rec>)
    ensures SkusRec(WithBit(impl), unknown).Encoded() == SkusRec(impl.skus, unknown).Encoded()
       <==> (0 in impl.hasBits || |impl.skus| == 0)
  {
    if 0 !in impl.hasBits && |impl.skus| != 0 {
      RecLayout([], 1, impl.skus[0], 0, 0);
      assert |StrsField(1, impl.skus)| > 0;
    }
  }

  lemma {:induction false} StrsFieldAppend(num: nat, ss: seq<Bytes>, s: Bytes)
    ensures StrsField(num, ss + [s]) == StrsField(num, ss) + EncodeRec(Len(num, s))
  {
    if ss == [] {
      assert [s][1..] == [];
    } else {
      assert (ss + [s])[1..] == ss[1..] + [s];
      StrsFieldAppend(num, ss[1..], s);
    }
  }

  // ------------------------------------------------------------- StockLevel

  datatype StockLevelImpl = StockLevelImpl(
    hasBits: HasBits, sku: ArenaString, name: ArenaString, aisleType: ArenaString, quantity: int)

  class StockLevel {
    var impl: StockLevelImpl
    var cachedSize: nat
    var unknown: seq<Rec>

    ghost predicate Valid()
      reads this
    {
      && StringOk(impl.hasBits, 0, impl.sku)
      && StringOk(impl.hasBits, 1, impl.name)
      && StringOk(impl.hasBits, 2, impl.aisleType)
      && NumberOk(impl.hasBits, 3, impl.quantity)
      && Value().Ok()
    }

    ghost function Value(): StockLevelRec
      reads this
    {
      StockLevelRec(impl.sku.Get(), impl.name.Get(), impl.aisleType.Get(), impl.quantity, unknown)
    }

    constructor ()
      ensures Valid() && Value() == NO_STOCK
    {
      impl := StockLevelImpl({}, Shared, Shared, Shared, 0);
      cachedSize, unknown := 0, [];
    }

    constructor CopyOf(from: StockLevel)
      requires from.Valid()
      ensures Valid() && Value() == from.Value()
      ensures impl.hasBits == from.impl.hasBits
    {
      unknown, impl, cachedSize := from.unknown, from.impl, 0;
    }

    method SetSku(value: Bytes)
      requires Valid()
      modifies this
      ensures Valid() && Value() == old(Value()).(sku := value)
      ensures impl.hasBits == old(impl.hasBits) + {0}
    {
      hide UnknownOk;
      impl := impl.(hasBits := impl.hasBits + {0}, sku := Owned(value));
    }

    method SetName(value: Bytes)
      requires Valid()
      modifies this
      ensures Valid() && Value() == old(Value()).(name := value)
      ensures impl.hasBits == old(impl.hasBits) + {1}
    {
      hide UnknownOk;
      impl := impl.(hasBits := impl.hasBits + {1}, name := Owned(value));
    }

    method SetAisleType(value: Bytes)
      requires Valid()
      modifies this
      ensures Valid() && Value() == old(Value()).(aisleType := value)
      ensures impl.hasBits == old(impl.hasBits) + {2}
    {
      hide UnknownOk;
      impl := impl.(hasBits := impl.hasBits + {2}, aisleType := Owned(value));
    }

    method SetQuantityAvailable(value: int)
      requires Valid() && -TWO_TO_31 <= value < TWO_TO_31
      modifies this
      ensures Valid() && Value() == old(Value()).(quantity := value)
      ensures impl.hasBits == old(impl.hasBits) + {3}
    {
      hide UnknownOk;
      impl := impl.(hasBits := impl.hasBits + {3}, quantity := value);
    }

    /** The quantity is reset without looking at its has-bit. */
    method Clear()
      requires Valid()
      modifies this
      ensures Valid() && Value() == NO_STOCK
      ensures impl.hasBits == {}
    {
      hide UnknownOk;
      NoUnknown(STOCK_LEVEL);
      var i := impl;
      impl := StockLevelImpl(
        {},
        ClearString(i.hasBits, 0, i.sku),
        ClearString(i.hasBits, 1, i.name),
        ClearString(i.hasBits, 2, i.aisleType),
        0);
      unknown := [];
    }

    method MergeFrom(from: StockLevel)
      requires Valid() && from.Valid() && from != this
      modifies this
      ensures Valid() && Value() == old(Value()).Merged(from.Value())
      ensures impl.hasBits == old(impl.hasBits) + from.impl.hasBits
    {
      hide UnknownOk, StringOk, MergeString, NumberOk, MergeNumber;
      UnknownJoined(STOCK_LEVEL, unknown, from.unknown);
      var i, j := impl, from.impl;
      impl := StockLevelImpl(
        i.hasBits + j.hasBits,
        MergeString(i.hasBits, j.hasBits, 0, i.sku, j.sku),
        MergeString(i.hasBits, j.hasBits, 1, i.name, j.name),
        MergeString(i.hasBits, j.hasBits, 2, i.aisleType, j.aisleType),
        MergeNumber(i.hasBits, j.hasBits, 3, i.quantity, j.quantity));
      unknown := unknown + from.unknown;
    }

    method CopyFrom(from: StockLevel)
      requires Valid() && from.Valid()
      modifies this
      ensures Valid() && Value() == old(from.Value())
      ensures impl.hasBits == old(from.impl.hasBits)
    {
      hide UnknownOk, StringOk, NumberOk;
      if from == this { return; }
      Clear();
      MergeFrom(from);
      assert [] + from.unknown == from.unknown;
    }

    method InternalSwap(other: StockLevel)
      requires Valid() && other.Valid() && other != this
      modifies this, other
      ensures Valid() && other.Valid()
      ensures Value() == old(other.Value()) && other.Value() == old(Value())
      ensures impl == old(other.impl) && other.impl == old(impl)
    {
      hide UnknownOk, StringOk, NumberOk;
      unknown, other.unknown := other.unknown, unknown;
      impl, other.impl := other.impl, impl;
    }

    method ByteSizeLong() returns (size: nat)
      requires Valid()
      modifies this`cachedSize
      ensures size == cachedSize == |Value().Encoded()|
    {
      hide UnknownOk, StringOk, NumberOk;
      var i := impl;
      RecsSizeIsLength(unknown);
      size := StringSize(i.hasBits, 0, 1, i.sku) + StringSize(i.hasBits, 1, 2, i.name)
            + StringSize(i.hasBits, 2, 3, i.aisleType) + IntSize(i.hasBits, 3, 4, i.quantity) + RecsSize(unknown);
      cachedSize := size;
    }

    method InternalSerialize(target: Bytes) returns (out: Bytes)
      requires Valid()
      ensures out == target + Value().Encoded()
    {
      hide UnknownOk, StringOk, NumberOk;
      var i := impl;
      out := WriteString(target, i.hasBits, 0, 1, i.sku);
      out := WriteString(out, i.hasBits, 1, 2, i.name);
      out := WriteString(out, i.hasBits, 2, 3, i.aisleType);
      out := WriteInt(out, i.hasBits, 3, 4, i.quantity);
      out := out + EncodeRecs(unknown);
      ghost var strings := StrField(1, i.sku.Get()) + StrField(2, i.name.Get());
      Assoc(target, StrField(1, i.sku.Get()), StrField(2, i.name.Get()));
      Joined(target, strings, StrField(3, i.aisleType.Get()), IntField(4, i.quantity), EncodeRecs(unknown));
    }
  }

  // ---------------------------------------------- CheckAvailabilityResponse

  /** Valid levels that live among `owned`, a different one under every key. */
  ghost predicate StockOwned(items: map<Bytes, StockLevel>, owned: set<object>)
    reads owned
  {
    && (forall key :: key in items ==> items[key] in owned && items[key].Valid())
    && (forall key, key' :: key in items && key' in items && key != key' ==> items[key] != items[key'])
  }

  ghost function StockValues(items: map<Bytes, StockLevel>, owned: set<object>): (vs: map<Bytes, StockLevelRec>)
    requires StockOwned(items, owned)
    reads owned
  {
    map key | key in items :: items[key].Value()
  }

  lemma StockValuesAt(items: map<Bytes, StockLevel>, owned: set<object>)
    requires StockOwned(items, owned)
    ensures StockValues(items, owned).Keys == items.Keys && StockOk(StockValues(items, owned))
    ensures forall key :: key in items ==> items[key] in owned && StockValues(items, owned)[key] == items[key].Value()
  {
  }

  lemma StockPut(items: map<Bytes, StockLevel>, owned: set<object>, key: Bytes, level: StockLevel)
    requires StockOwned(items, owned) && level.Valid() && level !in owned
    ensures StockOwned(items[key := level], owned + {level})
    ensures StockValues(items[key := level], owned + {level}) == StockValues(items, owned)[key := level.Value()]
  {
    hide StockLevel.Valid, StockLevel.Value;
    StockValuesAt(items, owned);
    assert StockOwned(items[key := level], owned + {level});
  }

  /** The sizes that are cached in the levels. */
  ghost function StockCaches(items: map<Bytes, StockLevel>, owned: set<object>): (cs: map<Bytes, nat>)
    requires StockOwned(items, owned)
    reads owned
  {
    map key | key in items :: items[key].cachedSize
  }

  lemma StockCachesAt(items: map<Bytes, StockLevel>, owned: set<object>)
    requires StockOwned(items, owned)
    ensures StockCaches(items, owned).Keys == items.Keys
    ensures forall key :: key in items ==> StockCaches(items, owned)[key] == items[key].cachedSize
  {
    hide StockLevel.Valid;
  }

  lemma LevelAt(items: map<Bytes, StockLevel>, owned: set<object>, key: Bytes)
    requires StockOwned(items, owned) && key in items
    ensures items[key] in owned && items[key].Valid() && items[key].Value().Ok()
    ensures key in StockValues(items, owned) && StockValues(items, owned)[key] == items[key].Value()
    ensures key in StockCaches(items, owned) && StockCaches(items, owned)[key] == items[key].cachedSize
  {
    hide UnknownOk, StockLevel.Valid, StockLevel.Value;
    StockValuesAt(items, owned);
    StockCachesAt(items, owned);
  }

  /** The levels and their cached sizes, under the keys of a map. */
  lemma StockSeen(items: map<Bytes, StockLevel>, owned: set<object>)
    requires StockOwned(items, owned)
    ensures StockOk(StockValues(items, owned)) && StockValues(items, owned).Keys == StockCaches(items, owned).Keys == items.Keys
  {
    StockValuesAt(items, owned);
    StockCachesAt(items, owned);
  }

  lemma SumWithNothing<T>(a: map<Bytes, T>, b: map<Bytes, T>)
    requires |b.Keys| == 0
    ensures a + b == a
  {
  }

  datatype AvailabilityImpl = AvailabilityImpl(hasBits: HasBits, items: map<Bytes, StockLevel>)

  class CheckAvailabilityResponse {
    var impl: AvailabilityImpl
    var cachedSize: nat
    var unknown: seq<Rec>
    ghost var owned: set<object>

    ghost predicate Valid()
      reads this, owned
    {
      && this !in owned
      && MapOk(impl.hasBits, 0, impl.items)
      && StockOwned(impl.items, owned)
      && UnknownOk(AVAILABILITY_RESPONSE, unknown)
    }

    ghost function Value(): (v: AvailabilityRec)
      requires Valid()
      reads this, owned
      ensures v.Ok()
    {
      StockValuesAt(impl.items, owned);
      AvailabilityRec(StockValues(impl.items, owned), unknown)
    }

    constructor ()
      ensures Valid() && Value() == AvailabilityRec(map[], []) && owned == {}
    {
      impl := AvailabilityImpl({}, map[]);
      cachedSize, unknown, owned := 0, [], {};
    }

    /** Stores a level through the pointer `mutable_items` hands out; the map keeps its own copy. */
    method PutItem(key: Bytes, level: StockLevel)
      requires Valid() && level.Valid() && level != this as object
      modifies this
      ensures Valid() && fresh(owned - old(owned))
      ensures Value() == old(Value()).(items := old(Value()).items[key := level.Value()])
      ensures impl.hasBits == old(impl.hasBits) + {0}
    {
      hide UnknownOk, StockLevel.Valid, StockLevel.Value, StockOwned, StockValues;
      var copy := new StockLevel.CopyOf(level);
      StockPut(impl.items, owned, key, copy);
      owned := owned + {copy};
      impl := AvailabilityImpl(impl.hasBits + {0}, impl.items[key := copy]);
    }

    method Clear()
      requires Valid()
      modifies this
      ensures Valid() && Value() == AvailabilityRec(map[], []) && owned == old(owned)
      ensures impl.hasBits == {}
    {
      hide UnknownOk;
      NoUnknown(AVAILABILITY_RESPONSE);
      impl := AvailabilityImpl({}, if 0 in impl.hasBits then map[] else impl.items);
      unknown := [];
      assert StockValues(impl.items, owned) == map[];
    }

    method ClearItems()
      requires Valid()
      modifies this
      ensures Valid() && Value() == old(Value()).(items := map[]) && owned == old(owned)
      ensures impl.hasBits == old(impl.hasBits) - {0}
    {
      hide UnknownOk;
      impl := AvailabilityImpl(impl.hasBits - {0}, map[]);
      assert StockValues(impl.items, owned) == map[];
    }

    /** Copies the entry of one key in. */
    static method CopyEntry(to: map<Bytes, StockLevel>, ghost toOwned: set<object>,
                            from: map<Bytes, StockLevel>, ghost fromOwned: set<object>, key: Bytes)
      returns (items: map<Bytes, StockLevel>, ghost owned: set<object>)
      requires StockOwned(to, toOwned) && StockOwned(from, fromOwned) && key in from
      ensures toOwned <= owned && fresh(owned - toOwned) && StockOwned(items, owned)
      ensures key in StockValues(from, fromOwned)
      ensures StockValues(items, owned) == StockValues(to, toOwned)[key := StockValues(from, fromOwned)[key]]
    {
      hide UnknownOk, StockLevel.Valid, StockLevel.Value, StockOwned, StockValues, StockLevelRec.Ok;
      LevelAt(from, fromOwned, key);
      var copy := new StockLevel.CopyOf(from[key]);
      StockPut(to, toOwned, key, copy);
      items, owned := to[key := copy], toOwned + {copy};
    }

    /** Copies every entry of another map in, one key after the other; a key of both gets the other's value. */
    static method CopyEntries(to: map<Bytes, StockLevel>, ghost toOwned: set<object>,
                              from: map<Bytes, StockLevel>, ghost fromOwned: set<object>)
      returns (items: map<Bytes, StockLevel>, ghost owned: set<object>)
      requires StockOwned(to, toOwned) && StockOwned(from, fromOwned)
      ensures toOwned <= owned && fresh(owned - toOwned) && StockOwned(items, owned)
      ensures StockValues(items, owned) == StockValues(to, toOwned) + StockValues(from, fromOwned)
    {
      hide StockOwned, StockValues, StockLevelRec.Ok, Done;
      StockSeen(from, fromOwned);
      items, owned := to, toOwned;
      ghost var a, b := StockValues(to, toOwned), StockValues(from, fromOwned);
      var todo := from.Keys;
      ghost var done: map<Bytes, StockLevelRec> := map[];
      NothingDone(a, b);
      while todo != {}
        invariant todo <= from.Keys
        invariant toOwned <= owned && fresh(owned - toOwned) && StockOwned(items, owned)
        invariant StockOwned(from, fromOwned) && StockValues(from, fromOwned) == b
        invariant Done(b, done, todo) && StockValues(items, owned) == a + done
        decreases todo
      {
        var key :| key in todo;
        items, owned := CopyEntry(items, owned, from, fromOwned, key);
        OneDone(a, b, done, todo, key);
        todo, done := todo - {key}, done[key := b[key]];
      }
      AllDone(b, done);
    }

    method MergeFrom(from: CheckAvailabilityResponse)
      requires Valid() && from.Valid() && from != this && this !in from.owned
      modifies this
      ensures Valid() && fresh(owned - old(owned))
      ensures Value() == old(Value()).Merged(from.Value())
      ensures impl.hasBits == old(impl.hasBits) + from.impl.hasBits
    {
      hide UnknownOk, StockLevel.Valid, StockLevel.Value, StockOwned, StockValues, MapOk;
      UnknownJoined(AVAILABILITY_RESPONSE, unknown, from.unknown);
      var i, j := impl, from.impl;
      var items, owned' := MergeEntries(i, owned, j, from.owned);
      owned := owned';
      impl := AvailabilityImpl(i.hasBits + j.hasBits, items);
      unknown := unknown + from.unknown;
    }

    /** Only looks at the entries of the other map when its has-bit is set. */
    static method MergeEntries(i: AvailabilityImpl, ghost owned: set<object>, j: AvailabilityImpl, ghost fromOwned: set<object>)
      returns (items: map<Bytes, StockLevel>, ghost owned': set<object>)
      requires MapOk(i.hasBits, 0, i.items) && MapOk(j.hasBits, 0, j.items)
      requires StockOwned(i.items, owned) && StockOwned(j.items, fromOwned)
      ensures owned <= owned' && fresh(owned' - owned) && StockOwned(items, owned')
      ensures StockValues(items, owned') == StockValues(i.items, owned) + StockValues(j.items, fromOwned)
      ensures MapOk(i.hasBits + j.hasBits, 0, items)
    {
      hide StockLevel.Valid, StockLevel.Value, StockOwned, StockValues;
      if 0 in j.hasBits {
        items, owned' := CopyEntries(i.items, owned, j.items, fromOwned);
      } else {
        items, owned' := i.items, owned;
        StockValuesAt(j.items, fromOwned);
        SumWithNothing(StockValues(i.items, owned), StockValues(j.items, fromOwned));
      }
    }

    method CopyFrom(from: CheckAvailabilityResponse)
      requires Valid() && from.Valid() && (from == this || this !in from.owned)
      modifies this
      ensures Valid() && fresh(owned - old(owned))
      ensures Value() == old(from.Value())
      ensures impl.hasBits == old(from.impl.hasBits)
    {
      hide UnknownOk, StockLevel.Valid, StockLevel.Value, StockOwned, StockValues;
      if from == this { return; }
      ghost var b := from.Value();
      Clear();
      MergeFrom(from);
      assert map[] + b.items == b.items && [] + b.unknown == b.unknown;
    }

    method InternalSwap(other: CheckAvailabilityResponse)
      requires Valid() && other.Valid() && other != this
      requires this !in other.owned && other !in owned
      modifies this, other
      ensures Valid() && other.Valid()
      ensures Value() == old(other.Value()) && other.Value() == old(Value())
      ensures impl == old(other.impl) && other.impl == old(impl)
      ensures owned == old(other.owned) && other.owned == old(owned)
    {
      hide UnknownOk, StockLevel.Valid, StockLevel.Value, StockOwned, StockValues;
      unknown, other.unknown := other.unknown, unknown;
      impl, other.impl := other.impl, impl;
      owned, other.owned := other.owned, owned;
    }

    // ------------------------------------------------------ the two passes

    /** Sizing one level leaves the others as they are. */
    static method LevelByteSize(items: map<Bytes, StockLevel>, ghost owned: set<object>, key: Bytes) returns (size: nat)
      requires StockOwned(items, owned) && key in items
      modifies owned
      ensures StockOwned(items, owned) && StockValues(items, owned) == old(StockValues(items, owned))
      ensures LevelSized(items[key]) && size == |items[key].Value().Encoded()|
      ensures forall key' :: key' in items && key' != key && old(LevelSized(items[key'])) ==> LevelSized(items[key'])
      ensures key in items && items[key] in owned && items[key].Valid()
    {
      hide UnknownOk;
      StockValuesAt(items, owned);
      size := items[key].ByteSizeLong();
      assert items[key].Value() == old(items[key].Value()) && items[key].Valid();
      hide StockLevel.Valid, StockLevel.Value;
      forall key' | key' in items && key' != key
        ensures items[key'].Valid() && items[key'].Value() == old(items[key'].Value())
        ensures old(LevelSized(items[key'])) ==> LevelSized(items[key'])
      {
        assert items[key'] in owned && items[key'] != items[key];
      }
      assert StockOwned(items, owned);
    }

    static method StockByteSize(items: map<Bytes, StockLevel>, ghost owned: set<object>, walk: seq<Bytes>) returns (size: nat)
      requires StockOwned(items, owned) && Enumerates(walk, items.Keys)
      modifies owned
      ensures StockOwned(items, owned) && StockValues(items, owned) == old(StockValues(items, owned))
      ensures StockSized(items, owned)
      ensures Listed(StockValues(items, owned), walk) && size == |StockField(1, StockValues(items, owned), walk)|
    {
      hide UnknownOk, StockLevel.Valid, StockLevel.Value, LevelSized, StockOwned, StockValues, StockSized, SizedUpTo;
      hide StockField, StockEntry, VarintSize, StockSoFar, StockLevelRec.Encoded;
      StockSeen(items, owned);
      ghost var vs := StockValues(items, owned);
      size := |walk|;
      NoneSized(items, owned, walk);
      StockStarts(vs, walk);
      for k := 0 to |walk|
        invariant StockOwned(items, owned) && StockValues(items, owned) == vs && SizedUpTo(items, owned, walk, k)
        invariant size == |walk| - k + StockSoFar(vs, walk, k)
      {
        var n := NextLevelSize(items, owned, walk, k);
        var key := walk[k];
        var inner := 2 + VarintSize(|key|) + |key| + VarintSize(n) + n;
        size := size + VarintSize(inner) + inner;
        StockFieldNext(vs, walk, k);
      }
      AllSized(items, owned, walk);
      StockEnds(vs, walk);
    }

    static method NextLevelSize(items: map<Bytes, StockLevel>, ghost owned: set<object>, walk: seq<Bytes>, k: nat) returns (size: nat)
      requires StockOwned(items, owned) && k < |walk| && Enumerates(walk, items.Keys) && SizedUpTo(items, owned, walk, k)
      modifies owned
      ensures StockOwned(items, owned) && StockValues(items, owned) == old(StockValues(items, owned))
      ensures SizedUpTo(items, owned, walk, k + 1)
      ensures walk[k] in StockValues(items, owned) && StockValues(items, owned)[walk[k]].Ok()
      ensures size == |StockValues(items, owned)[walk[k]].Encoded()|
    {
      hide UnknownOk, StockLevel.Valid, StockLevel.Value, LevelSized, StockOwned, StockValues, StockLevelRec.Encoded;
      size := LevelByteSize(items, owned, walk[k]);
      LevelAt(items, owned, walk[k]);
    }

    /** The first pass, walking the map in the order of `walk`; it sizes every level. */
    method ByteSizeLong(walk: seq<Bytes>) returns (size: nat)
      requires Valid() && Enumerates(walk, impl.items.Keys)
      modifies this`cachedSize, owned
      ensures Valid() && Value() == old(Value())
      ensures Listed(Value().items, walk) && size == cachedSize == |Value().Encoded(walk)|
      ensures StockSized(impl.items, owned)
    {
      hide UnknownOk, StockLevel.Valid, StockLevel.Value, StockOwned, StockValues, StockSized;
      EnumerationLength(walk, impl.items.Keys);
      size := StockByteSize(impl.items, owned, walk);
      if 0 !in impl.hasBits { size := 0; }
      RecsSizeIsLength(unknown);
      size := size + RecsSize(unknown);
      cachedSize := size;
    }

    /** An entry's length prefix adds up its key and the cached size of its level. */
    static method WriteStock(target: Bytes, key: Bytes, level: StockLevel) returns (out: Bytes)
      requires level.Valid()
      ensures out == target + StockEntryWith(1, key, level.Value(), level.cachedSize)
    {
      hide UnknownOk, StockLevel.Value, StockLevelRec.Encoded, EncodeRec, EncodeTag, EncodeVarint, VarintSize;
      var n := level.cachedSize;
      ghost var body, x, t := level.Value().Encoded(), EncodeRec(Len(1, key)), EncodeTag(2, WT_LEN) + EncodeVarint(n);
      out := target + EncodeTag(1, WT_LEN) + EncodeVarint(2 + VarintSize(|key|) + |key| + VarintSize(n) + n);
      ghost var front := EncodeTag(1, WT_LEN) + EncodeVarint(2 + VarintSize(|key|) + |key| + VarintSize(n) + n);
      Assoc(target, EncodeTag(1, WT_LEN), EncodeVarint(2 + VarintSize(|key|) + |key| + VarintSize(n) + n));
      RecLayout(out, 1, key, 0, 0);
      out := out + EncodeTag(1, WT_LEN) + EncodeVarint(|key|) + key;
      assert out == target + front + x;
      Assoc(out, EncodeTag(2, WT_LEN), EncodeVarint(n));
      out := out + EncodeTag(2, WT_LEN) + EncodeVarint(n);
      assert out == target + front + x + t;
      out := level.InternalSerialize(out);
      Joined(target, front, x, t, body);
    }

    static method WriteStocks(target: Bytes, items: map<Bytes, StockLevel>, ghost owned: set<object>, keys: seq<Bytes>)
      returns (out: Bytes)
      requires StockOwned(items, owned) && forall i :: 0 <= i < |keys| ==> keys[i] in items
      ensures Listed(StockValues(items, owned), keys) && StockCaches(items, owned).Keys == StockValues(items, owned).Keys
      ensures out == target + StockFieldWith(1, StockValues(items, owned), StockCaches(items, owned), keys)
    {
      hide UnknownOk, StockLevel.Valid, StockLevel.Value, StockOwned, StockValues, StockCaches, StockLevelRec.Ok;
      hide StockWritten, StockEntryWith, StockFieldWith;
      StockSeen(items, owned);
      ghost var vs, cs := StockValues(items, owned), StockCaches(items, owned);
      StockWrittenStarts(vs, cs, keys);
      out := target;
      assert target + [] == target;
      for k := 0 to |keys|
        invariant out == target + StockWritten(vs, cs, keys, k)
      {
        var key := keys[k];
        LevelAt(items, owned, key);
        out := WriteStock(out, key, items[key]);
        StockWrittenNext(vs, cs, keys, k);
        Assoc(target, StockWritten(vs, cs, keys, k), StockEntryWith(1, key, vs[key], cs[key]));
      }
    }

    /** The encoding of this message. */
    ghost function TrueBytes(deterministic: bool, walk: seq<Bytes>): Bytes
      requires Valid() && Enumerates(walk, impl.items.Keys)
      reads this, owned
    {
      hide UnknownOk, StockLevel.Valid, StockOwned, StockValues;
      StockValuesAt(impl.items, owned);
      AvailabilityBytes(Value(), deterministic, walk)
    }

    /** The bytes that the sizes cached in the levels determine. */
    ghost function CachedBytes(deterministic: bool, walk: seq<Bytes>): Bytes
      requires Valid() && Enumerates(walk, impl.items.Keys)
      reads this, owned
    {
      hide UnknownOk, StockLevel.Valid, StockOwned, StockValues, StockCaches, WalkOf;
      StockSeen(impl.items, owned);
      WalkEnumerates(deterministic, walk, impl.items.Keys);
      AvailabilityWith(Value(), StockCaches(impl.items, owned), WalkOf(deterministic, walk))
    }

    /** All of these sizes are true. */
    ghost predicate CachesRight(deterministic: bool, walk: seq<Bytes>)
      requires Valid() && Enumerates(walk, impl.items.Keys)
      reads this, owned
    {
      hide UnknownOk, StockLevel.Valid, StockOwned, StockValues, StockCaches, WalkOf;
      StockSeen(impl.items, owned);
      WalkEnumerates(deterministic, walk, impl.items.Keys);
      StockSizesRight(Value().items, StockCaches(impl.items, owned), WalkOf(deterministic, walk))
    }

    /**
     The second pass, with the levels' length prefixes out of the cache.  It writes
     the encoding exactly when these are true.
     */
    method InternalSerialize(target: Bytes, deterministic: bool, walk: seq<Bytes>) returns (out: Bytes)
      requires Valid() && Enumerates(walk, impl.items.Keys)
      ensures out == target + CachedBytes(deterministic, walk)
      ensures out == target + TrueBytes(deterministic, walk) <==> CachesRight(deterministic, walk)
      ensures StockSized(impl.items, owned) ==> out == target + TrueBytes(deterministic, walk)
    {
      hide UnknownOk, StockLevel.Valid, StockLevel.Value, StockOwned, StockValues, StockCaches, StockSized, WalkOf;
      hide AvailabilityRec.Encoded, AvailabilityWith, StockSizesRight;
      StockSeen(impl.items, owned);
      var keys := WalkOf(deterministic, walk);
      WalkEnumerates(deterministic, walk, impl.items.Keys);
      ghost var v, cs := Value(), StockCaches(impl.items, owned);
      out := WriteFields(target, deterministic, walk);
      AvailabilityCacheDecides(v, cs, keys);
      if StockSized(impl.items, owned) { StockSizedIsRight(impl.items, owned, keys); }
      SameBehind(target, AvailabilityWith(v, cs, keys), v.Encoded(keys));
    }

    method WriteFields(target: Bytes, deterministic: bool, walk: seq<Bytes>) returns (out: Bytes)
      requires Valid() && Enumerates(walk, impl.items.Keys)
      ensures out == target + CachedBytes(deterministic, walk)
    {
      hide UnknownOk, StockLevel.Valid, StockLevel.Value, StockOwned, StockValues, StockCaches, Enumerates, MapOk, WalkOf, StockFieldWith;
      StockSeen(impl.items, owned);
      WalkEnumerates(deterministic, walk, impl.items.Keys);
      KeysListed(WalkOf(deterministic, walk), impl.items.Keys);
      out := WriteEntries(target, deterministic, walk);
      Assoc(target, StockFieldWith(1, Value().items, StockCaches(impl.items, owned), WalkOf(deterministic, walk)), EncodeRecs(unknown));
      out := out + EncodeRecs(unknown);
    }

    /** The entries are only looked at under their has-bit, and only sorted when there are two. */
    method WriteEntries(target: Bytes, deterministic: bool, walk: seq<Bytes>) returns (out: Bytes)
      requires Valid() && Enumerates(walk, impl.items.Keys)
      ensures Value().items == StockValues(impl.items, owned)
      ensures Listed(StockValues(impl.items, owned), WalkOf(deterministic, walk))
      ensures StockCaches(impl.items, owned).Keys == StockValues(impl.items, owned).Keys
      ensures out == target + StockFieldWith(1, StockValues(impl.items, owned), StockCaches(impl.items, owned), WalkOf(deterministic, walk))
    {
      hide UnknownOk, StockLevel.Valid, StockLevel.Value, StockOwned, StockValues, StockCaches, Enumerates, StockLevelRec.Ok;
      hide StockEntryWith, SortKeys;
      StockSeen(impl.items, owned);
      WalkEnumerates(deterministic, walk, impl.items.Keys);
      KeysListed(WalkOf(deterministic, walk), impl.items.Keys);
      KeysListed(walk, impl.items.Keys);
      out := target;
      if 0 in impl.hasBits {
        if |impl.items| != 0 {
          if deterministic && |impl.items| > 1 {
            out := WriteStocks(out, impl.items, owned, SortKeys(walk));
          } else {
            out := WriteStocks(out, impl.items, owned, walk);
            if deterministic { FewKeysSorted(walk, impl.items.Keys); }
          }
        }
      }
    }

    /**
     Both passes, over a map that may be walked in another order each time.  The
     bytes always parse back to this message.
     */
    method SerializeToBytes(deterministic: bool, walk: seq<Bytes>, walk': seq<Bytes>) returns (result: Option<Bytes>)
      requires Valid() && Enumerates(walk, impl.items.Keys) && Enumerates(walk', impl.items.Keys)
      modifies this`cachedSize, owned
      ensures Valid() && Value() == old(Value()) && ValidSchema(AVAILABILITY_RESPONSE)
      ensures Listed(Value().items, walk) && (result.Some? <==> |Value().Encoded(walk)| < TWO_TO_31)
      ensures result.Some? ==> |result.value| == cachedSize
      ensures result.Some? ==> result.value == AvailabilityBytes(Value(), deterministic, walk')
      ensures result.Some? ==> Parse(AVAILABILITY_RESPONSE, result.value) == Some(Value().ToMsg())
    {
      hide UnknownOk, StockLevel.Valid, StockLevel.Value, StockOwned, StockValues, StockCaches, StockSized;
      hide AvailabilityRec.Encoded, AvailabilityWith, StockSizesRight, Parse;
      AvailabilityValid();
      StockValuesAt(impl.items, owned);
      SortKeysEnumerates(walk', impl.items.Keys);
      var keys := if deterministic then SortKeys(walk') else walk';
      AvailabilitySizeSame(Value(), walk, keys);
      var size := ByteSizeLong(walk);
      if size >= TWO_TO_31 { return None; }
      var out := InternalSerialize([], deterministic, walk');
      AvailabilityRoundTrip(Value(), keys);
      assert out == Value().Encoded(keys);
      result := Some(out);
    }
  }

  // -------------------------------------------------- writing stock entries

  /** The keys are keys of a map of valid levels. */
  predicate Listed(stock: map<Bytes, StockLevelRec>, keys: seq<Bytes>) {
    StockOk(stock) && forall i :: 0 <= i < |keys| ==> keys[i] in stock
  }

  ghost predicate LevelSized(level: StockLevel)
    requires level.Valid()
    reads level
  {
    level.cachedSize == |level.Value().Encoded()|
  }

  /** Every level has its true size cached. */
  ghost predicate StockSized(items: map<Bytes, StockLevel>, owned: set<object>)
    requires StockOwned(items, owned)
    reads owned
  {
    forall key :: key in items ==> items[key] in owned && LevelSized(items[key])
  }

  /** The levels of the first `k` keys have their true sizes cached. */
  ghost predicate SizedUpTo(items: map<Bytes, StockLevel>, owned: set<object>, walk: seq<Bytes>, k: nat)
    requires StockOwned(items, owned) && k <= |walk|
    reads owned
  {
    forall i :: 0 <= i < k ==> walk[i] in items && items[walk[i]] in owned && LevelSized(items[walk[i]])
  }

  lemma NoneSized(items: map<Bytes, StockLevel>, owned: set<object>, walk: seq<Bytes>)
    requires StockOwned(items, owned)
    ensures SizedUpTo(items, owned, walk, 0)
  {
  }

  lemma AllSized(items: map<Bytes, StockLevel>, owned: set<object>, walk: seq<Bytes>)
    requires StockOwned(items, owned) && Enumerates(walk, items.Keys) && SizedUpTo(items, owned, walk, |walk|)
    ensures StockSized(items, owned)
  {
    hide StockLevel.Valid, LevelSized;
    forall key | key in items
      ensures items[key] in owned && items[key].Valid() && LevelSized(items[key])
    {
      assert key in walk;
    }
  }

  /** The length of the entries of the first `k` keys. */
  function StockSoFar(stock: map<Bytes, StockLevelRec>, keys: seq<Bytes>, k: nat): nat
    requires Listed(stock, keys) && k <= |keys|
  {
    |StockField(1, stock, keys[..k])|
  }

  lemma StockStarts(stock: map<Bytes, StockLevelRec>, keys: seq<Bytes>)
    requires Listed(stock, keys)
    ensures StockSoFar(stock, keys, 0) == 0
  {
  }

  lemma StockEnds(stock: map<Bytes, StockLevelRec>, keys: seq<Bytes>)
    requires Listed(stock, keys)
    ensures StockSoFar(stock, keys, |keys|) == |StockField(1, stock, keys)|
  {
    assert keys[..|keys|] == keys;
  }

  /** The bytes of the entries of the first `k` keys, from any cached sizes. */
  function StockWritten(stock: map<Bytes, StockLevelRec>, sizes: map<Bytes, nat>, keys: seq<Bytes>, k: nat): Bytes
    requires Listed(stock, keys) && sizes.Keys == stock.Keys && k <= |keys|
  {
    StockFieldWith(1, stock, sizes, keys[..k])
  }

  lemma StockWrittenStarts(stock: map<Bytes, StockLevelRec>, sizes: map<Bytes, nat>, keys: seq<Bytes>)
    requires Listed(stock, keys) && sizes.Keys == stock.Keys
    ensures StockWritten(stock, sizes, keys, 0) == []
    ensures StockWritten(stock, sizes, keys, |keys|) == StockFieldWith(1, stock, sizes, keys)
  {
    assert keys[..|keys|] == keys;
  }

  lemma StockWrittenNext(stock: map<Bytes, StockLevelRec>, sizes: map<Bytes, nat>, keys: seq<Bytes>, k: nat)
    requires Listed(stock, keys) && sizes.Keys == stock.Keys && k < |keys|
    ensures StockWritten(stock, sizes, keys, k + 1)
         == StockWritten(stock, sizes, keys, k) + StockEntryWith(1, keys[k], stock[keys[k]], sizes[keys[k]])
  {
    hide StockFieldWith, StockEntryWith;
    assert keys[..k + 1] == keys[..k] + [keys[k]];
    StockFieldWithAppend(1, stock, sizes, keys[..k], keys[k]);
  }

  /** After the first pass every cached size is right. */
  lemma StockSizedIsRight(items: map<Bytes, StockLevel>, owned: set<object>, keys: seq<Bytes>)
    requires StockOwned(items, owned) && StockSized(items, owned) && forall i :: 0 <= i < |keys| ==> keys[i] in items
    ensures Listed(StockValues(items, owned), keys) && StockCaches(items, owned).Keys == StockValues(items, owned).Keys
    ensures StockSizesRight(StockValues(items, owned), StockCaches(items, owned), keys)
  {
    hide UnknownOk, StockLevel.Valid, StockLevel.Value, StockValues, StockCaches;
    StockValuesAt(items, owned);
    StockCachesAt(items, owned);
    forall i | 0 <= i < |keys| ensures StockCaches(items, owned)[keys[i]] == |StockValues(items, owned)[keys[i]].Encoded()| {
      assert LevelSized(items[keys[i]]);
    }
  }

  lemma {:induction false} StockFieldWithAppend(num: nat, stock: map<Bytes, StockLevelRec>, sizes: map<Bytes, nat>,
                                                keys: seq<Bytes>, key: Bytes)
    requires Listed(stock, keys) && sizes.Keys == stock.Keys && key in stock
    ensures StockFieldWith(num, stock, sizes, keys + [key])
      == StockFieldWith(num, stock, sizes, keys) + StockEntryWith(num, key, stock[key], sizes[key])
  {
    hide StockEntryWith;
    if |keys| == 0 {
      assert [key][1..] == [] && keys + [key] == [key];
    } else {
      var rest := keys[1..];
      assert (keys + [key])[1..] == rest + [key];
      StockFieldWithAppend(num, stock, sizes, rest, key);
      Assoc(StockEntryWith(num, keys[0], stock[keys[0]], sizes[keys[0]]), StockFieldWith(num, stock, sizes, rest),
            StockEntryWith(num, key, stock[key], sizes[key]));
    }
  }

  lemma {:induction false} StockFieldAppend(num: nat, stock: map<Bytes, StockLevelRec>, keys: seq<Bytes>, key: Bytes)
    requires Listed(stock, keys) && key in stock
    ensures StockField(num, stock, keys + [key]) == StockField(num, stock, keys) + StockEntry(num, key, stock[key])
  {
    if keys == [] {
      assert [key][1..] == [];
    } else {
      assert (keys + [key])[1..] == keys[1..] + [key];
      StockFieldAppend(num, stock, keys[1..], key);
    }
  }

  lemma StockEntrySize(key: Bytes, level: StockLevelRec)
    requires level.Ok()
    ensures var n := |level.Encoded()|;
            var inner := 2 + VarintSize(|key|) + |key| + VarintSize(n) + n;
            |StockEntry(1, key, level)| == 1 + VarintSize(inner) + inner
  {
    hide StockLevelRec.Encoded;
    RecLayout([], 1, key, 0, 0);
    RecLayout([], 2, level.Encoded(), 0, 0);
    RecLayout([], 1, EncodeRec(Len(1, key)) + EncodeRec(Len(2, level.Encoded())), 0, 0);
  }

  /** The field grows by one entry with every key. */
  lemma StockFieldNext(stock: map<Bytes, StockLevelRec>, keys: seq<Bytes>, k: nat)
    requires Listed(stock, keys) && k < |keys|
    ensures var n := |stock[keys[k]].Encoded()|;
            var inner := 2 + VarintSize(|keys[k]|) + |keys[k]| + VarintSize(n) + n;
            StockSoFar(stock, keys, k + 1) == StockSoFar(stock, keys, k) + 1 + VarintSize(inner) + inner
  {
    hide StockField, VarintSize, StockLevelRec.Encoded;
    StockEntrySize(keys[k], stock[keys[k]]);
    StockFieldAppend(1, stock, keys[..k], keys[k]);
    assert keys[..k + 1] == keys[..k] + [keys[k]];
  }

  // --------------------------------------------------------- any walk order

  lemma AvailabilitySizeSame(v: AvailabilityRec, walk: seq<Bytes>, walk': seq<Bytes>)
    requires v.Ok() && Enumerates(walk, v.items.Keys) && Enumerates(walk', v.items.Keys)
    ensures |v.Encoded(walk)| == |v.Encoded(walk')|
  {
    var all := v.items.Keys;
    WalkingValid(walk, all);
    WalkingValid(walk', all);
    AvailabilityEncoding(v, Walking(walk, all));
    AvailabilityEncoding(v, Walking(walk', all));
    OrderKeepsSize(AVAILABILITY_RESPONSE, v.ToMsg(), Walking(walk, all), Walking(walk', all));
  }

  lemma AvailabilityRoundTrip(v: AvailabilityRec, walk: seq<Bytes>)
    requires v.Ok() && Enumerates(walk, v.items.Keys) && |v.Encoded(walk)| < TWO_TO_31
    ensures ValidSchema(AVAILABILITY_RESPONSE)
    ensures Parse(AVAILABILITY_RESPONSE, v.Encoded(walk)) == Some(v.ToMsg())
  {
    AvailabilityValid();
    WalkingValid(walk, v.items.Keys);
    AvailabilityEncoding(v, Walking(walk, v.items.Keys));
    ParseSerializeRoundTrip(AVAILABILITY_RESPONSE, v.ToMsg(), Walking(walk, v.items.Keys));
  }

  /** The order in which the second pass writes the entries. */
  function WalkOf(deterministic: bool, walk: seq<Bytes>): seq<Bytes> {
    if deterministic then SortKeys(walk) else walk
  }

  lemma WalkEnumerates(deterministic: bool, walk: seq<Bytes>, keys: set<Bytes>)
    requires Enumerates(walk, keys)
    ensures Enumerates(WalkOf(deterministic, walk), keys)
  {
    SortKeysEnumerates(walk, keys);
  }

  /** What the second pass writes, walking the map in the order of `walk`. */
  ghost function AvailabilityBytes(v: AvailabilityRec, deterministic: bool, walk: seq<Bytes>): Bytes
    requires v.Ok() && Enumerates(walk, v.items.Keys)
  {
    SortKeysEnumerates(walk, v.items.Keys);
    v.Encoded(WalkOf(deterministic, walk))
  }

  lemma AvailabilityDeterministic(v: AvailabilityRec, walk: seq<Bytes>, walk': seq<Bytes>)
    requires v.Ok() && Enumerates(walk, v.items.Keys) && Enumerates(walk', v.items.Keys)
    ensures AvailabilityBytes(v, true, walk) == AvailabilityBytes(v, true, walk')
  {
    SortKeysCanonical(walk, walk', v.items.Keys);
  }

  /**
   In deterministic mode any accepted input is normalised to the bytes: parsing
   what was written and writing it again gives these bytes, however the two maps
   are walked.
   */
  lemma AvailabilityNormalised(x: Bytes, walk: seq<Bytes>, walk': seq<Bytes>)
    requires ValidSchema(AVAILABILITY_RESPONSE) && Parse(AVAILABILITY_RESPONSE, x).Some?
    requires Enumerates(walk, AvailabilityOf(Parse(AVAILABILITY_RESPONSE, x).value).items.Keys)
    requires |AvailabilityBytes(AvailabilityOf(Parse(AVAILABILITY_RESPONSE, x).value), true, walk)| < TWO_TO_31
    ensures var y := AvailabilityBytes(AvailabilityOf(Parse(AVAILABILITY_RESPONSE, x).value), true, walk);
      && Parse(AVAILABILITY_RESPONSE, y) == Parse(AVAILABILITY_RESPONSE, x)
      && (Enumerates(walk', AvailabilityOf(Parse(AVAILABILITY_RESPONSE, y).value).items.Keys) ==>
            AvailabilityBytes(AvailabilityOf(Parse(AVAILABILITY_RESPONSE, y).value), true, walk') == y)
  {
    var v := AvailabilityOf(Parse(AVAILABILITY_RESPONSE, x).value);
    hide UnknownOk, Parse, IsMsg;
    SortKeysEnumerates(walk, v.items.Keys);
    AvailabilityRoundTrip(v, SortKeys(walk));
    if Enumerates(walk', v.items.Keys) {
      AvailabilityDeterministic(v, walk, walk');
    }
  }
}
