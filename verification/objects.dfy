/**
 The message objects of the generated code: mutable, with has-bits, sub-messages
 that are kept allocated when cleared, and a cached size that one pass fills for
 the next.  `Valid` is their representation invariant and `Value` the record
 they stand for.
 */
module Objects {
  import opened Wire
  import opened Message
  import opened Inventory

  /** A string field: the shared empty default, or a string the message owns. */
  datatype ArenaString = Shared | Owned(s: Bytes) {
    function Get(): Bytes { if Shared? then [] else s }
  }

  /**
   A has-bits word, as the set of the bits that are set: the mask 0x08 is bit 3.
   The masks of the batched checks are all runs of bits.
   */
  type HasBits = set<nat>

  predicate AnyOf(bits: HasBits, from: nat, to: nat) {
    exists i :: from <= i < to && i in bits
  }

  /** A set has-bit means the string is owned, a clear one that it reads as empty. */
  predicate StringOk(bits: HasBits, k: nat, str: ArenaString) {
    if k in bits then str.Owned? else str.Get() == []
  }

  /**
   Merging a string field.  When the source has it, a non-empty string is taken
   over, and an empty one still makes sure that the target owns its string.
   */
  function MergeString(bits: HasBits, fromBits: HasBits, k: nat, to: ArenaString, from: ArenaString): (str: ArenaString)
    requires StringOk(bits, k, to) && StringOk(fromBits, k, from)
    ensures StringOk(bits + fromBits, k, str) && str.Get() == PickStr(to.Get(), from.Get())
  {
    if k in fromBits then
      if |from.Get()| != 0 then Owned(from.Get()) else if to.Shared? then Owned([]) else to
    else to
  }

  /** A clear has-bit means the number is zero. */
  predicate NumberOk(bits: HasBits, k: nat, n: int) { k in bits || n == 0 }

  function MergeNumber(bits: HasBits, fromBits: HasBits, k: nat, to: int, from: int): (n: int)
    requires NumberOk(bits, k, to) && NumberOk(fromBits, k, from)
    ensures NumberOk(bits + fromBits, k, n) && n == PickNum(to, from)
  {
    if k in fromBits && from != 0 then from else to
  }

  /** Emptying a string field keeps the string it owns. */
  function ClearString(bits: HasBits, k: nat, str: ArenaString): (cleared: ArenaString)
    requires StringOk(bits, k, str)
    ensures StringOk({}, k, cleared) && cleared.Get() == []
  {
    if k in bits then Owned([]) else str
  }

  // ---------------------------------------------------- writing single fields

  lemma RecLayout(target: Bytes, num: nat, s: Bytes, v: nat, d: nat)
    ensures target + EncodeTag(num, WT_LEN) + EncodeVarint(|s|) + s == target + EncodeRec(Len(num, s))
    ensures target + EncodeTag(num, WT_VARINT) + EncodeVarint(v) == target + EncodeRec(Varint(num, v))
    ensures target + EncodeTag(num, WT_FIXED64) + EncodeFixed(d, 8) == target + EncodeRec(Fixed64(num, d))
    ensures num < 16 ==> |EncodeRec(Len(num, s))| == 1 + VarintSize(|s|) + |s|
    ensures num < 16 ==> |EncodeRec(Varint(num, v))| == 1 + VarintSize(v)
    ensures num < 16 ==> |EncodeRec(Fixed64(num, d))| == 9
  {
  }

  /** Appends a string field, if its has-bit is set and it is not empty. */
  function WriteString(target: Bytes, bits: HasBits, k: nat, num: nat, str: ArenaString): (out: Bytes)
    requires StringOk(bits, k, str)
    ensures out == target + StrField(num, str.Get())
  {
    RecLayout(target, num, str.Get(), 0, 0);
    if k in bits && |str.Get()| != 0 then
      target + EncodeTag(num, WT_LEN) + EncodeVarint(|str.Get()|) + str.Get()
    else target
  }

  function WriteInt(target: Bytes, bits: HasBits, k: nat, num: nat, i: int): (out: Bytes)
    requires NumberOk(bits, k, i) && -TWO_TO_63 <= i < TWO_TO_63
    ensures out == target + IntField(num, i)
  {
    RecLayout(target, num, [], ToVarint(i), 0);
    if k in bits && i != 0 then target + EncodeTag(num, WT_VARINT) + EncodeVarint(ToVarint(i)) else target
  }

  function WriteDouble(target: Bytes, bits: HasBits, k: nat, num: nat, d: nat): (out: Bytes)
    requires NumberOk(bits, k, d)
    ensures out == target + DoubleField(num, d)
  {
    RecLayout(target, num, [], 0, d);
    if k in bits && d != 0 then target + EncodeTag(num, WT_FIXED64) + EncodeFixed(d, 8) else target
  }

  /** The size `WriteString` adds; tags of fields below 16 take one byte. */
  function StringSize(bits: HasBits, k: nat, num: nat, str: ArenaString): (size: nat)
    requires StringOk(bits, k, str) && num < 16
    ensures size == |StrField(num, str.Get())|
  {
    RecLayout([], num, str.Get(), 0, 0);
    if k in bits && |str.Get()| != 0 then 1 + VarintSize(|str.Get()|) + |str.Get()| else 0
  }

  function IntSize(bits: HasBits, k: nat, num: nat, i: int): (size: nat)
    requires NumberOk(bits, k, i) && -TWO_TO_63 <= i < TWO_TO_63 && num < 16
    ensures size == |IntField(num, i)|
  {
    RecLayout([], num, [], ToVarint(i), 0);
    if k in bits && i != 0 then 1 + VarintSize(ToVarint(i)) else 0
  }

  function DoubleSize(bits: HasBits, k: nat, num: nat, d: nat): (size: nat)
    requires NumberOk(bits, k, d) && num < 16
    ensures size == |DoubleField(num, d)|
  {
    RecLayout([], num, [], 0, d);
    if k in bits && d != 0 then 9 else 0
  }

  // -------------------------------------------------------------- Timestamp

  /** google.protobuf.Timestamp */
  class Timestamp {
    var hasBits: HasBits
    var cachedSize: nat
    var seconds: int
    var nanos: int
    var unknown: seq<Rec>

    ghost predicate Valid()
      reads this
    {
      && NumberOk(hasBits, 0, seconds)
      && NumberOk(hasBits, 1, nanos)
      && Value().Ok()
    }

    ghost function Value(): TimestampRec
      reads this
    {
      TimestampRec(seconds, nanos, unknown)
    }

    constructor ()
      ensures Valid() && Value() == NO_TIMESTAMP
    {
      hasBits, cachedSize, seconds, nanos, unknown := {}, 0, 0, 0, [];
    }

    constructor CopyOf(from: Timestamp)
      requires from.Valid()
      ensures Valid() && Value() == from.Value()
      ensures hasBits == from.hasBits
    {
      hasBits, cachedSize, seconds, nanos, unknown := from.hasBits, 0, from.seconds, from.nanos, from.unknown;
    }

    method Clear()
      requires Valid()
      modifies this
      ensures Valid() && Value() == NO_TIMESTAMP
    {
      if AnyOf(hasBits, 0, 2) {
        seconds, nanos := 0, 0;
      }
      hasBits := {};
      unknown := [];
    }

    method SetSeconds(value: int)
      requires Valid() && -TWO_TO_63 <= value < TWO_TO_63
      modifies this
      ensures Valid() && Value() == old(Value()).(seconds := value)
      ensures cachedSize == old(cachedSize)
    {
      seconds := value;
      hasBits := hasBits + {0};
    }

    method MergeFrom(from: Timestamp)
      requires Valid() && from.Valid() && from != this
      modifies this
      ensures Valid() && Value() == old(Value()).Merged(from.Value())
    {
      var cached := from.hasBits;
      if AnyOf(cached, 0, 2) {
        if 0 in cached {
          if from.seconds != 0 { seconds := from.seconds; }
        }
        if 1 in cached {
          if from.nanos != 0 { nanos := from.nanos; }
        }
      }
      hasBits := hasBits + cached;
      unknown := unknown + from.unknown;
    }

    method ByteSizeLong() returns (size: nat)
      requires Valid()
      modifies this`cachedSize
      ensures Valid() && Value() == old(Value())
      ensures size == cachedSize == |Value().Encoded()|
    {
      size := IntSize(hasBits, 0, 1, seconds) + IntSize(hasBits, 1, 2, nanos);
      RecsSizeIsLength(unknown);
      size := size + RecsSize(unknown);
      cachedSize := size;
    }

    method InternalSerialize(target: Bytes) returns (out: Bytes)
      requires Valid()
      ensures out == target + Value().Encoded()
    {
      out := WriteInt(target, hasBits, 0, 1, seconds);
      out := WriteInt(out, hasBits, 1, 2, nanos);
      out := out + EncodeRecs(unknown);
      assert out == target + (IntField(1, seconds) + IntField(2, nanos) + EncodeRecs(unknown));
    }
  }

  // ------------------------------------------------------------ RestockItem

  /** A set has-bit means the sub-message exists; a clear one that it is absent or cleared. */
  ghost predicate DateOk(bits: HasBits, k: nat, date: Timestamp?)
    reads date
  {
    if date == null then k !in bits else date.Valid() && (k !in bits ==> date.Value() == NO_TIMESTAMP)
  }

  ghost function DateValue(bits: HasBits, k: nat, date: Timestamp?): Option<TimestampRec>
    requires k in bits ==> date != null
    reads date
  {
    if k in bits then Some(date.Value()) else None
  }

  /** Merging a sub-message that is present in the source: it is copied, or merged into the one there is. */
  method MergeDate(to: Timestamp?, from: Timestamp) returns (date: Timestamp)
    requires from.Valid() && to != from
    requires to != null ==> to.Valid()
    modifies to
    ensures date.Valid()
    ensures if to == null then fresh(date) && date.Value() == from.Value()
            else date == to && date.Value() == old(to.Value()).Merged(from.Value())
    ensures to != null && old(to.Value()) == NO_TIMESTAMP ==> date.Value() == from.Value()
  {
    assert [] + from.unknown == from.unknown;
    if to == null {
      date := new Timestamp.CopyOf(from);
    } else {
      to.MergeFrom(from);
      date := to;
    }
  }

  /** The fields of a RestockItem, `_impl_` in the generated code; the order is that of the has-bits. */
  datatype RestockItemImpl = RestockItemImpl(
    hasBits: HasBits, sku: ArenaString, name: ArenaString, aisleType: ArenaString,
    mfdDate: Timestamp?, expiryDate: Timestamp?, unitCost: nat, quantity: int)

  predicate ScalarsOk(i: RestockItemImpl) {
    && StringOk(i.hasBits, 0, i.sku)
    && StringOk(i.hasBits, 1, i.name)
    && StringOk(i.hasBits, 2, i.aisleType)
    && NumberOk(i.hasBits, 5, i.unitCost)
    && NumberOk(i.hasBits, 6, i.quantity)
  }

  ghost predicate DatesOk(i: RestockItemImpl)
    reads i.mfdDate, i.expiryDate
  {
    && DateOk(i.hasBits, 3, i.mfdDate)
    && DateOk(i.hasBits, 4, i.expiryDate)
    && (i.mfdDate != null ==> i.mfdDate != i.expiryDate)
  }

  lemma DatesThere(i: RestockItemImpl)
    requires DatesOk(i)
    ensures (3 in i.hasBits ==> i.mfdDate != null) && (4 in i.hasBits ==> i.expiryDate != null)
  {
  }

  /** No sub-message of `i` is one of `j`. */
  predicate DatesApart(i: RestockItemImpl, j: RestockItemImpl) {
    && (i.mfdDate != null ==> i.mfdDate != j.mfdDate && i.mfdDate != j.expiryDate)
    && (i.expiryDate != null ==> i.expiryDate != j.mfdDate && i.expiryDate != j.expiryDate)
  }

  class RestockItem {
    var impl: RestockItemImpl
    var cachedSize: nat
    var unknown: seq<Rec>

    ghost predicate Valid()
      reads this, impl.mfdDate, impl.expiryDate
    {
      && ScalarsOk(impl)
      && DatesOk(impl)
      && Value().Ok()
    }

    ghost function Value(): RestockItemRec
      requires 3 in impl.hasBits ==> impl.mfdDate != null
      requires 4 in impl.hasBits ==> impl.expiryDate != null
      reads this, impl.mfdDate, impl.expiryDate
    {
      RestockItemRec(impl.sku.Get(), impl.name.Get(), impl.aisleType.Get(), impl.quantity, impl.unitCost,
                     DateValue(impl.hasBits, 3, impl.mfdDate), DateValue(impl.hasBits, 4, impl.expiryDate), unknown)
    }

    constructor ()
      ensures Valid() && Value() == NO_ITEM
      ensures impl.mfdDate == null && impl.expiryDate == null
    {
      impl := RestockItemImpl({}, Shared, Shared, Shared, null, null, 0, 0);
      cachedSize, unknown := 0, [];
    }

    constructor CopyOf(from: RestockItem)
      requires from.Valid()
      ensures Valid() && Value() == from.Value()
      ensures impl.mfdDate != null ==> fresh(impl.mfdDate)
      ensures impl.expiryDate != null ==> fresh(impl.expiryDate)
      ensures impl.hasBits == from.impl.hasBits
    {
      hide UnknownOk;
      unknown, cachedSize := from.unknown, 0;
      impl := from.impl.(mfdDate := null, expiryDate := null);
      new;
      var mfdDate: Timestamp?, expiryDate: Timestamp? := null, null;
      if 3 in impl.hasBits { mfdDate := new Timestamp.CopyOf(from.impl.mfdDate); }
      if 4 in impl.hasBits { expiryDate := new Timestamp.CopyOf(from.impl.expiryDate); }
      impl := impl.(mfdDate := mfdDate, expiryDate := expiryDate);
    }

    method Clear()
      requires Valid()
      modifies this, impl.mfdDate, impl.expiryDate
      ensures Valid() && Value() == NO_ITEM
      ensures impl.mfdDate == old(impl.mfdDate) && impl.expiryDate == old(impl.expiryDate)
      ensures impl.hasBits == {}
    {
      hide UnknownOk;
      NoUnknown(RESTOCK_ITEM);
      var i := impl;
      ClearDates(i);
      impl := i.(
        hasBits := {},
        sku := ClearString(i.hasBits, 0, i.sku),
        name := ClearString(i.hasBits, 1, i.name),
        aisleType := ClearString(i.hasBits, 2, i.aisleType),
        unitCost := if AnyOf(i.hasBits, 5, 7) then 0 else i.unitCost,
        quantity := if AnyOf(i.hasBits, 5, 7) then 0 else i.quantity);
      unknown := [];
    }

    /** Clears the sub-messages that are present; they stay allocated. */
    static method ClearDates(i: RestockItemImpl)
      requires DatesOk(i)
      modifies i.mfdDate, i.expiryDate
      ensures DatesOk(i.(hasBits := {}))
    {
      if AnyOf(i.hasBits, 0, 5) {
        if 3 in i.hasBits { i.mfdDate.Clear(); }
        if 4 in i.hasBits { i.expiryDate.Clear(); }
      }
    }

    method MergeFrom(from: RestockItem)
      requires Valid() && from.Valid() && from != this && DatesApart(impl, from.impl)
      modifies this, impl.mfdDate, impl.expiryDate
      ensures Valid()
      ensures impl.mfdDate != old(impl.mfdDate) ==> fresh(impl.mfdDate)
      ensures impl.expiryDate != old(impl.expiryDate) ==> fresh(impl.expiryDate)
      ensures Value() == old(Value()).Merged(from.Value())
      ensures impl.hasBits == old(impl.hasBits) + from.impl.hasBits
    {
      hide UnknownOk, PickStr, PickNum, AnyOf, ScalarsOk, RestockItemRec.Ok, DateMerged, TimestampRec.Ok, DateOk, DateValue;
      DatesThere(impl);
      DatesThere(from.impl);
      RestockItemMergedOk(Value(), from.Value());
      var i, j := impl, from.impl;
      var mfdDate, expiryDate := MergeDates(i, j);
      impl := MergeScalars(i, j, mfdDate, expiryDate);
      unknown := unknown + from.unknown;
    }

    /** The fields that are not sub-messages, and the has-bits. */
    static function MergeScalars(i: RestockItemImpl, j: RestockItemImpl, mfdDate: Timestamp?, expiryDate: Timestamp?): (to: RestockItemImpl)
      requires ScalarsOk(i) && ScalarsOk(j)
      ensures ScalarsOk(to) && to.hasBits == i.hasBits + j.hasBits && to.mfdDate == mfdDate && to.expiryDate == expiryDate
      ensures to.sku.Get() == PickStr(i.sku.Get(), j.sku.Get()) && to.name.Get() == PickStr(i.name.Get(), j.name.Get())
      ensures to.aisleType.Get() == PickStr(i.aisleType.Get(), j.aisleType.Get())
      ensures to.unitCost == PickNum(i.unitCost, j.unitCost) && to.quantity == PickNum(i.quantity, j.quantity)
    {
      hide StringOk, MergeString, NumberOk, MergeNumber, PickStr;
      i.(hasBits := i.hasBits + j.hasBits, mfdDate := mfdDate, expiryDate := expiryDate,
         sku := MergeString(i.hasBits, j.hasBits, 0, i.sku, j.sku),
         name := MergeString(i.hasBits, j.hasBits, 1, i.name, j.name),
         aisleType := MergeString(i.hasBits, j.hasBits, 2, i.aisleType, j.aisleType),
         unitCost := MergeNumber(i.hasBits, j.hasBits, 5, i.unitCost, j.unitCost),
         quantity := MergeNumber(i.hasBits, j.hasBits, 6, i.quantity, j.quantity))
    }

    static method MergeDates(i: RestockItemImpl, j: RestockItemImpl) returns (mfdDate: Timestamp?, expiryDate: Timestamp?)
      requires DatesOk(i) && DatesOk(j) && DatesApart(i, j)
      modifies i.mfdDate, i.expiryDate
      ensures DateOk(i.hasBits + j.hasBits, 3, mfdDate) && DateOk(i.hasBits + j.hasBits, 4, expiryDate)
      ensures mfdDate != null ==> mfdDate != expiryDate
      ensures mfdDate != i.mfdDate ==> fresh(mfdDate)
      ensures expiryDate != i.expiryDate ==> fresh(expiryDate)
      ensures DateValue(i.hasBits + j.hasBits, 3, mfdDate)
           == DateMerged(old(DateValue(i.hasBits, 3, i.mfdDate)), DateValue(j.hasBits, 3, j.mfdDate))
      ensures DateValue(i.hasBits + j.hasBits, 4, expiryDate)
           == DateMerged(old(DateValue(i.hasBits, 4, i.expiryDate)), DateValue(j.hasBits, 4, j.expiryDate))
    {
      hide UnknownOk;
      mfdDate, expiryDate := i.mfdDate, i.expiryDate;
      if AnyOf(j.hasBits, 0, 7) {
        if 3 in j.hasBits { mfdDate := MergeDate(mfdDate, j.mfdDate); }
        if 4 in j.hasBits { expiryDate := MergeDate(expiryDate, j.expiryDate); }
      }
    }

    method CopyFrom(from: RestockItem)
      requires Valid() && from.Valid() && (from == this || DatesApart(impl, from.impl))
      modifies this, impl.mfdDate, impl.expiryDate
      ensures Valid()
      ensures impl.mfdDate != old(impl.mfdDate) ==> fresh(impl.mfdDate)
      ensures impl.expiryDate != old(impl.expiryDate) ==> fresh(impl.expiryDate)
      ensures Value() == old(from.Value())
      ensures impl.hasBits == old(from.impl.hasBits)
    {
      hide StringOk, NumberOk, TimestampRec.Ok, UnknownOk;
      if from == this { return; }
      ghost var b := from.Value();
      Clear();
      MergeFrom(from);
      assert [] + b.unknown == b.unknown;
    }

    method InternalSwap(other: RestockItem)
      requires Valid() && other.Valid() && other != this
      modifies this, other
      ensures Valid() && other.Valid()
      ensures Value() == old(other.Value()) && other.Value() == old(Value())
      ensures impl == old(other.impl) && other.impl == old(impl)
    {
      hide UnknownOk;
      unknown, other.unknown := other.unknown, unknown;
      impl, other.impl := other.impl, impl;
    }

    // ----------------------------------------------------------- accessors

    method SetSku(value: Bytes)
      requires Valid()
      modifies this
      ensures Valid() && Value() == old(Value()).(sku := value)
      ensures impl.mfdDate == old(impl.mfdDate) && impl.expiryDate == old(impl.expiryDate)
      ensures impl.hasBits == old(impl.hasBits) + {0}
    {
      hide UnknownOk;
      impl := impl.(hasBits := impl.hasBits + {0}, sku := Owned(value));
    }

    method SetName(value: Bytes)
      requires Valid()
      modifies this
      ensures Valid() && Value() == old(Value()).(name := value)
      ensures impl.mfdDate == old(impl.mfdDate) && impl.expiryDate == old(impl.expiryDate)
      ensures impl.hasBits == old(impl.hasBits) + {1}
    {
      hide UnknownOk;
      impl := impl.(hasBits := impl.hasBits + {1}, name := Owned(value));
    }

    method SetAisleType(value: Bytes)
      requires Valid()
      modifies this
      ensures Valid() && Value() == old(Value()).(aisleType := value)
      ensures impl.mfdDate == old(impl.mfdDate) && impl.expiryDate == old(impl.expiryDate)
      ensures impl.hasBits == old(impl.hasBits) + {2}
    {
      hide UnknownOk;
      impl := impl.(hasBits := impl.hasBits + {2}, aisleType := Owned(value));
    }

    method ClearSku()
      requires Valid()
      modifies this
      ensures Valid() && Value() == old(Value()).(sku := [])
      ensures impl.mfdDate == old(impl.mfdDate) && impl.expiryDate == old(impl.expiryDate)
      ensures impl.hasBits == old(impl.hasBits) - {0}
    {
      hide UnknownOk;
      impl := impl.(hasBits := impl.hasBits - {0}, sku := if impl.sku.Shared? then Shared else Owned([]));
    }

    /** Edits the string in place, through the pointer the accessor hands out. */
    method MutableSku(edit: Bytes -> Bytes)
      requires Valid()
      modifies this
      ensures Valid() && Value() == old(Value()).(sku := edit(old(Value()).sku))
      ensures impl.mfdDate == old(impl.mfdDate) && impl.expiryDate == old(impl.expiryDate)
      ensures impl.hasBits == old(impl.hasBits) + {0}
    {
      hide UnknownOk;
      impl := impl.(hasBits := impl.hasBits + {0}, sku := Owned(edit(impl.sku.Get())));
    }

    /** Gives the string away; there is none when the has-bit is clear. */
    method ReleaseSku() returns (released: Option<Bytes>)
      requires Valid()
      modifies this
      ensures Valid() && Value() == old(Value()).(sku := [])
      ensures released == if 0 in old(impl.hasBits) then Some(old(Value()).sku) else None
      ensures old(Value()).sku != [] ==> released == Some(old(Value()).sku)
      ensures impl.mfdDate == old(impl.mfdDate) && impl.expiryDate == old(impl.expiryDate)
      ensures impl.hasBits == old(impl.hasBits) - {0}
    {
      hide UnknownOk;
      if 0 !in impl.hasBits { return None; }
      released := Some(impl.sku.s);
      impl := impl.(hasBits := impl.hasBits - {0}, sku := Shared);
    }

    method SetAllocatedSku(value: Option<Bytes>)
      requires Valid()
      modifies this
      ensures Valid() && Value() == old(Value()).(sku := if value.Some? then value.value else [])
      ensures impl.mfdDate == old(impl.mfdDate) && impl.expiryDate == old(impl.expiryDate)
      ensures impl.hasBits == if value.Some? then old(impl.hasBits) + {0} else old(impl.hasBits) - {0}
    {
      hide UnknownOk;
      if value.Some? {
        impl := impl.(hasBits := impl.hasBits + {0}, sku := Owned(value.value));
      } else {
        impl := impl.(hasBits := impl.hasBits - {0}, sku := Shared);
      }
    }

    method SetQuantity(value: int)
      requires Valid() && -TWO_TO_31 <= value < TWO_TO_31
      modifies this
      ensures Valid() && Value() == old(Value()).(quantity := value)
      ensures impl.mfdDate == old(impl.mfdDate) && impl.expiryDate == old(impl.expiryDate)
      ensures impl.hasBits == old(impl.hasBits) + {6}
    {
      hide UnknownOk;
      impl := impl.(quantity := value, hasBits := impl.hasBits + {6});
    }

    method ClearQuantity()
      requires Valid()
      modifies this
      ensures Valid() && Value() == old(Value()).(quantity := 0)
      ensures impl.mfdDate == old(impl.mfdDate) && impl.expiryDate == old(impl.expiryDate)
      ensures impl.hasBits == old(impl.hasBits) - {6}
    {
      hide UnknownOk;
      impl := impl.(quantity := 0, hasBits := impl.hasBits - {6});
    }

    method SetUnitCost(bits: nat)
      requires Valid() && bits < TWO_TO_64
      modifies this
      ensures Valid() && Value() == old(Value()).(unitCost := bits)
      ensures impl.mfdDate == old(impl.mfdDate) && impl.expiryDate == old(impl.expiryDate)
      ensures impl.hasBits == old(impl.hasBits) + {5}
    {
      hide UnknownOk;
      impl := impl.(unitCost := bits, hasBits := impl.hasBits + {5});
    }

    /** Presence; the generated code lets the compiler assume the pointer is then set. */
    method HasMfdDate() returns (present: bool)
      requires Valid()
      ensures present == Value().mfdDate.Some?
      ensures present ==> impl.mfdDate != null
    {
      present := 3 in impl.hasBits;
    }

    /** Reads the sub-message; an absent one reads as the default, also when a cleared one is still allocated. */
    method GetMfdDate() returns (date: TimestampRec)
      requires Valid()
      ensures date == if Value().mfdDate.Some? then Value().mfdDate.value else NO_TIMESTAMP
    {
      hide UnknownOk;
      if impl.mfdDate != null {
        date := TimestampRec(impl.mfdDate.seconds, impl.mfdDate.nanos, impl.mfdDate.unknown);
      } else {
        date := NO_TIMESTAMP;
      }
    }

    method ClearMfdDate()
      requires Valid()
      modifies this, impl.mfdDate
      ensures Valid() && Value() == old(Value()).(mfdDate := None)
      ensures impl.mfdDate == old(impl.mfdDate) && impl.expiryDate == old(impl.expiryDate)
      ensures impl.hasBits == old(impl.hasBits) - {3}
    {
      hide UnknownOk;
      if impl.mfdDate != null { impl.mfdDate.Clear(); }
      impl := impl.(hasBits := impl.hasBits - {3});
    }

    /** Makes the sub-message present, reusing a cleared one, and hands out the pointer. */
    method MutableMfdDate() returns (date: Timestamp)
      requires Valid()
      modifies this
      ensures Valid() && date == impl.mfdDate
      ensures Value() == old(Value()).(mfdDate := Some(if old(Value()).mfdDate.Some? then old(Value()).mfdDate.value else NO_TIMESTAMP))
      ensures impl.expiryDate == old(impl.expiryDate)
      ensures if old(impl.mfdDate) == null then fresh(date) else date == old(impl.mfdDate)
      ensures impl.hasBits == old(impl.hasBits) + {3}
    {
      hide UnknownOk;
      var held := impl.mfdDate;
      if held == null {
        date := new Timestamp();
      } else {
        date := held;
      }
      impl := impl.(hasBits := impl.hasBits + {3}, mfdDate := date);
    }

    /** Gives away whatever is allocated: a cleared sub-message too, although it did not count as present. */
    method ReleaseMfdDate() returns (released: Timestamp?)
      requires Valid()
      modifies this
      ensures Valid() && Value() == old(Value()).(mfdDate := None)
      ensures impl.mfdDate == null && impl.expiryDate == old(impl.expiryDate)
      ensures released == old(impl.mfdDate)
      ensures released != null ==> released.Valid()
      ensures released != null ==> released.Value() == if old(Value()).mfdDate.Some? then old(Value()).mfdDate.value else NO_TIMESTAMP
      ensures impl.hasBits == old(impl.hasBits) - {3}
    {
      hide UnknownOk;
      released := impl.mfdDate;
      impl := impl.(hasBits := impl.hasBits - {3}, mfdDate := null);
    }

    method SetAllocatedMfdDate(value: Timestamp?)
      requires Valid()
      requires value != null ==> value.Valid() && value != impl.expiryDate
      modifies this
      ensures Valid() && Value() == old(Value()).(mfdDate := if value == null then None else Some(value.Value()))
      ensures impl.mfdDate == value && impl.expiryDate == old(impl.expiryDate)
      ensures impl.hasBits == if value != null then old(impl.hasBits) + {3} else old(impl.hasBits) - {3}
    {
      hide UnknownOk;
      if value != null {
        impl := impl.(hasBits := impl.hasBits + {3}, mfdDate := value);
      } else {
        impl := impl.(hasBits := impl.hasBits - {3}, mfdDate := value);
      }
    }

    // ------------------------------------------------------ the two passes

    /** Every sub-message that will be written has its true size cached. */
    ghost predicate DatesSized()
      requires Valid()
      reads this, impl.mfdDate, impl.expiryDate
    {
      && (3 in impl.hasBits ==> impl.mfdDate.cachedSize == |impl.mfdDate.Value().Encoded()|)
      && (4 in impl.hasBits ==> impl.expiryDate.cachedSize == |impl.expiryDate.Value().Encoded()|)
    }

    /** The first pass visits the fields in the order of their has-bits, sub-messages before scalars. */
    method ByteSizeLong() returns (size: nat)
      requires Valid()
      modifies this`cachedSize, impl.mfdDate, impl.expiryDate
      ensures Valid() && Value() == old(Value())
      ensures size == cachedSize == |Value().Encoded()|
      ensures DatesSized()
    {
      hide UnknownOk;
      var i := impl;
      var dates := DatesByteSize(i);
      size := StringSize(i.hasBits, 0, 1, i.sku) + StringSize(i.hasBits, 1, 2, i.name)
            + StringSize(i.hasBits, 2, 3, i.aisleType) + dates
            + DoubleSize(i.hasBits, 5, 5, i.unitCost) + IntSize(i.hasBits, 6, 4, i.quantity);
      RecsSizeIsLength(unknown);
      size := size + RecsSize(unknown);
      cachedSize := size;
    }

    static method DatesByteSize(i: RestockItemImpl) returns (size: nat)
      requires DatesOk(i)
      modifies i.mfdDate, i.expiryDate
      ensures DatesOk(i)
      ensures DateValue(i.hasBits, 3, i.mfdDate) == old(DateValue(i.hasBits, 3, i.mfdDate))
      ensures DateValue(i.hasBits, 4, i.expiryDate) == old(DateValue(i.hasBits, 4, i.expiryDate))
      ensures size == |DateField(6, DateValue(i.hasBits, 3, i.mfdDate))| + |DateField(7, DateValue(i.hasBits, 4, i.expiryDate))|
      ensures 3 in i.hasBits ==> i.mfdDate.cachedSize == |i.mfdDate.Value().Encoded()|
      ensures 4 in i.hasBits ==> i.expiryDate.cachedSize == |i.expiryDate.Value().Encoded()|
    {
      hide TimestampRec.Encoded, EncodeRec, VarintSize, TimestampRec.Ok, UnknownOk;
      size := 0;
      if 3 in i.hasBits {
        var n := i.mfdDate.ByteSizeLong();
        RecLayout([], 6, i.mfdDate.Value().Encoded(), 0, 0);
        size := size + 1 + VarintSize(n) + n;
      }
      if 4 in i.hasBits {
        var n := i.expiryDate.ByteSizeLong();
        RecLayout([], 7, i.expiryDate.Value().Encoded(), 0, 0);
        size := size + 1 + VarintSize(n) + n;
      }
    }

    static function WriteScalars(target: Bytes, i: RestockItemImpl): (out: Bytes)
      requires ScalarsOk(i) && -TWO_TO_31 <= i.quantity < TWO_TO_31
      ensures out == target + (StrField(1, i.sku.Get()) + StrField(2, i.name.Get()) + StrField(3, i.aisleType.Get())
                               + IntField(4, i.quantity) + DoubleField(5, i.unitCost))
    {
      var out1 := WriteString(target, i.hasBits, 0, 1, i.sku);
      var out2 := WriteString(out1, i.hasBits, 1, 2, i.name);
      var out3 := WriteString(out2, i.hasBits, 2, 3, i.aisleType);
      var strings := StrField(1, i.sku.Get()) + StrField(2, i.name.Get());
      Assoc(target, StrField(1, i.sku.Get()), StrField(2, i.name.Get()));
      Joined(target, strings, StrField(3, i.aisleType.Get()), IntField(4, i.quantity), DoubleField(5, i.unitCost));
      var out4 := WriteInt(out3, i.hasBits, 6, 4, i.quantity);
      WriteDouble(out4, i.hasBits, 5, 5, i.unitCost)
    }

    /** The second pass writes the fields in the order of their numbers, with length prefixes out of the cache. */
    method InternalSerialize(target: Bytes) returns (out: Bytes)
      requires Valid()
      ensures out == target + EncodedWith(Value(), CachedSizeOf(impl.mfdDate), CachedSizeOf(impl.expiryDate))
      ensures DatesSized() ==> out == target + Value().Encoded()
    {
      hide UnknownOk;
      var i := impl;
      ghost var v := Value();
      ghost var scalars := StrField(1, v.sku) + StrField(2, v.name) + StrField(3, v.aisleType)
                           + IntField(4, v.quantity) + DoubleField(5, v.unitCost);
      out := WriteScalars(target, i);
      out := WriteDate(out, i.hasBits, 3, 6, i.mfdDate);
      out := WriteDate(out, i.hasBits, 4, 7, i.expiryDate);
      out := out + EncodeRecs(unknown);
      ghost var mfdSize, expirySize := CachedSizeOf(i.mfdDate), CachedSizeOf(i.expiryDate);
      Joined(target, scalars, DateFieldWith(6, v.mfdDate, mfdSize), DateFieldWith(7, v.expiryDate, expirySize),
             EncodeRecs(unknown));
      CacheDecides(v, mfdSize, expirySize);
    }
  }

  function CachedSizeOf(date: Timestamp?): nat
    reads date
  {
    if date == null then 0 else date.cachedSize
  }

  /** Appends a sub-message, if its has-bit is set, behind a length prefix that is its cached size. */
  method WriteDate(target: Bytes, bits: HasBits, k: nat, num: nat, date: Timestamp?) returns (out: Bytes)
    requires DateOk(bits, k, date)
    ensures out == target + DateFieldWith(num, DateValue(bits, k, date), CachedSizeOf(date))
  {
    out := target;
    if k in bits {
      out := out + EncodeTag(num, WT_LEN) + EncodeVarint(date.cachedSize);
      out := date.InternalSerialize(out);
      assert out == target + (EncodeTag(num, WT_LEN) + EncodeVarint(date.cachedSize) + date.Value().Encoded());
    }
  }
}
