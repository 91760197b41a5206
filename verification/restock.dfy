/** RestockItemsOrderRequest: a message that owns a list of messages that own messages. */
module Restock {
  import opened Wire
  import opened Message
  import opened Codec
  import opened Inventory
  import opened Objects
  import opened CachedSizes
  import opened MapOrder
  import opened ParseTable
  import opened ItemParse

  ghost predicate ItemIn(item: RestockItem, owned: set<object>)
    reads owned
  {
    && item in owned
    && (item.impl.mfdDate != null ==> item.impl.mfdDate in owned)
    && (item.impl.expiryDate != null ==> item.impl.expiryDate in owned)
  }

  /** Valid items that live among `owned`, no two of them sharing an object. */
  ghost predicate ItemsOwned(items: seq<RestockItem>, owned: set<object>)
    reads owned
  {
    && (forall i :: 0 <= i < |items| ==> ItemIn(items[i], owned) && items[i].Valid())
    && (forall i, j :: 0 <= i < j < |items| ==> items[i] != items[j] && DatesApart(items[i].impl, items[j].impl))
  }

  ghost function ItemValues(items: seq<RestockItem>, owned: set<object>): (vs: seq<RestockItemRec>)
    requires ItemsOwned(items, owned)
    reads owned
    ensures |vs| == |items|
    ensures forall i :: 0 <= i < |items| ==> ItemIn(items[i], owned) && vs[i] == items[i].Value()
    ensures ItemsOk(vs)
  {
    hide UnknownOk;
    seq(|items|, i requires 0 <= i < |items| && ItemsOwned(items, owned) reads owned => items[i].Value())
  }

  lemma ItemsJoined(a: seq<RestockItem>, ownedA: set<object>, b: seq<RestockItem>, ownedB: set<object>)
    requires ItemsOwned(a, ownedA) && ItemsOwned(b, ownedB) && ownedA !! ownedB
    ensures ItemsOwned(a + b, ownedA + ownedB)
    ensures ItemValues(a + b, ownedA + ownedB) == ItemValues(a, ownedA) + ItemValues(b, ownedB)
  {
    hide UnknownOk, RestockItem.Valid, RestockItem.Value;
    assert ItemsOwned(a + b, ownedA + ownedB);
    assert ItemValues(a + b, ownedA + ownedB) == ItemValues(a, ownedA) + ItemValues(b, ownedB);
  }

  /** The objects of one item. */
  ghost function ItemRepr(item: RestockItem): set<object>
    reads item
  {
    {item} + (if item.impl.mfdDate == null then {} else {item.impl.mfdDate})
           + (if item.impl.expiryDate == null then {} else {item.impl.expiryDate})
  }

  lemma ReprIn(item: RestockItem, owned: set<object>)
    requires ItemIn(item, owned)
    ensures ItemRepr(item) <= owned
  {
  }

  lemma OneItem(item: RestockItem)
    requires item.Valid()
    ensures ItemsOwned([item], ItemRepr(item)) && ItemValues([item], ItemRepr(item)) == [item.Value()]
  {
    hide UnknownOk;
  }

  /** One item may have come to own more than is in `owned`; the others, with the values `vs`, are as they should. */
  ghost predicate OthersOwned(items: seq<RestockItem>, owned: set<object>, k: nat, vs: seq<RestockItemRec>)
    requires k < |items|
    reads items, owned
  {
    && |vs| == |items| && items[k] in owned
    && (forall i :: 0 <= i < |items| && i != k ==> ItemIn(items[i], owned) && items[i].Valid() && items[i].Value() == vs[i])
    && (forall i, j :: 0 <= i < j < |items| ==> items[i] != items[j] && DatesApart(items[i].impl, items[j].impl))
  }

  /** After an edit through a pointer the items are as before but for the one that was edited. */
  lemma ItemEdited(items: seq<RestockItem>, owned: set<object>, k: nat, vs: seq<RestockItemRec>)
    requires k < |items| && OthersOwned(items, owned, k, vs) && items[k].Valid()
    ensures ItemsOwned(items, owned + ItemRepr(items[k]))
    ensures ItemValues(items, owned + ItemRepr(items[k])) == vs[k := items[k].Value()]
  {
    hide UnknownOk, RestockItem.Valid, RestockItem.Value;
    assert ItemsOwned(items, owned + ItemRepr(items[k]));
  }

  function WithMfdSeconds(v: RestockItemRec, value: int): (r: RestockItemRec)
    ensures r == v.(mfdDate := r.mfdDate) && r.mfdDate.Some? && r.mfdDate.value.seconds == value
    ensures v.mfdDate.Some? ==> r.mfdDate.value == v.mfdDate.value.(seconds := value)
    ensures v.mfdDate.None? ==> r.mfdDate.value.nanos == 0 && r.mfdDate.value.unknown == []
  {
    v.(mfdDate := Some((if v.mfdDate.Some? then v.mfdDate.value else NO_TIMESTAMP).(seconds := value)))
  }

  /** Makes the date present, reusing a cleared one, and sets it through the pointer. */
  method DateItem(item: RestockItem, value: int)
    requires item.Valid() && -TWO_TO_63 <= value < TWO_TO_63
    modifies item, item.impl.mfdDate
    ensures item.Valid() && item.Value() == WithMfdSeconds(old(item.Value()), value)
    ensures item.impl.mfdDate != old(item.impl.mfdDate) ==> fresh(item.impl.mfdDate)
    ensures item.impl.expiryDate == old(item.impl.expiryDate)
    ensures old(item.Value()).mfdDate.Some? ==> CachedSizeOf(item.impl.mfdDate) == old(CachedSizeOf(item.impl.mfdDate))
  {
    hide UnknownOk;
    var date := item.MutableMfdDate();
    date.SetSeconds(value);
  }

  method CopyInto(item: RestockItem, from: RestockItem)
    requires item.Valid() && from.Valid() && ItemRepr(from) !! ItemRepr(item)
    modifies item, item.impl.mfdDate, item.impl.expiryDate
    ensures item.Valid() && item.Value() == old(from.Value()) && fresh(ItemRepr(item) - old(ItemRepr(item)))
    ensures item.impl.mfdDate != old(item.impl.mfdDate) ==> fresh(item.impl.mfdDate)
    ensures item.impl.expiryDate != old(item.impl.expiryDate) ==> fresh(item.impl.expiryDate)
  {
    hide RestockItem.Valid, RestockItem.Value;
    item.CopyFrom(from);
  }

  /**
   The first pass, an edit of a present date, and the second pass: what is written
   is the encoding exactly when the edit has kept the length of the date's own.
   */
  method SizeEditWrite(item: RestockItem, value: int) returns (out: Bytes)
    requires item.Valid() && item.Value().mfdDate.Some? && -TWO_TO_63 <= value < TWO_TO_63
    modifies item, item.impl.mfdDate, item.impl.expiryDate
    ensures item.Valid() && item.Value() == WithMfdSeconds(old(item.Value()), value)
    ensures out == item.Value().Encoded() <==>
              |old(item.Value()).mfdDate.value.(seconds := value).Encoded()| == |old(item.Value()).mfdDate.value.Encoded()|
  {
    hide UnknownOk, ScalarsOk, RestockItemRec.Encoded, EncodedWith, TimestampRec.Encoded, Timestamp.Valid;
    ghost var v := item.Value();
    var _ := item.ByteSizeLong();
    ghost var was := CachedSizeOf(item.impl.mfdDate);
    assert was == |v.mfdDate.value.Encoded()|;
    ghost var expiry := CachedSizeOf(item.impl.expiryDate);
    assert SizeRight(v.expiryDate, expiry);
    DateItem(item, value);
    out := item.InternalSerialize([]);
    CacheDecides(item.Value(), was, expiry);
  }

  /** The edit that makes it wrong: a date that was at its default is given a second. */
  lemma StaleDate(date: TimestampRec)
    requires date.Ok() && date.seconds == 0
    ensures |date.(seconds := 1).Encoded()| == |date.Encoded()| + 2
  {
  }

  /** The sizes that are cached in an item. */
  ghost function SizesOf(item: RestockItem): ItemSizes
    reads item, item.impl.mfdDate, item.impl.expiryDate
  {
    ItemSizes(item.cachedSize, CachedSizeOf(item.impl.mfdDate), CachedSizeOf(item.impl.expiryDate))
  }

  ghost function ItemCaches(items: seq<RestockItem>, owned: set<object>): (cs: seq<ItemSizes>)
    requires ItemsOwned(items, owned)
    reads owned
    ensures |cs| == |items|
  {
    hide UnknownOk;
    seq(|items|, i requires 0 <= i < |items| && ItemsOwned(items, owned) reads owned => SizesOf(items[i]))
  }

  lemma CachesAt(items: seq<RestockItem>, owned: set<object>, k: nat)
    requires ItemsOwned(items, owned) && k < |items|
    ensures ItemIn(items[k], owned) && items[k].Valid() && ItemCaches(items, owned)[k] == SizesOf(items[k])
    ensures ItemValues(items, owned)[k] == items[k].Value()
  {
    hide UnknownOk, SizesOf, RestockItem.Valid, RestockItem.Value;
  }

  /** `_impl_`; bit 0 is the list, bit 1 the order id. */
  datatype RestockRequestImpl = RestockRequestImpl(hasBits: HasBits, items: seq<RestockItem>, orderId: ArenaString)

  /** A clear has-bit means the list is empty. */
  predicate ListOk<T>(bits: HasBits, k: nat, list: seq<T>) { k in bits || |list| == 0 }

  class RestockItemsOrderRequest {
    var impl: RestockRequestImpl
    var cachedSize: nat
    var unknown: seq<Rec>
    ghost var owned: set<object>

    ghost predicate Valid()
      reads this, owned
    {
      && this !in owned
      && ListOk(impl.hasBits, 0, impl.items)
      && StringOk(impl.hasBits, 1, impl.orderId)
      && ItemsOwned(impl.items, owned)
      && UnknownOk(RESTOCK_REQUEST, unknown)
    }

    ghost function Value(): (v: RestockRequestRec)
      requires Valid()
      reads this, owned
      ensures v.Ok()
    {
      RestockRequestRec(impl.orderId.Get(), ItemValues(impl.items, owned), unknown)
    }

    constructor ()
      ensures Valid() && Value() == RestockRequestRec([], [], []) && owned == {}
    {
      impl := RestockRequestImpl({}, [], Shared);
      cachedSize, unknown, owned := 0, [], {};
    }

    /** Appends a default item and hands out the pointer to it. */
    method AddItems() returns (item: RestockItem)
      requires Valid()
      modifies this
      ensures Valid() && fresh(owned - old(owned))
      ensures fresh(item) && item.Valid() && item.Value() == NO_ITEM
      ensures impl.items == old(impl.items) + [item]
      ensures Value() == old(Value()).(items := old(Value()).items + [NO_ITEM])
      ensures impl.hasBits == old(impl.hasBits) + {0}
    {
      hide UnknownOk, RestockItem.Valid, RestockItem.Value, ItemsOwned, ItemValues;
      item := new RestockItem();
      OneItem(item);
      ItemsJoined(impl.items, owned, [item], ItemRepr(item));
      owned := owned + ItemRepr(item);
      impl := impl.(items := impl.items + [item], hasBits := impl.hasBits + {0});
    }

    /** Notes what an item has come to own through the pointer to it. */
    ghost method Adopt(k: nat)
      requires k < |impl.items| && this !in owned + ItemRepr(impl.items[k])
      requires ItemsOwned(impl.items, owned + ItemRepr(impl.items[k]))
      requires ListOk(impl.hasBits, 0, impl.items) && StringOk(impl.hasBits, 1, impl.orderId) && UnknownOk(RESTOCK_REQUEST, unknown)
      modifies this`owned
      ensures Valid() && owned == old(owned) + ItemRepr(impl.items[k])
      ensures Value() == RestockRequestRec(impl.orderId.Get(), ItemValues(impl.items, owned), unknown)
    {
      hide UnknownOk, RestockItem.Valid, RestockItem.Value, ItemsOwned, ItemValues;
      owned := owned + ItemRepr(impl.items[k]);
    }

    /** `mutable_items(k)->CopyFrom(from)` */
    method CopyItem(k: nat, from: RestockItem)
      requires Valid() && k < |impl.items| && from.Valid() && ItemRepr(from) !! owned
      modifies this`owned, owned
      ensures Valid() && fresh(owned - old(owned)) && impl == old(impl)
      ensures Value() == old(Value()).(items := old(Value()).items[k := old(from.Value())])
    {
      hide UnknownOk, RestockItem.Valid, RestockItem.Value, ItemsOwned, ItemValues, OthersOwned, StringOk;
      ghost var vs := ItemValues(impl.items, owned);
      CopyOne(impl.items, owned, k, from);
      ItemEdited(impl.items, owned, k, vs);
      Adopt(k);
    }

    static method CopyOne(items: seq<RestockItem>, ghost owned: set<object>, k: nat, from: RestockItem)
      requires ItemsOwned(items, owned) && k < |items| && from.Valid() && ItemRepr(from) !! owned
      modifies owned
      ensures OthersOwned(items, owned, k, old(ItemValues(items, owned)))
      ensures items[k].Valid() && items[k].Value() == old(from.Value()) && fresh(ItemRepr(items[k]) - owned)
    {
      hide UnknownOk, ScalarsOk, RestockItemRec.Ok, ItemsOk, RestockItem.Value, Timestamp.Valid, ItemRepr;
      ReprIn(items[k], owned);
      assert ItemIn(items[k], owned);
      CopyInto(items[k], from);
      hide RestockItem.Valid;
      forall i | 0 <= i < |items| && i != k
        ensures items[i].impl == old(items[i].impl) && ItemIn(items[i], owned)
        ensures items[i].Valid() && items[i].Value() == old(items[i].Value())
      {
        assert old(ItemIn(items[i], owned));
      }
    }

    /** `mutable_items(k)->mutable_mfd_date()->set_seconds(value)` */
    method SetItemMfdSeconds(k: nat, value: int)
      requires Valid() && k < |impl.items| && -TWO_TO_63 <= value < TWO_TO_63
      modifies this`owned, owned
      ensures Valid() && fresh(owned - old(owned)) && impl == old(impl)
      ensures Value() == old(Value()).(items := old(Value()).items[k := WithMfdSeconds(old(Value()).items[k], value)])
    {
      hide UnknownOk, RestockItem.Valid, RestockItem.Value, ItemsOwned, ItemValues, OthersOwned, StringOk;
      ghost var vs := ItemValues(impl.items, owned);
      DateOne(impl.items, owned, k, value);
      ItemEdited(impl.items, owned, k, vs);
      Adopt(k);
    }

    static method DateOne(items: seq<RestockItem>, ghost owned: set<object>, k: nat, value: int)
      requires ItemsOwned(items, owned) && k < |items| && -TWO_TO_63 <= value < TWO_TO_63
      modifies owned
      ensures OthersOwned(items, owned, k, old(ItemValues(items, owned)))
      ensures items[k].Valid() && items[k].Value() == WithMfdSeconds(old(items[k].Value()), value)
      ensures fresh(ItemRepr(items[k]) - owned)
    {
      hide ScalarsOk, RestockItemRec.Ok, ItemsOk, Timestamp.Valid, UnknownOk;
      assert ItemIn(items[k], owned);
      DateItem(items[k], value);
      hide RestockItem.Valid, RestockItem.Value;
      forall i | 0 <= i < |items| && i != k
        ensures items[i].impl == old(items[i].impl) && ItemIn(items[i], owned)
        ensures items[i].Valid() && items[i].Value() == old(items[i].Value())
      {
        assert old(ItemIn(items[i], owned));
      }
    }

    method ClearItems()
      requires Valid()
      modifies this
      ensures Valid() && Value() == old(Value()).(items := []) && owned == old(owned)
      ensures impl.hasBits == old(impl.hasBits) - {0}
    {
      hide UnknownOk;
      impl := impl.(items := [], hasBits := impl.hasBits - {0});
    }

    method SetOrderId(value: Bytes)
      requires Valid()
      modifies this
      ensures Valid() && Value() == old(Value()).(orderId := value)
      ensures impl.items == old(impl.items) && owned == old(owned)
      ensures impl.hasBits == old(impl.hasBits) + {1}
    {
      hide UnknownOk, RestockItem.Valid, RestockItem.Value, ItemsOwned, ItemValues;
      impl := impl.(hasBits := impl.hasBits + {1}, orderId := Owned(value));
    }

    method Clear()
      requires Valid()
      modifies this
      ensures Valid() && Value() == RestockRequestRec([], [], []) && owned == old(owned)
      ensures impl.hasBits == {}
    {
      hide UnknownOk;
      NoUnknown(RESTOCK_REQUEST);
      var i := impl;
      impl := RestockRequestImpl(
        {},
        if 0 in i.hasBits then [] else i.items,
        ClearString(i.hasBits, 1, i.orderId));
      unknown := [];
    }

    /** Deep copies of the items of another message. */
    static method CopyItems(from: seq<RestockItem>, ghost fromOwned: set<object>)
      returns (copies: seq<RestockItem>, ghost owned: set<object>)
      requires ItemsOwned(from, fromOwned)
      ensures ItemsOwned(copies, owned) && fresh(owned)
      ensures ItemValues(copies, owned) == ItemValues(from, fromOwned)
    {
      hide UnknownOk, RestockItem.Valid, RestockItem.Value;
      copies, owned := [], {};
      ghost var vs := ItemValues(from, fromOwned);
      for k := 0 to |from|
        invariant ItemsOwned(copies, owned) && fresh(owned)
        invariant ItemsOwned(from, fromOwned) && ItemValues(from, fromOwned) == vs
        invariant ItemValues(copies, owned) == vs[..k]
      {
        assert ItemIn(from[k], fromOwned);
        var copy := new RestockItem.CopyOf(from[k]);
        OneItem(copy);
        ItemsJoined(copies, owned, [copy], ItemRepr(copy));
        copies, owned := copies + [copy], owned + ItemRepr(copy);
        assert vs[..k + 1] == vs[..k] + [vs[k]];
      }
    }

    method MergeFrom(from: RestockItemsOrderRequest)
      requires Valid() && from.Valid() && from != this
      modifies this
      ensures Valid() && fresh(owned - old(owned))
      ensures Value() == old(Value()).Merged(from.Value())
      ensures impl.hasBits == old(impl.hasBits) + from.impl.hasBits
    {
      hide PickStr, ItemsOk, RestockItemRec.Ok;
      hide UnknownOk, RestockItem.Valid, RestockItem.Value, ItemsOwned, ItemValues, StringOk, MergeString;
      UnknownJoined(RESTOCK_REQUEST, unknown, from.unknown);
      var i, j := impl, from.impl;
      var copies, copied := CopyItems(j.items, from.owned);
      ItemsJoined(i.items, owned, copies, copied);
      assert 0 !in j.hasBits ==> i.items + copies == i.items;
      owned := owned + copied;
      impl := RestockRequestImpl(
        i.hasBits + j.hasBits,
        if 0 in j.hasBits then i.items + copies else i.items,
        MergeString(i.hasBits, j.hasBits, 1, i.orderId, j.orderId));
      unknown := unknown + from.unknown;
    }

    method CopyFrom(from: RestockItemsOrderRequest)
      requires Valid() && from.Valid() && (from == this || this !in from.owned)
      modifies this
      ensures Valid() && fresh(owned - old(owned))
      ensures Value() == old(from.Value())
      ensures impl.hasBits == old(from.impl.hasBits)
    {
      hide UnknownOk, RestockItem.Valid, RestockItem.Value, ItemsOwned, ItemValues, StringOk;
      if from == this { return; }
      ghost var b := from.Value();
      Clear();
      MergeFrom(from);
      assert [] + b.items == b.items && [] + b.unknown == b.unknown;
    }

    method InternalSwap(other: RestockItemsOrderRequest)
      requires Valid() && other.Valid() && other != this
      requires this !in other.owned && other !in owned
      modifies this, other
      ensures Valid() && other.Valid()
      ensures Value() == old(other.Value()) && other.Value() == old(Value())
      ensures impl == old(other.impl) && other.impl == old(impl)
      ensures owned == old(other.owned) && other.owned == old(owned)
    {
      hide UnknownOk, RestockItem.Valid, RestockItem.Value, ItemsOwned, ItemValues, StringOk;
      unknown, other.unknown := other.unknown, unknown;
      impl, other.impl := other.impl, impl;
      owned, other.owned := other.owned, owned;
    }

    // --------------------------------------------------------------- parse

    /** Appends an item that is parsed from the payload; one that is rejected may be appended in part. */
    method ParseNewItem(payload: Bytes, bit: nat) returns (ok: bool, ghost v: RestockItemRec)
      requires Valid() && bit == 0
      modifies this
      ensures Valid() && fresh(owned - old(owned)) && v.Ok()
      ensures Value() == old(Value()).(items := old(Value()).items + [v])
      ensures ValidSchema(RESTOCK_ITEM) && IsMsg(RESTOCK_ITEM, NO_ITEM.ToMsg())
      ensures ok <==> ParseInto(RESTOCK_ITEM, NO_ITEM.ToMsg(), payload).Some?
      ensures ok ==> ParseInto(RESTOCK_ITEM, NO_ITEM.ToMsg(), payload) == Some(v.ToMsg())
      ensures impl.hasBits == old(impl.hasBits) + {bit}
    {
      hide UnknownOk, RestockItem.Valid, RestockItem.Value, ItemsOwned, ItemValues, ParseInto, IsMsg, ValidSchema;
      var item;
      ok, item, v := ParsedItem(payload);
      OneItem(item);
      ItemsJoined(impl.items, owned, [item], ItemRepr(item));
      owned := owned + ItemRepr(item);
      impl := impl.(items := impl.items + [item], hasBits := impl.hasBits + {bit});
    }

    static method ParsedItem(payload: Bytes) returns (ok: bool, item: RestockItem, ghost v: RestockItemRec)
      ensures item.Valid() && fresh(ItemRepr(item)) && v == item.Value() && v.Ok()
      ensures ValidSchema(RESTOCK_ITEM) && IsMsg(RESTOCK_ITEM, NO_ITEM.ToMsg())
      ensures ok <==> ParseInto(RESTOCK_ITEM, NO_ITEM.ToMsg(), payload).Some?
      ensures ok ==> ParseInto(RESTOCK_ITEM, NO_ITEM.ToMsg(), payload) == Some(v.ToMsg())
    {
      hide UnknownOk, ParseInto, IsMsg, ValidSchema, ScalarsOk;
      item := new RestockItem();
      ok := ParseItem(item, payload);
      v := item.Value();
      ItemIsOk(item);
    }

    /** Stores one record where the parse table says, under the has-bit the table says, or rejects it. */
    method ParseRecord(r: Rec, target: Target) returns (ok: bool)
      requires Valid() && ValidRec(r) && EntriesFit(RESTOCK_REQUEST_TABLE, RESTOCK_REQUEST)
      requires target == Wanted(RESTOCK_REQUEST_TABLE, RESTOCK_REQUEST, r)
      modifies this
      ensures Valid() && fresh(owned - old(owned))
      ensures ValidSchema(RESTOCK_REQUEST) && IsMsg(RESTOCK_REQUEST, old(Value()).ToMsg())
      ensures Apply(RESTOCK_REQUEST, old(Value()).ToMsg(), r) == if ok then Some(Value().ToMsg()) else None
      ensures impl.hasBits == old(impl.hasBits) + (if target.Known? then {target.hasBit} else {})
    {
      hide UnknownOk, RestockItem.Valid, RestockItem.Value, ItemsOwned, ItemValues, ParseInto, Apply, IsMsg, ValidSchema;
      ghost var v := Value();
      RequestTargets(r);
      RequestApply(v, r);
      ok := true;
      if target.Unknown? {
        UnknownGrows(RESTOCK_REQUEST, unknown, r);
        unknown := unknown + [r];
      } else if target.field == 0 {
        impl := impl.(hasBits := impl.hasBits + {target.hasBit}, orderId := Owned(r.payload));
      } else {
        ghost var w;
        ok, w := ParseNewItem(r.payload, target.hasBit);
        if ok { RequestAppend(v, w); }
      }
    }

    /** Merges an encoded message in, as the parse table directs; a rejected input may have been merged in part. */
    method MergeFromBytes(bs: Bytes) returns (ok: bool)
      requires Valid()
      modifies this
      ensures Valid() && fresh(owned - old(owned))
      ensures ValidSchema(RESTOCK_REQUEST) && IsMsg(RESTOCK_REQUEST, old(Value()).ToMsg())
      ensures ok <==> ParseInto(RESTOCK_REQUEST, old(Value()).ToMsg(), bs).Some?
      ensures ok ==> ParseInto(RESTOCK_REQUEST, old(Value()).ToMsg(), bs) == Some(Value().ToMsg())
    {
      hide UnknownOk, RestockItem.Valid, RestockItem.Value, ItemsOwned, ItemValues, StringOk, ParseInto, Apply, IsMsg, ValidSchema;
      hide Fits, Slot, EntriesFit, ReadOne, SlowTarget, ReadTag;
      RestockRequestTableFits();
      FitsEntries(RESTOCK_REQUEST_TABLE, RESTOCK_REQUEST);
      RestockRequestValid();
      RestockRequestIsMsg(Value());
      ghost var goal := ParseInto(RESTOCK_REQUEST, Value().ToMsg(), bs);
      var rest := bs;
      while |rest| != 0
        invariant Valid() && fresh(owned - old(owned)) && IsMsg(RESTOCK_REQUEST, Value().ToMsg())
        invariant ParseInto(RESTOCK_REQUEST, Value().ToMsg(), rest) == goal
        decreases |rest|
      {
        ParseStep(RESTOCK_REQUEST, Value().ToMsg(), rest);
        var one := ReadOne(rest);
        if one.Fail? { return false; }
        var target := Dispatch(RESTOCK_REQUEST_TABLE, RESTOCK_REQUEST, rest);
        var stored := ParseRecord(one.value, target.value);
        if !stored { return false; }
        RestockRequestIsMsg(Value());
        rest := one.rest;
      }
      ParseNothing(RESTOCK_REQUEST, Value().ToMsg());
      ok := true;
    }

    // ------------------------------------------------------ the two passes

    /** Every item has its true size cached, and so has every sub-message of it. */
    static ghost predicate ItemsSized(items: seq<RestockItem>, owned: set<object>)
      requires ItemsOwned(items, owned)
      reads owned
    {
      forall i :: 0 <= i < |items| ==> ItemIn(items[i], owned) && ItemSized(items[i])
    }

    /** The first `k` of them have. */
    static ghost predicate SizedUpTo(items: seq<RestockItem>, owned: set<object>, k: nat)
      requires ItemsOwned(items, owned) && k <= |items|
      reads owned
    {
      forall i :: 0 <= i < k ==> ItemIn(items[i], owned) && ItemSized(items[i])
    }

    static lemma NoneSized(items: seq<RestockItem>, owned: set<object>)
      requires ItemsOwned(items, owned)
      ensures SizedUpTo(items, owned, 0)
    {
    }

    static lemma AllSized(items: seq<RestockItem>, owned: set<object>)
      requires ItemsOwned(items, owned) && SizedUpTo(items, owned, |items|)
      ensures ItemsSized(items, owned)
    {
      hide RestockItem.Valid, ItemSized;
    }

    static ghost predicate ItemSized(item: RestockItem)
      requires item.Valid()
      reads item, item.impl.mfdDate, item.impl.expiryDate
    {
      item.DatesSized() && item.cachedSize == |item.Value().Encoded()|
    }

    /** Sizing one item leaves the others as they are. */
    static method ItemByteSize(items: seq<RestockItem>, ghost owned: set<object>, k: nat) returns (size: nat)
      requires ItemsOwned(items, owned) && k < |items|
      modifies owned
      ensures ItemsOwned(items, owned) && ItemValues(items, owned) == old(ItemValues(items, owned))
      ensures size == |ItemValues(items, owned)[k].Encoded()|
      ensures ItemSized(items[k])
      ensures forall i :: 0 <= i < |items| && i != k && old(ItemSized(items[i])) ==> ItemSized(items[i])
    {
      hide UnknownOk, ScalarsOk, RestockItemRec.Ok, ItemsOk, Timestamp.Valid, RestockItemRec.Encoded, RestockItem.DatesSized;
      assert ItemIn(items[k], owned);
      size := items[k].ByteSizeLong();
      hide RestockItem.Valid, RestockItem.Value, ItemSized;
      forall i | 0 <= i < |items| && i != k
        ensures items[i].impl == old(items[i].impl) && items[i].Valid() && items[i].Value() == old(items[i].Value())
        ensures old(ItemSized(items[i])) ==> ItemSized(items[i])
      {
        assert ItemIn(items[i], owned);
      }
      assert ItemsOwned(items, owned);
    }

    static method ItemsByteSize(items: seq<RestockItem>, ghost owned: set<object>) returns (size: nat)
      requires ItemsOwned(items, owned)
      modifies owned
      ensures ItemsOwned(items, owned) && ItemValues(items, owned) == old(ItemValues(items, owned))
      ensures ItemsSized(items, owned)
      ensures size == |ItemsField(2, ItemValues(items, owned))|
    {
      hide UnknownOk, RestockItem.Valid, RestockItem.Value, ItemsOwned, ItemSized, ItemValues, SizedUpTo, ItemsSized, VarintSize;
      hide ItemsField, ItemsSoFar, ItemsOk, RestockItemRec.Encoded;
      ghost var vs := ItemValues(items, owned);
      size := |items|;
      NoneSized(items, owned);
      ItemsStart(vs);
      for k := 0 to |items|
        invariant ItemsOwned(items, owned) && ItemValues(items, owned) == vs && SizedUpTo(items, owned, k)
        invariant size == |items| - k + ItemsSoFar(vs, k)
      {
        var n := NextByteSize(items, owned, k);
        size := size + VarintSize(n) + n;
        ItemsSoFarNext(vs, k);
      }
      AllSized(items, owned);
    }

    static method NextByteSize(items: seq<RestockItem>, ghost owned: set<object>, k: nat) returns (size: nat)
      requires ItemsOwned(items, owned) && k < |items| && SizedUpTo(items, owned, k)
      modifies owned
      ensures ItemsOwned(items, owned) && ItemValues(items, owned) == old(ItemValues(items, owned))
      ensures SizedUpTo(items, owned, k + 1)
      ensures ItemValues(items, owned)[k].Ok() && size == |ItemValues(items, owned)[k].Encoded()|
    {
      hide UnknownOk, RestockItem.Valid, RestockItem.Value, ItemsOwned, ItemSized, ItemValues, RestockItemRec.Encoded;
      size := ItemByteSize(items, owned, k);
      CachesAt(items, owned, k);
    }

    /** The first pass: the list before the order id, as the has-bits order them. */
    method ByteSizeLong() returns (size: nat)
      requires Valid()
      modifies this`cachedSize, owned
      ensures Valid() && Value() == old(Value())
      ensures size == cachedSize == |Value().Encoded()|
      ensures ItemsSized(impl.items, owned)
    {
      hide UnknownOk, RestockItem.Valid, RestockItem.Value, ItemsOwned, ItemValues, ItemsSized, StringOk;
      size := ItemsByteSize(impl.items, owned);
      if 0 !in impl.hasBits { size := 0; }
      size := size + StringSize(impl.hasBits, 1, 1, impl.orderId);
      RecsSizeIsLength(unknown);
      size := size + RecsSize(unknown);
      cachedSize := size;
    }

    static method WriteItem(target: Bytes, item: RestockItem) returns (out: Bytes)
      requires item.Valid()
      ensures out == target + ItemWith(2, item.Value(), SizesOf(item))
    {
      hide UnknownOk, EncodedWith;
      out := target + EncodeTag(2, WT_LEN) + EncodeVarint(item.cachedSize);
      out := item.InternalSerialize(out);
      ghost var sizes := SizesOf(item);
      assert out == target + EncodeTag(2, WT_LEN) + EncodeVarint(sizes.size) + EncodedWith(item.Value(), sizes.mfdSize, sizes.expirySize);
    }

    static method WriteItems(target: Bytes, items: seq<RestockItem>, ghost owned: set<object>) returns (out: Bytes)
      requires ItemsOwned(items, owned)
      ensures out == target + ItemsFieldWith(2, ItemValues(items, owned), ItemCaches(items, owned))
    {
      hide UnknownOk, RestockItem.Valid, RestockItem.Value, ItemsOwned, ItemValues, ItemCaches, SizesOf;
      hide RestockItemRec.Ok, EncodedWith, ItemRepr;
      ghost var vs, cs := ItemValues(items, owned), ItemCaches(items, owned);
      out := target;
      assert target + ItemsFieldWith(2, vs[..0], cs[..0]) == target;
      hide ItemsFieldWith, ItemWith;
      for k := 0 to |items|
        invariant out == target + ItemsFieldWith(2, vs[..k], cs[..k])
      {
        CachesAt(items, owned, k);
        out := WriteItem(out, items[k]);
        ItemsFieldWithNext(2, vs, cs, k);
        Assoc(target, ItemsFieldWith(2, vs[..k], cs[..k]), ItemWith(2, vs[k], cs[k]));
      }
      assert vs[..|items|] == vs && cs[..|items|] == cs;
    }

    /**
     The second pass: the order id before the list, as the field numbers order
     them, length prefixes out of the cache.  It writes the encoding exactly when
     these are true.
     */
    method InternalSerialize(target: Bytes) returns (out: Bytes)
      requires Valid()
      ensures out == target + RequestWith(Value(), ItemCaches(impl.items, owned))
      ensures out == target + Value().Encoded() <==> ItemsSizesRight(Value().items, ItemCaches(impl.items, owned))
      ensures ItemsSized(impl.items, owned) ==> out == target + Value().Encoded()
    {
      hide UnknownOk, RestockItem.Valid, RestockItem.Value, ItemsOwned, ItemValues, ItemCaches, ItemsSized, StringOk, RequestWith;
      hide RestockRequestRec.Encoded, ItemsSizesRight;
      ghost var v, cs := Value(), ItemCaches(impl.items, owned);
      out := WriteFields(target);
      RequestCacheDecides(v, cs);
      if ItemsSized(impl.items, owned) { SizedIsRight(impl.items, owned); }
      SameBehind(target, RequestWith(v, cs), v.Encoded());
    }

    method WriteFields(target: Bytes) returns (out: Bytes)
      requires Valid()
      ensures out == target + RequestWith(Value(), ItemCaches(impl.items, owned))
    {
      hide UnknownOk, RestockItem.Valid, RestockItem.Value, ItemsOwned, ItemValues, ItemCaches, StringOk, WriteString;
      ghost var v, cs := Value(), ItemCaches(impl.items, owned);
      out := WriteString(target, impl.hasBits, 1, 1, impl.orderId);
      if 0 in impl.hasBits { out := WriteItems(out, impl.items, owned); }
      out := out + EncodeRecs(unknown);
      Assoc(target, StrField(1, v.orderId), ItemsFieldWith(2, v.items, cs));
      Assoc(target, StrField(1, v.orderId) + ItemsFieldWith(2, v.items, cs), EncodeRecs(unknown));
    }

    /**
     Both passes.  Nothing is written when the message is past the 2 GiB limit;
     otherwise the bytes parse back to this message.
     */
    method SerializeToBytes() returns (result: Option<Bytes>)
      requires Valid()
      modifies this`cachedSize, owned
      ensures Valid() && Value() == old(Value())
      ensures result.Some? <==> |Value().Encoded()| < TWO_TO_31
      ensures ValidSchema(RESTOCK_REQUEST)
      ensures result.Some? ==> result.value == Value().Encoded()
      ensures result.Some? ==> Parse(RESTOCK_REQUEST, result.value) == Some(Value().ToMsg())
    {
      hide UnknownOk, RestockItem.Valid, RestockItem.Value, ItemsOwned, ItemValues, ItemsSized, StringOk;
      RestockRequestValid();
      var size := ByteSizeLong();
      if size >= TWO_TO_31 { return None; }
      var out := InternalSerialize([]);
      RestockRequestRoundTrip(Value());
      assert out == Value().Encoded();
      result := Some(out);
    }
  }

  /** The length of the first `k` items of a list. */
  function ItemsSoFar(vs: seq<RestockItemRec>, k: nat): nat
    requires ItemsOk(vs) && k <= |vs|
  {
    |ItemsField(2, vs[..k])|
  }

  lemma ItemsStart(vs: seq<RestockItemRec>)
    requires ItemsOk(vs)
    ensures ItemsSoFar(vs, 0) == 0 && ItemsSoFar(vs, |vs|) == |ItemsField(2, vs)|
  {
    assert vs[..|vs|] == vs;
  }

  lemma ItemsSoFarNext(vs: seq<RestockItemRec>, k: nat)
    requires ItemsOk(vs) && k < |vs|
    ensures vs[k].Ok()
    ensures var n := |vs[k].Encoded()|; ItemsSoFar(vs, k + 1) == ItemsSoFar(vs, k) + 1 + VarintSize(n) + n
  {
    hide ItemsField, VarintSize, RestockItemRec.Ok, RestockItemRec.Encoded, EncodeRec;
    assert vs[..k + 1] == vs[..k] + [vs[k]];
    ItemsFieldAppend(2, vs[..k], vs[k]);
    RecLayout([], 2, vs[k].Encoded(), 0, 0);
  }

  lemma OneSizedIsRight(item: RestockItem)
    requires item.Valid() && RestockItemsOrderRequest.ItemSized(item)
    ensures ItemSizesRight(item.Value(), SizesOf(item))
  {
    hide UnknownOk, RestockItemRec.Encoded, TimestampRec.Encoded, ScalarsOk, Timestamp.Valid;
  }

  /** After the first pass every cached size is right. */
  lemma SizedIsRight(items: seq<RestockItem>, owned: set<object>)
    requires ItemsOwned(items, owned) && RestockItemsOrderRequest.ItemsSized(items, owned)
    ensures ItemsSizesRight(ItemValues(items, owned), ItemCaches(items, owned))
  {
    hide UnknownOk, RestockItem.Valid, RestockItem.Value, ItemValues, ItemCaches, SizesOf, RestockItemsOrderRequest.ItemSized;
    hide ItemSizesRight, RestockItemRec.Ok;
    forall i | 0 <= i < |items|
      ensures ItemSizesRight(ItemValues(items, owned)[i], ItemCaches(items, owned)[i])
    {
      CachesAt(items, owned, i);
      OneSizedIsRight(items[i]);
    }
  }

  /** The field grows by one item. */
  lemma ItemsFieldWithNext(num: nat, vs: seq<RestockItemRec>, cs: seq<ItemSizes>, k: nat)
    requires ItemsOk(vs) && |cs| == |vs| && k < |vs|
    ensures ItemsFieldWith(num, vs[..k + 1], cs[..k + 1]) == ItemsFieldWith(num, vs[..k], cs[..k]) + ItemWith(num, vs[k], cs[k])
  {
    assert vs[..k + 1] == vs[..k] + [vs[k]] && cs[..k + 1] == cs[..k] + [cs[k]];
    ItemsFieldWithAppend(num, vs[..k], cs[..k], vs[k], cs[k]);
  }

  lemma {:induction false} ItemsFieldWithAppend(num: nat, vs: seq<RestockItemRec>, cs: seq<ItemSizes>, v: RestockItemRec, c: ItemSizes)
    requires ItemsOk(vs) && |cs| == |vs| && v.Ok()
    ensures ItemsFieldWith(num, vs + [v], cs + [c]) == ItemsFieldWith(num, vs, cs) + ItemWith(num, v, c)
  {
    hide ItemWith;
    if |vs| == 0 {
      assert [v][1..] == [] && [c][1..] == [];
      assert (vs + [v])[1..] == [] && (cs + [c])[1..] == [];
    } else {
      assert (vs + [v])[1..] == vs[1..] + [v] && (cs + [c])[1..] == cs[1..] + [c];
      ItemsFieldWithAppend(num, vs[1..], cs[1..], v, c);
      Assoc(ItemWith(num, vs[0], cs[0]), ItemsFieldWith(num, vs[1..], cs[1..]), ItemWith(num, v, c));
    }
  }

  // ------------------------------------------------------- parsing a record

  function RequestSlot(r: Rec): Option<nat> {
    if r.Len? && r.num == 1 then Some(0) else if r.Len? && r.num == 2 then Some(1) else None
  }

  lemma RequestSlots(r: Rec)
    ensures Slot(RESTOCK_REQUEST, r) == RequestSlot(r)
  {
    assert RESTOCK_REQUEST.fields[0] == Field(1, Str) && RESTOCK_REQUEST.fields[1] == Field(2, RepSub(RESTOCK_ITEM));
    assert r.Len? <==> WireType(r) == WT_LEN;
  }

  /** The targets in the parse table are the fields and has-bits of the message object. */
  lemma RequestTargets(r: Rec)
    requires EntriesFit(RESTOCK_REQUEST_TABLE, RESTOCK_REQUEST)
    ensures Slot(RESTOCK_REQUEST, r) == RequestSlot(r)
    ensures Wanted(RESTOCK_REQUEST_TABLE, RESTOCK_REQUEST, r)
         == match RequestSlot(r) case None => Target.Unknown case Some(i) => Known(i, [1, 0][i], 0)
  {
    RequestSlots(r);
  }

  /** Storing one record is the schema-generic step: a new id, one more item, or one more unknown record. */
  lemma RequestApply(v: RestockRequestRec, r: Rec)
    requires v.Ok() && ValidRec(r)
    ensures ValidSchema(RESTOCK_REQUEST) && IsMsg(RESTOCK_REQUEST, v.ToMsg())
    ensures ValidSchema(RESTOCK_ITEM) && IsMsg(RESTOCK_ITEM, NO_ITEM.ToMsg())
    ensures Apply(RESTOCK_REQUEST, v.ToMsg(), r)
         == if RequestSlot(r) == None then Some(v.(unknown := v.unknown + [r]).ToMsg())
            else if RequestSlot(r) == Some(0) then Some(v.(orderId := r.payload).ToMsg())
            else RequestAppended(v, ParseInto(RESTOCK_ITEM, NO_ITEM.ToMsg(), r.payload))
  {
    EmptyItem();
    RestockItemIsMsg(NO_ITEM);
    RestockRequestValid();
    RestockRequestIsMsg(v);
    RequestSlots(r);
    hide UnknownOk, ParseInto, IsMsg, ValidSchema, RequestAppended;
    if RequestSlot(r) == Some(0) {
      RequestIdSet(v, r.payload);
    } else if RequestSlot(r) == Some(1) {
      RequestApplyItem(v, r);
    }
  }

  lemma RequestIdSet(v: RestockRequestRec, id: Bytes)
    ensures v.ToMsg().vals[0 := VStr(id)] == v.(orderId := id).ToMsg().vals
  {
  }

  lemma RequestApplyItem(v: RestockRequestRec, r: Rec)
    requires v.Ok() && ValidRec(r) && RequestSlot(r) == Some(1)
    requires ValidSchema(RESTOCK_REQUEST) && IsMsg(RESTOCK_REQUEST, v.ToMsg())
    requires ValidSchema(RESTOCK_ITEM) && IsMsg(RESTOCK_ITEM, NO_ITEM.ToMsg())
    ensures Apply(RESTOCK_REQUEST, v.ToMsg(), r) == RequestAppended(v, ParseInto(RESTOCK_ITEM, NO_ITEM.ToMsg(), r.payload))
  {
    EmptyItem();
    RequestSlots(r);
    var m := v.ToMsg();
    assert ValidKind(RESTOCK_REQUEST.fields[1].kind) && IsVal(RESTOCK_REQUEST.fields[1].kind, m.vals[1]);
    hide UnknownOk, ParseInto, IsMsg, ValidSchema;
    match ParseInto(RESTOCK_ITEM, NO_ITEM.ToMsg(), r.payload)
    case None =>
    case Some(item) =>
      assert m.vals[1 := VSubs(ItemsMsgs(v.items) + [item])] == [VStr(v.orderId), VSubs(ItemsMsgs(v.items) + [item])];
  }

  /** The message with one more item, if the item could be parsed. */
  function RequestAppended(v: RestockRequestRec, item: Option<Msg>): Option<Msg> {
    match item
    case None => None
    case Some(m) => Some(Msg([VStr(v.orderId), VSubs(ItemsMsgs(v.items) + [m])], v.unknown))
  }

  lemma RequestAppend(v: RestockRequestRec, w: RestockItemRec)
    ensures RequestAppended(v, Some(w.ToMsg())) == Some(v.(items := v.items + [w]).ToMsg())
  {
    assert ItemsMsgs(v.items + [w]) == ItemsMsgs(v.items) + [w.ToMsg()];
  }

  lemma EmptyItem()
    ensures ValidSchema(RESTOCK_ITEM) && NO_ITEM.ToMsg() == Default(RESTOCK_ITEM)
  {
    RestockItemValid();
    assert NO_ITEM.ToMsg().vals == Default(RESTOCK_ITEM).vals;
  }

  /**
   A run over whole messages, items and their dates included: what was received is
   sent on.  As the second message is what the first one was parsed to, sending on
   what was sent on gives the same bytes.
   */
  method ParseAndSerialize(x: Bytes, ghost ord: Order) returns (result: Option<Bytes>)
    requires ValidOrder(ord)
    ensures ValidSchema(RESTOCK_REQUEST)
    ensures result.Some? <==>
      Parse(RESTOCK_REQUEST, x).Some? && |Serialize(RESTOCK_REQUEST, Parse(RESTOCK_REQUEST, x).value, ord)| < TWO_TO_31
    ensures result.Some? ==> result.value == Serialize(RESTOCK_REQUEST, Parse(RESTOCK_REQUEST, x).value, ord)
    ensures result.Some? ==> Parse(RESTOCK_REQUEST, result.value) == Parse(RESTOCK_REQUEST, x)
  {
    hide UnknownOk, RestockItem.Valid, RestockItem.Value, ItemsOwned, ItemValues, ParseInto, IsMsg, ValidSchema, StringOk;
    RestockRequestValid();
    RestockRequestDefault();
    var msg := new RestockItemsOrderRequest();
    var ok := msg.MergeFromBytes(x);
    if !ok { return None; }
    RestockRequestEncoding(msg.Value(), ord);
    result := msg.SerializeToBytes();
  }

  lemma RestockRequestDefault()
    ensures ValidSchema(RESTOCK_REQUEST) && RestockRequestRec([], [], []).ToMsg() == Default(RESTOCK_REQUEST)
  {
    RestockRequestValid();
    var m := Default(RESTOCK_REQUEST);
    assert RESTOCK_REQUEST.fields[0].kind == Str && RESTOCK_REQUEST.fields[1].kind == RepSub(RESTOCK_ITEM);
    assert m.vals[0] == VStr([]) && m.vals[1] == VSubs([]) && ItemsMsgs([]) == [];
    assert m.vals == [VStr([]), VSubs(ItemsMsgs([]))];
  }

  lemma RestockRequestRoundTrip(v: RestockRequestRec)
    requires v.Ok() && |v.Encoded()| < TWO_TO_31
    ensures ValidSchema(RESTOCK_REQUEST)
    ensures Parse(RESTOCK_REQUEST, v.Encoded()) == Some(v.ToMsg())
  {
    RestockRequestValid();
    var ord := Walking([], {});
    WalkingValid([], {});
    RestockRequestEncoding(v, ord);
    ParseSerializeRoundTrip(RESTOCK_REQUEST, v.ToMsg(), ord);
  }

  lemma {:induction false} ItemsFieldAppend(num: nat, vs: seq<RestockItemRec>, v: RestockItemRec)
    requires ItemsOk(vs) && v.Ok()
    ensures ItemsField(num, vs + [v]) == ItemsField(num, vs) + EncodeRec(Len(num, v.Encoded()))
  {
    if vs == [] {
      assert [v][1..] == [];
    } else {
      assert (vs + [v])[1..] == vs[1..] + [v];
      ItemsFieldAppend(num, vs[1..], v);
    }
  }
}
