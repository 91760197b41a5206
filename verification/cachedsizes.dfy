/**
 What the second pass writes when cached sizes are wrong, for a list of items and
 for a map of levels: the encoding exactly when all of them are right.
 */
module CachedSizes {
  import opened Wire
  import opened Inventory

  // ------------------------------------------------------------------ items

  /** The sizes cached in an item and in its dates. */
  datatype ItemSizes = ItemSizes(size: nat, mfdSize: nat, expirySize: nat)

  predicate ItemSizesRight(v: RestockItemRec, sizes: ItemSizes)
    requires v.Ok()
  {
    sizes.size == |v.Encoded()| && SizeRight(v.mfdDate, sizes.mfdSize) && SizeRight(v.expiryDate, sizes.expirySize)
  }

  function ItemWith(num: nat, v: RestockItemRec, sizes: ItemSizes): Bytes
    requires v.Ok()
  {
    EncodeTag(num, WT_LEN) + EncodeVarint(sizes.size) + EncodedWith(v, sizes.mfdSize, sizes.expirySize)
  }

  function ItemsFieldWith(num: nat, items: seq<RestockItemRec>, sizes: seq<ItemSizes>): Bytes
    requires ItemsOk(items) && |sizes| == |items|
  {
    if |items| == 0 then [] else ItemWith(num, items[0], sizes[0]) + ItemsFieldWith(num, items[1..], sizes[1..])
  }

  predicate ItemsSizesRight(items: seq<RestockItemRec>, sizes: seq<ItemSizes>)
    requires ItemsOk(items) && |sizes| == |items|
  {
    forall i :: 0 <= i < |items| ==> ItemSizesRight(items[i], sizes[i])
  }

  function RequestWith(v: RestockRequestRec, sizes: seq<ItemSizes>): Bytes
    requires v.Ok() && |sizes| == |v.items|
  {
    StrField(1, v.orderId) + ItemsFieldWith(2, v.items, sizes) + EncodeRecs(v.unknown)
  }

  lemma SameBehind(target: Bytes, a: Bytes, b: Bytes)
    ensures target + a == target + b <==> a == b
  {
    assert a == (target + a)[|target|..] && b == (target + b)[|target|..];
  }

  /** A length prefix can be told from the right one, whatever follows. */
  lemma LengthDecides(num: nat, size: nat, x: Bytes, size': nat, x': Bytes)
    requires EncodeTag(num, WT_LEN) + EncodeVarint(size) + x == EncodeTag(num, WT_LEN) + EncodeVarint(size') + x'
    ensures size == size' && x == x'
  {
    var tag := EncodeTag(num, WT_LEN);
    Assoc(tag, EncodeVarint(size), x);
    Assoc(tag, EncodeVarint(size'), x');
    assert EncodeVarint(size) + x == (tag + (EncodeVarint(size) + x))[|tag|..];
    assert EncodeVarint(size') + x' == (tag + (EncodeVarint(size') + x'))[|tag|..];
    VarintPrefix(size, size', x, x');
  }

  /** Whatever follows an item, its dates' sizes decide whether it reads as it should. */
  lemma DatesDecide(v: RestockItemRec, mfdSize: nat, expirySize: nat, tail: Bytes, tail': Bytes)
    requires v.Ok() && EncodedWith(v, mfdSize, expirySize) + tail == v.Encoded() + tail'
    ensures SizeRight(v.mfdDate, mfdSize) && SizeRight(v.expiryDate, expirySize) && tail == tail'
  {
    var s := StrField(1, v.sku) + StrField(2, v.name) + StrField(3, v.aisleType) + IntField(4, v.quantity)
             + DoubleField(5, v.unitCost);
    var d6, d7, u := DateFieldWith(6, v.mfdDate, mfdSize), DateFieldWith(7, v.expiryDate, expirySize), EncodeRecs(v.unknown);
    var t6, t7 := DateField(6, v.mfdDate), DateField(7, v.expiryDate);
    Front(s, d6, d7, u, tail, t6, t7, tail');
    PrefixDecides(6, v.mfdDate, mfdSize, d7 + (u + tail), t7 + (u + tail'));
    PrefixDecides(7, v.expiryDate, expirySize, u + tail, u + tail');
    assert tail == (u + tail)[|u|..] && tail' == (u + tail')[|u|..];
  }

  lemma Front(s: Bytes, a: Bytes, b: Bytes, u: Bytes, x: Bytes, a': Bytes, b': Bytes, x': Bytes)
    requires s + a + b + u + x == s + a' + b' + u + x'
    ensures a + (b + (u + x)) == a' + (b' + (u + x'))
  {
    assert s + a + b + u + x == s + (a + (b + (u + x)));
    assert s + a' + b' + u + x' == s + (a' + (b' + (u + x')));
    assert a + (b + (u + x)) == (s + (a + (b + (u + x))))[|s|..];
    assert a' + (b' + (u + x')) == (s + (a' + (b' + (u + x'))))[|s|..];
  }

  lemma ItemRecord(num: nat, s: Bytes)
    ensures EncodeRec(Len(num, s)) == EncodeTag(num, WT_LEN) + EncodeVarint(|s|) + s
  {
    Assoc(EncodeTag(num, WT_LEN), EncodeVarint(|s|), s);
  }

  lemma ItemDecides(num: nat, v: RestockItemRec, sizes: ItemSizes, tail: Bytes, tail': Bytes)
    requires v.Ok() && ItemWith(num, v, sizes) + tail == EncodeRec(Len(num, v.Encoded())) + tail'
    ensures ItemSizesRight(v, sizes) && tail == tail'
  {
    hide RestockItemRec.Encoded, EncodedWith, EncodeRec, EncodeTag, EncodeVarint, SizeRight;
    var w := EncodedWith(v, sizes.mfdSize, sizes.expirySize);
    ItemRecord(num, v.Encoded());
    Assoc(EncodeTag(num, WT_LEN) + EncodeVarint(sizes.size), w, tail);
    Assoc(EncodeTag(num, WT_LEN) + EncodeVarint(|v.Encoded()|), v.Encoded(), tail');
    LengthDecides(num, sizes.size, w + tail, |v.Encoded()|, v.Encoded() + tail');
    DatesDecide(v, sizes.mfdSize, sizes.expirySize, tail, tail');
  }

  lemma ItemRight(num: nat, v: RestockItemRec, sizes: ItemSizes)
    requires v.Ok() && ItemSizesRight(v, sizes)
    ensures ItemWith(num, v, sizes) == EncodeRec(Len(num, v.Encoded()))
  {
    CacheDecides(v, sizes.mfdSize, sizes.expirySize);
    ItemRecord(num, v.Encoded());
  }

  lemma {:induction false} ItemsDecide(num: nat, items: seq<RestockItemRec>, sizes: seq<ItemSizes>, tail: Bytes, tail': Bytes)
    requires ItemsOk(items) && |sizes| == |items|
    requires ItemsFieldWith(num, items, sizes) + tail == ItemsField(num, items) + tail'
    ensures ItemsSizesRight(items, sizes) && tail == tail'
  {
    hide RestockItemRec.Encoded, ItemWith, EncodeRec, ItemSizesRight;
    if |items| == 0 {
      assert [] + tail == tail && [] + tail' == tail';
    } else {
      var x, y := ItemsFieldWith(num, items[1..], sizes[1..]), ItemsField(num, items[1..]);
      Assoc(ItemWith(num, items[0], sizes[0]), x, tail);
      Assoc(EncodeRec(Len(num, items[0].Encoded())), y, tail');
      ItemDecides(num, items[0], sizes[0], x + tail, y + tail');
      ItemsDecide(num, items[1..], sizes[1..], tail, tail');
      forall i | 0 < i < |items| ensures ItemSizesRight(items[i], sizes[i]) {
        assert items[i] == items[1..][i - 1] && sizes[i] == sizes[1..][i - 1];
      }
    }
  }

  lemma {:induction false} ItemsRight(num: nat, items: seq<RestockItemRec>, sizes: seq<ItemSizes>)
    requires ItemsOk(items) && |sizes| == |items| && ItemsSizesRight(items, sizes)
    ensures ItemsFieldWith(num, items, sizes) == ItemsField(num, items)
  {
    if |items| != 0 {
      hide RestockItemRec.Encoded, ItemWith, EncodeRec, ItemSizesRight;
      ItemRight(num, items[0], sizes[0]);
      ItemsRight(num, items[1..], sizes[1..]);
    }
  }

  /**
   The second pass over a message with a list of items writes the encoding exactly
   when every item, and every date of an item, has its true size cached.
   */
  lemma RequestCacheDecides(v: RestockRequestRec, sizes: seq<ItemSizes>)
    requires v.Ok() && |sizes| == |v.items|
    ensures RequestWith(v, sizes) == v.Encoded() <==> ItemsSizesRight(v.items, sizes)
  {
    hide ItemsFieldWith, ItemsField, ItemsSizesRight, EncodeRecs, StrField;
    var s, u := StrField(1, v.orderId), EncodeRecs(v.unknown);
    var x, y := ItemsFieldWith(2, v.items, sizes), ItemsField(2, v.items);
    if RequestWith(v, sizes) == v.Encoded() {
      Assoc(s, x, u);
      Assoc(s, y, u);
      assert x + u == (s + (x + u))[|s|..] && y + u == (s + (y + u))[|s|..];
      ItemsDecide(2, v.items, sizes, u, u);
    }
    if ItemsSizesRight(v.items, sizes) { ItemsRight(2, v.items, sizes); }
  }

  // ------------------------------------------------------------- map entries

  /** An entry whose own length and its level's length are those that `size` gives. */
  function StockEntryWith(num: nat, key: Bytes, level: StockLevelRec, size: nat): Bytes
    requires level.Ok()
  {
    EncodeTag(num, WT_LEN) + EncodeVarint(2 + VarintSize(|key|) + |key| + VarintSize(size) + size)
    + (EncodeRec(Len(1, key)) + (EncodeTag(2, WT_LEN) + EncodeVarint(size) + level.Encoded()))
  }

  function StockFieldWith(num: nat, stock: map<Bytes, StockLevelRec>, sizes: map<Bytes, nat>, keys: seq<Bytes>): Bytes
    requires StockOk(stock) && sizes.Keys == stock.Keys && forall i :: 0 <= i < |keys| ==> keys[i] in stock
  {
    if |keys| == 0 then []
    else StockEntryWith(num, keys[0], stock[keys[0]], sizes[keys[0]]) + StockFieldWith(num, stock, sizes, keys[1..])
  }

  predicate StockSizesRight(stock: map<Bytes, StockLevelRec>, sizes: map<Bytes, nat>, keys: seq<Bytes>)
    requires StockOk(stock) && sizes.Keys == stock.Keys && forall i :: 0 <= i < |keys| ==> keys[i] in stock
  {
    forall i :: 0 <= i < |keys| ==> sizes[keys[i]] == |stock[keys[i]].Encoded()|
  }

  lemma EntryRecord(num: nat, key: Bytes, level: StockLevelRec)
    requires level.Ok() && num < 16
    ensures StockEntry(num, key, level) == StockEntryWith(num, key, level, |level.Encoded()|)
  {
    hide StockLevelRec.Encoded;
    var body := level.Encoded();
    var x, y := EncodeRec(Len(1, key)), EncodeRec(Len(2, body));
    ItemRecord(2, body);
    ItemRecord(num, x + y);
    KeyLength(1, key);
    KeyLength(2, body);
  }

  lemma KeyLength(num: nat, s: Bytes)
    requires num < 16
    ensures |EncodeRec(Len(num, s))| == 1 + VarintSize(|s|) + |s|
  {
  }

  lemma EntryDecides(num: nat, key: Bytes, level: StockLevelRec, size: nat, tail: Bytes, tail': Bytes)
    requires level.Ok() && num < 16 && StockEntryWith(num, key, level, size) + tail == StockEntry(num, key, level) + tail'
    ensures size == |level.Encoded()| && tail == tail'
  {
    hide StockLevelRec.Encoded, EncodeRec, EncodeTag, EncodeVarint, VarintSize, StockEntry;
    EntryRecord(num, key, level);
    var body, k, t := level.Encoded(), EncodeRec(Len(1, key)), EncodeTag(2, WT_LEN);
    var l, l' := 2 + VarintSize(|key|) + |key| + VarintSize(size) + size,
                 2 + VarintSize(|key|) + |key| + VarintSize(|body|) + |body|;
    var y, y' := t + EncodeVarint(size) + body, t + EncodeVarint(|body|) + body;
    Assoc(EncodeTag(num, WT_LEN) + EncodeVarint(l), k + y, tail);
    Assoc(EncodeTag(num, WT_LEN) + EncodeVarint(l'), k + y', tail');
    LengthDecides(num, l, k + y + tail, l', k + y' + tail');
    Assoc(k, y, tail);
    Assoc(k, y', tail');
    assert y + tail == (k + (y + tail))[|k|..] && y' + tail' == (k + (y' + tail'))[|k|..];
    Assoc(t + EncodeVarint(size), body, tail);
    Assoc(t + EncodeVarint(|body|), body, tail');
    LengthDecides(2, size, body + tail, |body|, body + tail');
    assert tail == (body + tail)[|body|..] && tail' == (body + tail')[|body|..];
  }

  lemma {:induction false} StockDecides(num: nat, stock: map<Bytes, StockLevelRec>, sizes: map<Bytes, nat>, keys: seq<Bytes>,
                                        tail: Bytes, tail': Bytes)
    requires StockOk(stock) && sizes.Keys == stock.Keys && num < 16 && forall i :: 0 <= i < |keys| ==> keys[i] in stock
    requires StockFieldWith(num, stock, sizes, keys) + tail == StockField(num, stock, keys) + tail'
    ensures StockSizesRight(stock, sizes, keys) && tail == tail'
  {
    hide StockLevelRec.Encoded, StockEntryWith, StockEntry;
    if |keys| == 0 {
      assert [] + tail == tail && [] + tail' == tail';
    } else {
      var key := keys[0];
      var x, y := StockFieldWith(num, stock, sizes, keys[1..]), StockField(num, stock, keys[1..]);
      Assoc(StockEntryWith(num, key, stock[key], sizes[key]), x, tail);
      Assoc(StockEntry(num, key, stock[key]), y, tail');
      EntryDecides(num, key, stock[key], sizes[key], x + tail, y + tail');
      StockDecides(num, stock, sizes, keys[1..], tail, tail');
      forall i | 0 < i < |keys| ensures sizes[keys[i]] == |stock[keys[i]].Encoded()| {
        assert keys[i] == keys[1..][i - 1];
      }
    }
  }

  lemma {:induction false} StockRight(num: nat, stock: map<Bytes, StockLevelRec>, sizes: map<Bytes, nat>, keys: seq<Bytes>)
    requires StockOk(stock) && sizes.Keys == stock.Keys && num < 16 && forall i :: 0 <= i < |keys| ==> keys[i] in stock
    requires StockSizesRight(stock, sizes, keys)
    ensures StockFieldWith(num, stock, sizes, keys) == StockField(num, stock, keys)
  {
    if |keys| != 0 {
      EntryRecord(num, keys[0], stock[keys[0]]);
      StockRight(num, stock, sizes, keys[1..]);
    }
  }

  function AvailabilityWith(v: AvailabilityRec, sizes: map<Bytes, nat>, keys: seq<Bytes>): Bytes
    requires v.Ok() && sizes.Keys == v.items.Keys && forall i :: 0 <= i < |keys| ==> keys[i] in v.items
  {
    StockFieldWith(1, v.items, sizes, keys) + EncodeRecs(v.unknown)
  }

  /** Likewise for a map of levels. */
  lemma AvailabilityCacheDecides(v: AvailabilityRec, sizes: map<Bytes, nat>, keys: seq<Bytes>)
    requires v.Ok() && sizes.Keys == v.items.Keys && forall i :: 0 <= i < |keys| ==> keys[i] in v.items
    ensures AvailabilityWith(v, sizes, keys) == v.Encoded(keys) <==> StockSizesRight(v.items, sizes, keys)
  {
    hide StockFieldWith, StockField, StockSizesRight, EncodeRecs;
    var u := EncodeRecs(v.unknown);
    if AvailabilityWith(v, sizes, keys) == v.Encoded(keys) { StockDecides(1, v.items, sizes, keys, u, u); }
    if StockSizesRight(v.items, sizes, keys) { StockRight(1, v.items, sizes, keys); }
  }
}
