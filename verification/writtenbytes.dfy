/** The messages as they are written, field by field and byte by byte. */
module WrittenBytes {
  import opened Wire
  import opened Message
  import opened MapOrder
  import opened Inventory
  import opened CachedSizes
  import opened Restock
  import opened Report
  import opened Availability
  import opened MessageBytes

  /** A string that is not empty, a number and a 64-bit pattern that are not 0. */
  function Text(tag: Byte, s: Bytes): Bytes {
    if |s| == 0 then [] else [tag] + EncodeVarint(|s|) + s
  }

  function Whole(tag: Byte, i: int): Bytes {
    if i == 0 then [] else [tag] + EncodeVarint(i % 18446744073709551616)
  }

  function Pattern(tag: Byte, bits: nat): Bytes {
    if bits == 0 then [] else [tag] + EncodeFixed(bits, 8)
  }

  lemma TextField(num: nat, s: Bytes)
    requires num < 15
    ensures StrField(num, s) == Text(8 * num + 2, s)
  {
    ShortRecords(num, 0, s);
  }

  lemma InSixtyFourBits(i: int)
    requires -TWO_TO_63 <= i < TWO_TO_63
    ensures ToVarint(i) == i % 18446744073709551616
  {
  }

  lemma WholeField(num: nat, i: int)
    requires num < 15 && -TWO_TO_63 <= i < TWO_TO_63
    ensures IntField(num, i) == Whole(8 * num, i)
  {
    hide ToVarint, EncodeRec, EncodeVarint;
    InSixtyFourBits(i);
    ShortRecords(num, ToVarint(i), []);
  }

  lemma PatternField(num: nat, bits: nat)
    requires num < 15
    ensures DoubleField(num, bits) == Pattern(8 * num + 1, bits)
  {
    ShortRecords(num, bits, []);
  }

  lemma TimestampWritten(v: TimestampRec)
    requires v.Ok()
    ensures v.Encoded() == Whole(8, v.seconds) + Whole(16, v.nanos) + EncodeRecs(v.unknown)
  {
    hide IntField, Whole;
    WholeField(1, v.seconds);
    WholeField(2, v.nanos);
  }

  /** A date that is there is written even when it is empty, behind the length that is cached. */
  lemma ItemWritten(v: RestockItemRec, mfdSize: nat, expirySize: nat)
    requires v.Ok()
    ensures EncodedWith(v, mfdSize, expirySize)
         == Text(10, v.sku) + Text(18, v.name) + Text(26, v.aisleType) + Whole(32, v.quantity) + Pattern(41, v.unitCost)
            + (if v.mfdDate.None? then [] else [50] + EncodeVarint(mfdSize) + v.mfdDate.value.Encoded())
            + (if v.expiryDate.None? then [] else [58] + EncodeVarint(expirySize) + v.expiryDate.value.Encoded())
            + EncodeRecs(v.unknown)
  {
    hide StrField, IntField, DoubleField, Text, Whole, Pattern, TimestampRec.Encoded, TimestampRec.Ok;
    TextField(1, v.sku);
    TextField(2, v.name);
    TextField(3, v.aisleType);
    WholeField(4, v.quantity);
    PatternField(5, v.unitCost);
    SmallTag(50);
    SmallTag(58);
  }

  /** The order id, and the items one behind the other, each behind the size that is cached. */
  lemma RequestWritten(v: RestockRequestRec, sizes: seq<ItemSizes>)
    requires v.Ok() && |sizes| == |v.items|
    ensures RequestWith(v, sizes) == Text(10, v.orderId) + ItemsFieldWith(2, v.items, sizes) + EncodeRecs(v.unknown)
    ensures |v.items| == 0 ==> ItemsFieldWith(2, v.items, sizes) == []
  {
    TextField(1, v.orderId);
  }

  lemma ItemsWritten(vs: seq<RestockItemRec>, cs: seq<ItemSizes>, v: RestockItemRec, c: ItemSizes)
    requires ItemsOk(vs) && v.Ok() && |cs| == |vs|
    ensures ItemsOk(vs + [v])
    ensures ItemsFieldWith(2, vs + [v], cs + [c])
         == ItemsFieldWith(2, vs, cs) + ([18] + EncodeVarint(c.size) + EncodedWith(v, c.mfdSize, c.expirySize))
  {
    ItemsFieldWithAppend(2, vs, cs, v, c);
    SmallTag(18);
  }

  lemma StockWritten(v: StockLevelRec)
    requires v.Ok()
    ensures v.Encoded() == Text(10, v.sku) + Text(18, v.name) + Text(26, v.aisleType) + Whole(32, v.quantity) + EncodeRecs(v.unknown)
  {
    hide StrField, IntField, Text, Whole;
    TextField(1, v.sku);
    TextField(2, v.name);
    TextField(3, v.aisleType);
    WholeField(4, v.quantity);
  }

  /** Every string of the list, empty ones too. */
  lemma SkusWritten(ss: seq<Bytes>, s: Bytes, unknown: seq<Rec>)
    requires SkusRec(ss, unknown).Ok()
    ensures SkusRec([], unknown).Encoded() == EncodeRecs(unknown)
    ensures SkusRec(ss, unknown).Encoded() == StrsField(1, ss) + EncodeRecs(unknown)
    ensures StrsField(1, ss + [s]) == StrsField(1, ss) + ([10] + EncodeVarint(|s|) + s)
  {
    StrsFieldAppend(1, ss, s);
    ShortRecords(1, 0, s);
  }

  // ----------------------------------------------------------- maps, in order

  /** An entry of the map of counts: always a key and a count. */
  function CountBytes(key: Bytes, count: int): Bytes {
    var entry := [10] + EncodeVarint(|key|) + key + ([16] + EncodeVarint(count % 18446744073709551616));
    [34] + EncodeVarint(|entry|) + entry
  }

  lemma CountEntryWritten(key: Bytes, count: int)
    requires -TWO_TO_31 <= count < TWO_TO_31
    ensures CountEntry(4, key, count) == CountBytes(key, count)
  {
    InSixtyFourBits(count);
    CountEntryOf(key, count, ToVarint(count));
  }

  lemma CountEntryOf(key: Bytes, count: int, n: nat)
    requires -TWO_TO_31 <= count < TWO_TO_31 && n == ToVarint(count)
    ensures var entry := [10] + EncodeVarint(|key|) + key + ([16] + EncodeVarint(n));
      CountEntry(4, key, count) == [34] + EncodeVarint(|entry|) + entry
  {
    hide EncodeRec, EncodeVarint, ToVarint;
    ShortRecords(1, 0, key);
    ShortRecords(2, n, []);
    ShortRecords(4, 0, EncodeRec(Len(1, key)) + EncodeRec(Varint(2, n)));
  }

  lemma {:induction false} CountsSplit(counts: map<Bytes, int>, a: seq<Bytes>, b: seq<Bytes>)
    requires CountsOk(counts) && (forall i :: 0 <= i < |a| ==> a[i] in counts) && forall i :: 0 <= i < |b| ==> b[i] in counts
    ensures CountsField(4, counts, a + b) == CountsField(4, counts, a) + CountsField(4, counts, b)
  {
    hide CountEntry;
    if |a| == 0 {
      assert a + b == b;
    } else {
      assert (a + b)[1..] == a[1..] + b;
      CountsSplit(counts, a[1..], b);
      Assoc(CountEntry(4, a[0], counts[a[0]]), CountsField(4, counts, a[1..]), CountsField(4, counts, b));
    }
  }

  /** The report: the fields by their numbers, and in place of the map its entries as they are listed. */
  lemma ReportWritten(v: ReportRec, keys: seq<Bytes>)
    requires v.Ok() && forall i :: 0 <= i < |keys| ==> keys[i] in v.processedItems
    ensures v.Encoded(keys) == Text(10, v.orderId) + Text(26, v.status) + CountsField(4, v.processedItems, keys)
                               + Text(42, v.orderType) + EncodeRecs(v.unknown)
    ensures |keys| == 0 ==> CountsField(4, v.processedItems, keys) == []
  {
    hide StrField, Text;
    TextField(1, v.orderId);
    TextField(3, v.status);
    TextField(5, v.orderType);
  }

  /** Of two keys the one listed first is written first. */
  lemma CountsInOrder(counts: map<Bytes, int>, keys: seq<Bytes>, i: nat, j: nat)
    requires CountsOk(counts) && i < j < |keys| && forall k :: 0 <= k < |keys| ==> keys[k] in counts
    ensures CountsField(4, counts, keys)
         == CountsField(4, counts, keys[..i]) + CountBytes(keys[i], counts[keys[i]])
            + CountsField(4, counts, keys[i + 1..j]) + CountBytes(keys[j], counts[keys[j]]) + CountsField(4, counts, keys[j + 1..])
  {
    hide CountsField, CountEntry, CountBytes;
    var a, b, c := keys[..i], keys[i + 1..j], keys[j + 1..];
    assert keys == a + [keys[i]] + b + [keys[j]] + c;
    OneCount(counts, keys[i]);
    OneCount(counts, keys[j]);
    CountsSplit(counts, a, [keys[i]]);
    CountsSplit(counts, a + [keys[i]], b);
    CountsSplit(counts, a + [keys[i]] + b, [keys[j]]);
    CountsSplit(counts, a + [keys[i]] + b + [keys[j]], c);
  }

  lemma OneCount(counts: map<Bytes, int>, key: Bytes)
    requires CountsOk(counts) && key in counts
    ensures CountsField(4, counts, [key]) == CountBytes(key, counts[key])
  {
    CountEntryWritten(key, counts[key]);
    hide CountEntry, CountBytes;
    assert [key][1..] == [];
  }

  /** In deterministic mode, whatever order the map is walked in, the smaller key is written first. */
  lemma SmallerCountFirst(v: ReportRec, walk: seq<Bytes>, key: Bytes, key': Bytes) returns (a: Bytes, b: Bytes, c: Bytes)
    requires v.Ok() && Enumerates(walk, v.processedItems.Keys) && key in v.processedItems && key' in v.processedItems && KeyLess(key, key')
    ensures ReportBytes(v, true, walk)
         == a + CountBytes(key, v.processedItems[key]) + b + CountBytes(key', v.processedItems[key']) + c
  {
    hide ReportRec.Ok, CountsField, CountBytes, Text, KeyLess;
    var i, j := SmallerFirst(walk, v.processedItems.Keys, key, key');
    a, b, c := CountsPlaced(v, SortKeys(walk), i, j);
  }

  /** Otherwise the entries are written as the map is walked. */
  lemma EarlierCountFirst(v: ReportRec, walk: seq<Bytes>, i: nat, j: nat) returns (a: Bytes, b: Bytes, c: Bytes)
    requires v.Ok() && Enumerates(walk, v.processedItems.Keys) && i < j < |walk|
    ensures ReportBytes(v, false, walk)
         == a + CountBytes(walk[i], v.processedItems[walk[i]]) + b + CountBytes(walk[j], v.processedItems[walk[j]]) + c
  {
    hide ReportRec.Ok, CountsField, CountBytes, Text;
    a, b, c := CountsPlaced(v, walk, i, j);
  }

  lemma CountsPlaced(v: ReportRec, keys: seq<Bytes>, i: nat, j: nat) returns (a: Bytes, b: Bytes, c: Bytes)
    requires v.Ok() && i < j < |keys| && forall k :: 0 <= k < |keys| ==> keys[k] in v.processedItems
    ensures v.Encoded(keys) == a + CountBytes(keys[i], v.processedItems[keys[i]]) + b + CountBytes(keys[j], v.processedItems[keys[j]]) + c
  {
    hide CountsField, CountBytes, Text, EncodeRecs;
    var counts := v.processedItems;
    ReportWritten(v, keys);
    CountsInOrder(counts, keys, i, j);
    a := Text(10, v.orderId) + Text(26, v.status) + CountsField(4, counts, keys[..i]);
    b := CountsField(4, counts, keys[i + 1..j]);
    c := CountsField(4, counts, keys[j + 1..]) + Text(42, v.orderType) + EncodeRecs(v.unknown);
  }

  /** An entry of the map of levels: always a key and a level, behind the sizes that are cached. */
  function LevelBytes(key: Bytes, level: StockLevelRec, size: nat): Bytes
    requires level.Ok()
  {
    [10] + EncodeVarint(2 + VarintSize(|key|) + |key| + VarintSize(size) + size)
    + ([10] + EncodeVarint(|key|) + key + ([18] + EncodeVarint(size) + level.Encoded()))
  }

  lemma LevelEntryWritten(key: Bytes, level: StockLevelRec, size: nat)
    requires level.Ok()
    ensures StockEntryWith(1, key, level, size) == LevelBytes(key, level, size)
    ensures StockEntry(1, key, level) == LevelBytes(key, level, |level.Encoded()|)
  {
    hide StockLevelRec.Encoded, VarintSize;
    EntryRecord(1, key, level);
    hide StockEntry;
    ShortRecords(1, 0, key);
    SmallTag(10);
    SmallTag(18);
  }

  /** From any cached sizes: the entries one behind the other. */
  lemma LevelsWritten(stock: map<Bytes, StockLevelRec>, sizes: map<Bytes, nat>, keys: seq<Bytes>, key: Bytes, unknown: seq<Rec>)
    requires AvailabilityRec(stock, unknown).Ok() && sizes.Keys == stock.Keys && key in stock
    requires forall i :: 0 <= i < |keys| ==> keys[i] in stock
    ensures stock[key].Ok() && AvailabilityWith(AvailabilityRec(stock, unknown), sizes, []) == EncodeRecs(unknown)
    ensures AvailabilityWith(AvailabilityRec(stock, unknown), sizes, keys) == StockFieldWith(1, stock, sizes, keys) + EncodeRecs(unknown)
    ensures StockFieldWith(1, stock, sizes, keys + [key]) == StockFieldWith(1, stock, sizes, keys) + LevelBytes(key, stock[key], sizes[key])
  {
    hide LevelBytes, StockEntryWith, StockLevelRec.Ok;
    StockFieldWithAppend(1, stock, sizes, keys, key);
    LevelEntryWritten(key, stock[key], sizes[key]);
  }

  lemma {:induction false} LevelsSplit(stock: map<Bytes, StockLevelRec>, a: seq<Bytes>, b: seq<Bytes>)
    requires StockOk(stock) && (forall i :: 0 <= i < |a| ==> a[i] in stock) && forall i :: 0 <= i < |b| ==> b[i] in stock
    ensures StockField(1, stock, a + b) == StockField(1, stock, a) + StockField(1, stock, b)
  {
    hide StockEntry, StockLevelRec.Ok;
    if |a| == 0 {
      assert a + b == b;
    } else {
      assert (a + b)[1..] == a[1..] + b;
      LevelsSplit(stock, a[1..], b);
      Assoc(StockEntry(1, a[0], stock[a[0]]), StockField(1, stock, a[1..]), StockField(1, stock, b));
    }
  }

  lemma OneLevel(stock: map<Bytes, StockLevelRec>, key: Bytes)
    requires StockOk(stock) && key in stock
    ensures stock[key].Ok() && StockField(1, stock, [key]) == LevelBytes(key, stock[key], |stock[key].Encoded()|)
  {
    hide StockEntry, LevelBytes, StockLevelRec.Encoded;
    LevelEntryWritten(key, stock[key], |stock[key].Encoded()|);
    assert [key][1..] == [];
  }

  lemma LevelsPlaced(v: AvailabilityRec, keys: seq<Bytes>, i: nat, j: nat) returns (a: Bytes, b: Bytes, c: Bytes)
    requires v.Ok() && i < j < |keys| && forall k :: 0 <= k < |keys| ==> keys[k] in v.items
    ensures v.items[keys[i]].Ok() && v.items[keys[j]].Ok()
    ensures v.Encoded(keys) == a + LevelBytes(keys[i], v.items[keys[i]], |v.items[keys[i]].Encoded()|)
                               + b + LevelBytes(keys[j], v.items[keys[j]], |v.items[keys[j]].Encoded()|) + c
  {
    hide StockField, StockEntry, LevelBytes, StockLevelRec.Encoded, StockLevelRec.Ok, EncodeRecs;
    var x, y, z, stock := keys[..i], keys[i + 1..j], keys[j + 1..], v.items;
    assert keys == x + [keys[i]] + y + [keys[j]] + z;
    OneLevel(stock, keys[i]);
    OneLevel(stock, keys[j]);
    LevelsSplit(stock, x, [keys[i]]);
    LevelsSplit(stock, x + [keys[i]], y);
    LevelsSplit(stock, x + [keys[i]] + y, [keys[j]]);
    LevelsSplit(stock, x + [keys[i]] + y + [keys[j]], z);
    a, b, c := StockField(1, stock, x), StockField(1, stock, y), StockField(1, stock, z) + EncodeRecs(v.unknown);
  }

  lemma SmallerLevelFirst(v: AvailabilityRec, walk: seq<Bytes>, key: Bytes, key': Bytes) returns (a: Bytes, b: Bytes, c: Bytes)
    requires v.Ok() && Enumerates(walk, v.items.Keys) && key in v.items && key' in v.items && KeyLess(key, key')
    ensures v.items[key].Ok() && v.items[key'].Ok()
    ensures AvailabilityBytes(v, true, walk) == a + LevelBytes(key, v.items[key], |v.items[key].Encoded()|)
                                                + b + LevelBytes(key', v.items[key'], |v.items[key'].Encoded()|) + c
  {
    hide AvailabilityRec.Ok, AvailabilityRec.Encoded, LevelBytes, KeyLess, StockLevelRec.Encoded, StockLevelRec.Ok;
    var i, j := SmallerFirst(walk, v.items.Keys, key, key');
    a, b, c := LevelsPlaced(v, SortKeys(walk), i, j);
  }

  lemma EarlierLevelFirst(v: AvailabilityRec, walk: seq<Bytes>, i: nat, j: nat) returns (a: Bytes, b: Bytes, c: Bytes)
    requires v.Ok() && Enumerates(walk, v.items.Keys) && i < j < |walk|
    ensures v.items[walk[i]].Ok() && v.items[walk[j]].Ok()
    ensures AvailabilityBytes(v, false, walk) == a + LevelBytes(walk[i], v.items[walk[i]], |v.items[walk[i]].Encoded()|)
                                                 + b + LevelBytes(walk[j], v.items[walk[j]], |v.items[walk[j]].Encoded()|) + c
  {
    hide AvailabilityRec.Ok, AvailabilityRec.Encoded, LevelBytes, StockLevelRec.Encoded, StockLevelRec.Ok;
    a, b, c := LevelsPlaced(v, walk, i, j);
  }
}
