/**
 Table-driven parsing: how the generated parse tables pick the field a tag
 belongs to, quickly for tags of one byte and by rank for all others, and that
 both ways pick the field the schema names.
 */
module ParseTable {
  import opened Wire
  import opened Message
  import opened Inventory

  // ----------------------------------------------------------- bit patterns

  function Pow2(n: nat): (p: nat)
    ensures p > 0
  {
    if n == 0 then 1 else 2 * Pow2(n - 1)
  }

  /** Bitwise and of two unsigned words. */
  function And(a: nat, b: nat): (r: nat)
    ensures r <= a && r <= b
    decreases a
  {
    if a == 0 || b == 0 then 0 else 2 * And(a / 2, b / 2) + (a % 2) * (b % 2)
  }

  function PopCount(a: nat): nat {
    if a == 0 then 0 else a % 2 + PopCount(a / 2)
  }

  /** Bit `k` of a word. */
  function Bit(a: nat, k: nat): nat {
    if k == 0 then a % 2 else Bit(a / 2, k - 1)
  }

  /** How many of the lowest `k` bits are set. */
  function OnesBelow(a: nat, k: nat): (n: nat)
    ensures n <= k
  {
    if k == 0 then 0 else a % 2 + OnesBelow(a / 2, k - 1)
  }

  lemma {:induction false} AndPow2(a: nat, k: nat)
    ensures And(a, Pow2(k)) != 0 <==> Bit(a, k) == 1
  {
    if k == 0 {
      if a != 0 { assert And(a / 2, 0) == 0; }
    } else if a != 0 {
      assert Pow2(k) / 2 == Pow2(k - 1) && Pow2(k) % 2 == 0;
      AndPow2(a / 2, k - 1);
    } else {
      BitOfZero(k);
    }
  }

  lemma {:induction false} BitOfZero(k: nat)
    ensures Bit(0, k) == 0 && OnesBelow(0, k) == 0
  {
    if k > 0 { BitOfZero(k - 1); }
  }

  lemma PopCountDouble(x: nat, bit: nat)
    requires bit < 2
    ensures PopCount(2 * x + bit) == PopCount(x) + bit
  {
    assert (2 * x + bit) / 2 == x && (2 * x + bit) % 2 == bit;
  }

  /** Taking the bits one by one, a mask of ones keeps the lowest. */
  lemma AndMask(a: nat, half: nat)
    ensures And(a, 2 * half + 1) == 2 * And(a / 2, half) + a % 2
  {
    assert (2 * half + 1) / 2 == half && (2 * half + 1) % 2 == 1;
  }

  lemma MaskDouble(k: nat)
    requires k > 0
    ensures Pow2(k) - 1 == 2 * (Pow2(k - 1) - 1) + 1
  {
  }

  lemma PopCountNothing(a: nat, k: nat)
    requires a == 0 || k == 0
    ensures PopCount(And(a, Pow2(k) - 1)) == OnesBelow(a, k) == 0
  {
    BitOfZero(k);
  }

  lemma {:induction false} PopCountBelow(a: nat, k: nat)
    ensures PopCount(And(a, Pow2(k) - 1)) == OnesBelow(a, k)
  {
    hide And, PopCount, Pow2;
    if a == 0 || k == 0 {
      PopCountNothing(a, k);
    } else {
      var half := Pow2(k - 1) - 1;
      PopCountBelow(a / 2, k - 1);
      MaskDouble(k);
      AndMask(a, half);
      PopCountDouble(And(a / 2, half), a % 2);
    }
  }

  lemma {:induction false} AllOnes(n: nat, k: nat)
    requires k < n
    ensures Bit(Pow2(n) - 1, k) == 1
  {
    assert (Pow2(n) - 1) / 2 == Pow2(n - 1) - 1;
    if k > 0 { AllOnes(n - 1, k - 1); }
  }

  // ----------------------------------------------------------------- tables

  /** A slot of the fast table: nothing, or the one-byte tag it accepts and where that field is kept. */
  datatype FastEntry = MiniParse | Fast(tag: nat, hasBit: nat, aux: nat, field: nat)

  datatype FieldEntry = FieldEntry(field: nat, hasBit: nat, aux: nat, wireType: nat)

  /** The entries are in the order of the field numbers that `skipmap` does not skip. */
  datatype Table = Table(mask: nat, fast: seq<FastEntry>, skipmap: nat, entries: seq<FieldEntry>)

  datatype Target = Unknown | Known(field: nat, hasBit: nat, aux: nat)

  function FastIndex(t: Table, word: nat): nat {
    And(word, t.mask) / 8
  }

  function FastTarget(t: Table, first: Byte): Target {
    var x := FastIndex(t, first);
    if x < |t.fast| && t.fast[x].Fast? && t.fast[x].tag == first
      then Known(t.fast[x].field, t.fast[x].hasBit, t.fast[x].aux)
      else Unknown
  }

  /** Finds a field by its rank among the numbers up to 32; there are none above. */
  function FindEntry(t: Table, num: nat): Option<FieldEntry> {
    if num == 0 || num > 32 || And(t.skipmap, Pow2(num - 1)) != 0 then None
    else
      var rank := num - 1 - PopCount(And(t.skipmap, Pow2(num - 1) - 1));
      if 0 <= rank < |t.entries| then Some(t.entries[rank]) else None
  }

  function SlowTarget(t: Table, tag: nat): Target {
    match FindEntry(t, tag / 8)
    case None => Unknown
    case Some(e) => if e.wireType == tag % 8 then Known(e.field, e.hasBit, e.aux) else Unknown
  }

  function Dispatched(t: Table, bs: Bytes): Read<Target> {
    if bs != [] && FastTarget(t, bs[0]).Known? then Got(FastTarget(t, bs[0]), bs[1..])
    else match ReadTag(bs)
         case Fail => Fail
         case Got(tag, rest) => Got(SlowTarget(t, tag), rest)
  }

  // ------------------------------------------------- what a table must hold

  /** The i-th entry is the i-th field of the schema. */
  predicate EntriesFit(t: Table, s: Schema) {
    && |t.entries| == |s.fields|
    && forall i :: 0 <= i < |s.fields| ==>
         t.entries[i].field == i && t.entries[i].wireType == KindWireType(s.fields[i].kind) && 1 <= s.fields[i].num <= 32
  }

  /** The skip map has a clear bit just for the numbers in use, and ranks each at its field. */
  ghost predicate SkipsFit(t: Table, s: Schema) {
    && (forall i :: 0 <= i < |s.fields| ==>
          var num := s.fields[i].num; num > 0 && Bit(t.skipmap, num - 1) == 0 && num - 1 - OnesBelow(t.skipmap, num - 1) == i)
    && (forall k :: 0 <= k < 32 && Bit(t.skipmap, k) == 0 ==> FindField(s, k + 1, 0).Some?)
  }

  predicate FastFits(t: Table, s: Schema) {
    forall x :: 0 <= x < |t.fast| ==> FastEntryFits(t, s, t.fast[x], x)
  }

  /** A fast entry agrees with the entry of its field and sits where its tag leads. */
  predicate FastEntryFits(t: Table, s: Schema, e: FastEntry, x: nat) {
    e.Fast? ==>
      && e.field < |s.fields| && e.field < |t.entries|
      && e.tag == s.fields[e.field].num * 8 + t.entries[e.field].wireType < 128
      && e.hasBit == t.entries[e.field].hasBit && e.aux == t.entries[e.field].aux
      && FastIndex(t, e.tag) == x
  }

  ghost predicate Fits(t: Table, s: Schema) {
    ValidSchema(s) && EntriesFit(t, s) && SkipsFit(t, s) && FastFits(t, s)
  }

  lemma FitsEntries(t: Table, s: Schema)
    requires Fits(t, s)
    ensures EntriesFit(t, s)
  {
  }

  // -------------------------------------------------------------- dispatch

  lemma FindEntryFinds(t: Table, s: Schema, num: nat)
    requires Fits(t, s)
    ensures FindEntry(t, num)
         == if FindField(s, num, 0).Some? then Some(t.entries[FindField(s, num, 0).value]) else None
  {
    hide And, PopCount, Bit, OnesBelow, Pow2, FindField, ValidSchema, FastFits, KindWireType;
    if 1 <= num <= 32 {
      AndPow2(t.skipmap, num - 1);
      PopCountBelow(t.skipmap, num - 1);
      BitIsBit(t.skipmap, num - 1);
      if FindField(s, num, 0).Some? {
        RankOfField(t, s, FindField(s, num, 0).value);
      } else {
        assert Bit(t.skipmap, num - 1) != 0;
      }
    } else if FindField(s, num, 0).Some? {
      RankOfField(t, s, FindField(s, num, 0).value);
    }
  }

  lemma RankOfField(t: Table, s: Schema, i: nat)
    requires EntriesFit(t, s) && SkipsFit(t, s) && i < |s.fields|
    ensures i < |t.entries| && 1 <= s.fields[i].num <= 32 && Bit(t.skipmap, s.fields[i].num - 1) == 0
    ensures s.fields[i].num - 1 - OnesBelow(t.skipmap, s.fields[i].num - 1) == i
  {
    hide Bit, OnesBelow, KindWireType;
  }

  lemma {:induction false} BitIsBit(a: nat, k: nat)
    ensures Bit(a, k) == 0 || Bit(a, k) == 1
  {
    if k > 0 { BitIsBit(a / 2, k - 1); }
  }

  /** The field of the schema that accepts the record, with its has-bit and auxiliary entry. */
  function Wanted(t: Table, s: Schema, r: Rec): Target
    requires EntriesFit(t, s)
  {
    match Slot(s, r)
    case None => Unknown
    case Some(i) => Known(i, t.entries[i].hasBit, t.entries[i].aux)
  }

  /** The slow path picks the field the schema names, its has-bit and its auxiliary entry. */
  lemma SlowIsSlot(t: Table, s: Schema, r: Rec)
    requires Fits(t, s)
    ensures SlowTarget(t, r.num * 8 + WireType(r))
         == Wanted(t, s, r)
  {
    hide FindEntry, FindField, SkipsFit, FastFits, ValidSchema;
    TagParts(r.num, WireType(r));
    FindEntryFinds(t, s, r.num);
  }

  lemma TagParts(num: nat, wireType: nat)
    requires wireType < 8
    ensures (num * 8 + wireType) / 8 == num && (num * 8 + wireType) % 8 == wireType
  {
  }

  /** The tag of a record is made of its number and its type. */
  lemma TagOfOne(bs: Bytes)
    requires ReadOne(bs).Got?
    ensures ReadTag(bs).Got? && ReadTag(bs).value == ReadOne(bs).value.num * 8 + WireType(ReadOne(bs).value)
  {
    hide ReadTag, ReadVarint, ReadFixed, ReadLen, ReadRecs;
    var tag := ReadTag(bs).value;
    assert tag == tag / 8 * 8 + tag % 8;
  }

  /** A byte the fast table accepts is a whole tag, and the slow path would pick the same. */
  lemma FastIsSlow(t: Table, s: Schema, bs: Bytes)
    requires Fits(t, s) && bs != [] && FastTarget(t, bs[0]).Known?
    ensures ReadTag(bs) == Got(bs[0], bs[1..])
    ensures FastTarget(t, bs[0]) == SlowTarget(t, bs[0])
  {
    hide And, FindEntry, FindField, SkipsFit;
    var e := t.fast[FastIndex(t, bs[0])];
    var i := e.field;
    assert FastEntryFits(t, s, e, FastIndex(t, bs[0]));
    hide FastIndex, FastFits;
    FindEntryFinds(t, s, s.fields[i].num);
    FindOnly(s, i);
    assert bs[0] / 8 == s.fields[i].num && bs[0] % 8 == t.entries[i].wireType;
  }

  lemma FindOnly(s: Schema, i: nat)
    requires ValidSchema(s) && i < |s.fields|
    ensures FindField(s, s.fields[i].num, 0) == Some(i)
  {
    var found := FindField(s, s.fields[i].num, 0);
    match found
    case None =>
    case Some(j) => assert j < i || j == i || i < j;
  }

  /** Whatever the input, fast and slow path together decode the tag and pick as the slow path alone does. */
  lemma DispatchIsSlow(t: Table, s: Schema, bs: Bytes)
    requires Fits(t, s)
    ensures Dispatched(t, bs)
         == match ReadTag(bs) case Fail => Fail case Got(tag, rest) => Got(SlowTarget(t, tag), rest)
  {
    if bs != [] && FastTarget(t, bs[0]).Known? { FastIsSlow(t, s, bs); }
  }

  /** Every record that can be read is dispatched to the field that accepts it. */
  lemma DispatchIsSlot(t: Table, s: Schema, bs: Bytes)
    requires Fits(t, s) && ReadOne(bs).Got?
    ensures Dispatched(t, bs).Got?
    ensures Dispatched(t, bs).value == Wanted(t, s, ReadOne(bs).value)
  {
    hide Fits, Dispatched, ReadOne, ReadTag, SlowTarget, Wanted, Slot;
    DispatchIsSlow(t, s, bs);
    TagOfOne(bs);
    SlowIsSlot(t, s, ReadOne(bs).value);
  }

  /**
   Looks at the first byte, and decodes the tag only when the fast table does not
   accept it.  Fails only where the tag cannot be read, leaves what is behind the
   tag, and picks the field of the schema that accepts the record.
   */
  method Dispatch(t: Table, ghost s: Schema, bs: Bytes) returns (r: Read<Target>)
    requires Fits(t, s)
    ensures r.Fail? <==> ReadTag(bs).Fail?
    ensures r.Got? ==> r.rest == ReadTag(bs).rest
    ensures r.Got? ==> r.value == SlowTarget(t, ReadTag(bs).value)
    ensures ReadOne(bs).Got? ==> r.Got? && r.value == Wanted(t, s, ReadOne(bs).value)
  {
    hide SkipsFit, FastFits, FindEntry, Slot, FastIndex;
    if ReadOne(bs).Got? { DispatchIsSlot(t, s, bs); }
    if |bs| == 0 { return Fail; }
    var target := FastTarget(t, bs[0]);
    if target.Known? {
      FastIsSlow(t, s, bs);
      return Got(target, bs[1..]);
    }
    var tag := ReadTag(bs);
    r := if tag.Fail? then Fail else Got(SlowTarget(t, tag.value), tag.rest);
  }

  /** A field is on the fast path when the fast table has an entry for it. */
  predicate OnFastPath(t: Table, s: Schema, i: nat)
    requires i < |s.fields|
  {
    exists x :: 0 <= x < |t.fast| && t.fast[x].Fast? && t.fast[x].field == i
  }

  /** Then its one-byte tag is accepted by the fast table: no such field falls through to the slow path. */
  lemma FastPathTaken(t: Table, s: Schema, i: nat, rest: Bytes)
    requires Fits(t, s) && i < |s.fields| && OnFastPath(t, s, i)
    ensures var tag := s.fields[i].num * 8 + KindWireType(s.fields[i].kind);
            tag < 128 && FastTarget(t, tag) == Known(i, t.entries[i].hasBit, t.entries[i].aux)
            && Dispatched(t, [tag] + rest) == Got(FastTarget(t, tag), rest)
  {
    var tag := s.fields[i].num * 8 + KindWireType(s.fields[i].kind);
    assert tag < 128;
    assert ([tag] + rest)[0] == tag && ([tag] + rest)[1..] == rest;
  }

  // ------------------------------------------------------ the message tables

  const RESTOCK_ITEM_TABLE := Table(
    56,
    [MiniParse, Fast(10, 0, 0, 0), Fast(18, 1, 0, 1), Fast(26, 2, 0, 2), Fast(32, 6, 0, 3), Fast(41, 5, 0, 4),
     Fast(50, 3, 0, 5), Fast(58, 4, 1, 6)],
    4294967168,
    [FieldEntry(0, 0, 0, WT_LEN), FieldEntry(1, 1, 0, WT_LEN), FieldEntry(2, 2, 0, WT_LEN), FieldEntry(3, 6, 0, WT_VARINT),
     FieldEntry(4, 5, 0, WT_FIXED64), FieldEntry(5, 3, 0, WT_LEN), FieldEntry(6, 4, 1, WT_LEN)])

  const RESTOCK_REQUEST_TABLE := Table(
    8,
    [Fast(18, 0, 0, 1), Fast(10, 1, 0, 0)],
    4294967292,
    [FieldEntry(0, 1, 0, WT_LEN), FieldEntry(1, 0, 0, WT_LEN)])

  const REPORT_TABLE := Table(
    56,
    [MiniParse, Fast(10, 0, 0, 0), MiniParse, Fast(26, 1, 0, 1), MiniParse, Fast(42, 2, 0, 3), MiniParse, MiniParse],
    4294967266,
    [FieldEntry(0, 0, 0, WT_LEN), FieldEntry(1, 1, 0, WT_LEN), FieldEntry(2, 3, 0, WT_LEN), FieldEntry(3, 2, 0, WT_LEN)])

  const STOCK_LEVEL_TABLE := Table(
    24,
    [Fast(32, 3, 0, 3), Fast(10, 0, 0, 0), Fast(18, 1, 0, 1), Fast(26, 2, 0, 2)],
    4294967280,
    [FieldEntry(0, 0, 0, WT_LEN), FieldEntry(1, 1, 0, WT_LEN), FieldEntry(2, 2, 0, WT_LEN), FieldEntry(3, 3, 0, WT_VARINT)])

  const PROCESSED_ENTRY_TABLE := Table(
    8,
    [Fast(16, 1, 0, 1), Fast(10, 0, 0, 0)],
    4294967292,
    [FieldEntry(0, 0, 0, WT_LEN), FieldEntry(1, 1, 0, WT_VARINT)])

  const ITEMS_ENTRY_TABLE := Table(
    8,
    [Fast(18, 1, 0, 1), Fast(10, 0, 0, 0)],
    4294967292,
    [FieldEntry(0, 0, 0, WT_LEN), FieldEntry(1, 1, 0, WT_LEN)])

  const AVAILABILITY_RESPONSE_TABLE := Table(0, [MiniParse], 4294967294, [FieldEntry(0, 0, 0, WT_LEN)])

  const AVAILABILITY_REQUEST_TABLE := Table(0, [Fast(10, 0, 0, 0)], 4294967294, [FieldEntry(0, 0, 0, WT_LEN)])

  /** The word shifted right. */
  function Shifted(a: nat, n: nat): nat {
    if n == 0 then a else Shifted(a / 2, n - 1)
  }

  /** Above the numbers in use, a skip map is all ones up to bit 31. */
  lemma {:induction false} BitsAbove(a: nat, n: nat, high: nat, k: nat)
    requires n <= k < n + high && Shifted(a, n) == Pow2(high) - 1
    ensures Bit(a, k) == 1
    decreases n
  {
    if n == 0 {
      AllOnes(high, k);
    } else {
      BitsAbove(a / 2, n - 1, high, k - 1);
    }
  }

  lemma BigPowers()
    ensures Pow2(25) == 0x200_0000 && Pow2(27) == 0x800_0000 && Pow2(28) == 0x1000_0000
    ensures Pow2(30) == 0x4000_0000 && Pow2(31) == 0x8000_0000
  {
    assert Pow2(8) == 256;
    assert Pow2(16) == 256 * Pow2(8);
    assert Pow2(24) == 256 * Pow2(16);
    assert Pow2(28) == 16 * Pow2(24);
  }

  lemma RestockItemSkips()
    ensures forall k :: 0 <= k < 7 ==> Bit(4294967168, k) == 0 && OnesBelow(4294967168, k) == 0
    ensures forall k :: 7 <= k < 32 ==> Bit(4294967168, k) == 1
  {
    assert Shifted(4294967168, 7) == 33554431;
    BigPowers();
    forall k | 7 <= k < 32 ensures Bit(4294967168, k) == 1 { BitsAbove(4294967168, 7, 25, k); }
    forall k | 0 <= k < 7 ensures Bit(4294967168, k) == 0 && OnesBelow(4294967168, k) == 0 {
      LowZeros(33554431, 7, k);
      assert 33554431 * Pow2(7) == 4294967168;
    }
  }

  lemma {:induction false} LowZeros(a: nat, n: nat, k: nat)
    requires k < n
    ensures Bit(a * Pow2(n), k) == 0 && OnesBelow(a * Pow2(n), k) == 0
  {
    assert a * Pow2(n) == 2 * (a * Pow2(n - 1));
    if k > 0 { LowZeros(a, n - 1, k - 1); }
  }

  lemma ReportSkips()
    ensures Bit(4294967266, 0) == 0 && Bit(4294967266, 1) == 1 && Bit(4294967266, 2) == 0
    ensures Bit(4294967266, 3) == 0 && Bit(4294967266, 4) == 0
    ensures OnesBelow(4294967266, 0) == 0 && OnesBelow(4294967266, 2) == 1
    ensures OnesBelow(4294967266, 3) == 1 && OnesBelow(4294967266, 4) == 1
    ensures forall k :: 5 <= k < 32 ==> Bit(4294967266, k) == 1
  {
    assert Shifted(4294967266, 5) == 134217727;
    BigPowers();
    forall k | 5 <= k < 32 ensures Bit(4294967266, k) == 1 { BitsAbove(4294967266, 5, 27, k); }
  }

  lemma OthersSkips()
    ensures forall k :: 0 <= k < 2 ==> Bit(4294967292, k) == 0 && OnesBelow(4294967292, k) == 0
    ensures forall k :: 2 <= k < 32 ==> Bit(4294967292, k) == 1
    ensures forall k :: 0 <= k < 4 ==> Bit(4294967280, k) == 0 && OnesBelow(4294967280, k) == 0
    ensures forall k :: 4 <= k < 32 ==> Bit(4294967280, k) == 1
    ensures Bit(4294967294, 0) == 0 && OnesBelow(4294967294, 0) == 0
    ensures forall k :: 1 <= k < 32 ==> Bit(4294967294, k) == 1
  {
    assert Shifted(4294967292, 2) == 1073741823 && Shifted(4294967280, 4) == 268435455 && Shifted(4294967294, 1) == 2147483647;
    BigPowers();
    forall k | 2 <= k < 32 ensures Bit(4294967292, k) == 1 { BitsAbove(4294967292, 2, 30, k); }
    forall k | 4 <= k < 32 ensures Bit(4294967280, k) == 1 { BitsAbove(4294967280, 4, 28, k); }
    forall k | 1 <= k < 32 ensures Bit(4294967294, k) == 1 { BitsAbove(4294967294, 1, 31, k); }
    assert 268435455 * Pow2(4) == 4294967280 && 1073741823 * Pow2(2) == 4294967292;
    forall k | 0 <= k < 4 ensures Bit(4294967280, k) == 0 && OnesBelow(4294967280, k) == 0 { LowZeros(268435455, 4, k); }
    forall k | 0 <= k < 2 ensures Bit(4294967292, k) == 0 && OnesBelow(4294967292, k) == 0 { LowZeros(1073741823, 2, k); }
  }

  /** Fields numbered 1 to n without a gap need a skip map of n clear bits and then ones. */
  lemma DenseSkips(t: Table, s: Schema)
    requires ValidSchema(s) && |s.fields| <= 32 && forall i :: 0 <= i < |s.fields| ==> s.fields[i].num == i + 1
    requires forall k :: 0 <= k < |s.fields| ==> Bit(t.skipmap, k) == 0 && OnesBelow(t.skipmap, k) == 0
    requires forall k :: |s.fields| <= k < 32 ==> Bit(t.skipmap, k) == 1
    ensures SkipsFit(t, s)
  {
    hide Bit, OnesBelow, ValidSchema;
    forall k | 0 <= k < 32 && Bit(t.skipmap, k) == 0
      ensures FindField(s, k + 1, 0).Some?
    {
      assert s.fields[k].num == k + 1;
      FindOnly(s, k);
    }
  }

  lemma RestockItemFast()
    ensures FastFits(RESTOCK_ITEM_TABLE, RESTOCK_ITEM)
  {
    hide FastEntryFits;
    forall x | 1 <= x < 8
      ensures FastEntryFits(RESTOCK_ITEM_TABLE, RESTOCK_ITEM, RESTOCK_ITEM_TABLE.fast[x], x)
    {
      if x <= 4 { RestockItemFastLow(x); } else { RestockItemFastHigh(x); }
    }
    assert RESTOCK_ITEM_TABLE.fast[0] == MiniParse;
    assert FastEntryFits(RESTOCK_ITEM_TABLE, RESTOCK_ITEM, MiniParse, 0) by { FastNothing(RESTOCK_ITEM_TABLE, RESTOCK_ITEM, 0); }
  }

  lemma FastNothing(t: Table, s: Schema, x: nat)
    ensures FastEntryFits(t, s, MiniParse, x)
  {
  }

  lemma AndDouble(a: nat, m: nat)
    ensures And(a, 2 * m) == 2 * And(a / 2, m)
  {
    assert (2 * m) / 2 == m && (2 * m) % 2 == 0;
  }

  lemma AndNothing(a: nat)
    ensures And(a, 0) == 0
  {
  }

  lemma Remainders(q: nat, r: nat)
    ensures r < 8 ==> (8 * q + r) % 8 == r
    ensures r < 4 ==> (4 * q + r) % 4 == r
  {
  }

  lemma Halved(x: nat) returns (half: nat, bit: nat)
    ensures half == x / 2 && bit == x % 2 && x == 2 * half + bit && bit < 2
  {
    half, bit := x / 2, x % 2;
  }

  lemma LowBits(b: nat)
    ensures b % 8 == 4 * (b / 2 / 2 % 2) + 2 * (b / 2 % 2) + b % 2 && b % 4 == 2 * (b / 2 % 2) + b % 2
  {
    var c, b0 := Halved(b);
    var d, c0 := Halved(c);
    var e, d0 := Halved(d);
    Remainders(e, 4 * d0 + 2 * c0 + b0);
    Remainders(d, 2 * c0 + b0);
    assert b == 8 * e + (4 * d0 + 2 * c0 + b0) == 4 * d + (2 * c0 + b0);
  }

  /** Masks of ones take a remainder. */
  lemma AndSmall(b: nat)
    ensures And(b, 1) == b % 2 && And(b, 3) == b % 4 && And(b, 7) == b % 8
  {
    hide And;
    AndMask(b, 3);
    AndMask(b, 1);
    AndMask(b, 0);
    AndMask(b / 2, 1);
    AndMask(b / 2, 0);
    AndMask(b / 2 / 2, 0);
    AndNothing(b / 2);
    AndNothing(b / 2 / 2);
    AndNothing(b / 2 / 2 / 2);
    LowBits(b);
  }

  lemma Eighth(a: nat)
    ensures a / 2 / 2 / 2 == a / 8
  {
  }

  /** A mask of the bits from the third on is one of the field number. */
  lemma AndEights(a: nat, m: nat)
    ensures And(a, 8 * m) == 8 * And(a / 8, m)
  {
    hide And;
    AndDouble(a, 4 * m);
    AndDouble(a / 2, 2 * m);
    AndDouble(a / 2 / 2, m);
    Eighth(a);
  }

  /** The masks of the fast tables keep the low bits of the field number. */
  lemma AndField(a: nat)
    ensures And(a, 8) == 8 * (a / 8 % 2) && And(a, 24) == 8 * (a / 8 % 4) && And(a, 56) == 8 * (a / 8 % 8)
  {
    hide And;
    AndEights(a, 1);
    AndEights(a, 3);
    AndEights(a, 7);
    AndSmall(a / 8);
  }

  lemma RestockItemFastLow(x: nat)
    requires 1 <= x <= 4
    ensures FastEntryFits(RESTOCK_ITEM_TABLE, RESTOCK_ITEM, RESTOCK_ITEM_TABLE.fast[x], x)
  {
    hide And;
    var t, s := RESTOCK_ITEM_TABLE, RESTOCK_ITEM;
    AndField(10);
    AndField(18);
    AndField(26);
    AndField(32);
    assert FastEntryFits(t, s, Fast(10, 0, 0, 0), 1);
    assert FastEntryFits(t, s, Fast(18, 1, 0, 1), 2);
    assert FastEntryFits(t, s, Fast(26, 2, 0, 2), 3);
    assert FastEntryFits(t, s, Fast(32, 6, 0, 3), 4);
  }

  lemma RestockItemFastHigh(x: nat)
    requires 5 <= x <= 7
    ensures FastEntryFits(RESTOCK_ITEM_TABLE, RESTOCK_ITEM, RESTOCK_ITEM_TABLE.fast[x], x)
  {
    hide And;
    var t, s := RESTOCK_ITEM_TABLE, RESTOCK_ITEM;
    AndField(41);
    AndField(50);
    AndField(58);
    assert FastEntryFits(t, s, Fast(41, 5, 0, 4), 5);
    assert FastEntryFits(t, s, Fast(50, 3, 0, 5), 6);
    assert FastEntryFits(t, s, Fast(58, 4, 1, 6), 7);
  }

  /** Every field of a RestockItem is on the fast path. */
  lemma RestockItemTableFits()
    ensures Fits(RESTOCK_ITEM_TABLE, RESTOCK_ITEM)
    ensures forall i :: 0 <= i < 7 ==> OnFastPath(RESTOCK_ITEM_TABLE, RESTOCK_ITEM, i)
  {
    hide Bit, OnesBelow, FastFits, SkipsFit, ValidSchema;
    var t, s := RESTOCK_ITEM_TABLE, RESTOCK_ITEM;
    RestockItemValid();
    RestockItemSkips();
    DenseSkips(t, s);
    RestockItemFast();
    RestockItemFastPath();
  }

  lemma RestockItemFastPath()
    ensures forall i :: 0 <= i < 7 ==> OnFastPath(RESTOCK_ITEM_TABLE, RESTOCK_ITEM, i)
  {
    var t := RESTOCK_ITEM_TABLE;
    forall i | 0 <= i < 7
      ensures OnFastPath(t, RESTOCK_ITEM, i)
    {
      assert t.fast[i + 1].Fast? && t.fast[i + 1].field == i;
    }
  }

  /** Of a ReportJobStatusRequest every field but the map. */
  lemma ReportTableFits()
    ensures Fits(REPORT_TABLE, REPORT_REQUEST)
    ensures forall i :: 0 <= i < 4 ==> (OnFastPath(REPORT_TABLE, REPORT_REQUEST, i) <==> i != 2)
  {
    hide FastFits, SkipsFit, ValidSchema;
    var t, s := REPORT_TABLE, REPORT_REQUEST;
    ReportRequestValid();
    ReportSkipsFit();
    ReportFast();
    assert t.fast[1].field == 0 && t.fast[3].field == 1 && t.fast[5].field == 3;
  }

  lemma ReportFast()
    ensures FastFits(REPORT_TABLE, REPORT_REQUEST)
  {
    hide And, FastEntryFits;
    var t, s := REPORT_TABLE, REPORT_REQUEST;
    ReportFastEntries();
    forall x | 0 <= x < 8 && x != 1 && x != 3 && x != 5 ensures FastEntryFits(t, s, t.fast[x], x) {
      FastNothing(t, s, x);
    }
  }

  lemma ReportFastEntries()
    ensures FastEntryFits(REPORT_TABLE, REPORT_REQUEST, Fast(10, 0, 0, 0), 1)
    ensures FastEntryFits(REPORT_TABLE, REPORT_REQUEST, Fast(26, 1, 0, 1), 3)
    ensures FastEntryFits(REPORT_TABLE, REPORT_REQUEST, Fast(42, 2, 0, 3), 5)
  {
    hide And;
    AndField(10);
    AndField(26);
    AndField(42);
  }

  lemma ReportSkipsFit()
    ensures SkipsFit(REPORT_TABLE, REPORT_REQUEST)
  {
    hide Bit, OnesBelow, ValidSchema, FindField;
    var t, s := REPORT_TABLE, REPORT_REQUEST;
    ReportSkips();
    ReportRequestValid();
    assert s.fields[0].num == 1 && s.fields[1].num == 3 && s.fields[2].num == 4 && s.fields[3].num == 5;
    FindOnly(s, 0);
    FindOnly(s, 1);
    FindOnly(s, 2);
    FindOnly(s, 3);
  }

  lemma RestockRequestFast()
    ensures FastFits(RESTOCK_REQUEST_TABLE, RESTOCK_REQUEST)
  {
    hide And;
    AndField(10);
    AndField(18);
  }

  lemma RestockRequestTableFits()
    ensures Fits(RESTOCK_REQUEST_TABLE, RESTOCK_REQUEST)
    ensures forall i :: 0 <= i < 2 ==> OnFastPath(RESTOCK_REQUEST_TABLE, RESTOCK_REQUEST, i)
  {
    hide Bit, OnesBelow, SkipsFit, FastFits, ValidSchema;
    var t, s := RESTOCK_REQUEST_TABLE, RESTOCK_REQUEST;
    RestockRequestValid();
    OthersSkips();
    DenseSkips(t, s);
    RestockRequestFast();
    assert t.fast[0].field == 1 && t.fast[1].field == 0;
  }

  lemma EntriesFast()
    ensures FastFits(PROCESSED_ENTRY_TABLE, PROCESSED_ENTRY) && FastFits(ITEMS_ENTRY_TABLE, ITEMS_ENTRY)
  {
    hide And;
    AndField(10);
    AndField(16);
    AndField(18);
  }

  lemma EntriesFastPath()
    ensures forall i :: 0 <= i < 2 ==>
      OnFastPath(PROCESSED_ENTRY_TABLE, PROCESSED_ENTRY, i) && OnFastPath(ITEMS_ENTRY_TABLE, ITEMS_ENTRY, i)
  {
    assert PROCESSED_ENTRY_TABLE.fast[0].field == 1 && PROCESSED_ENTRY_TABLE.fast[1].field == 0;
    assert ITEMS_ENTRY_TABLE.fast[0].field == 1 && ITEMS_ENTRY_TABLE.fast[1].field == 0;
  }

  /** Map entries are parsed as messages of two fields, the key and the value. */
  lemma EntryTablesFit()
    ensures Fits(PROCESSED_ENTRY_TABLE, PROCESSED_ENTRY) && Fits(ITEMS_ENTRY_TABLE, ITEMS_ENTRY)
    ensures forall i :: 0 <= i < 2 ==>
      OnFastPath(PROCESSED_ENTRY_TABLE, PROCESSED_ENTRY, i) && OnFastPath(ITEMS_ENTRY_TABLE, ITEMS_ENTRY, i)
  {
    hide Bit, OnesBelow, And, FastFits, SkipsFit;
    ReportRequestValid();
    AvailabilityValid();
    OthersSkips();
    DenseSkips(PROCESSED_ENTRY_TABLE, PROCESSED_ENTRY);
    DenseSkips(ITEMS_ENTRY_TABLE, ITEMS_ENTRY);
    EntriesFast();
    EntriesFastPath();
  }

  lemma StockLevelFast()
    ensures FastFits(STOCK_LEVEL_TABLE, STOCK_LEVEL)
  {
    hide And, FastEntryFits;
    StockLevelFastEntries();
  }

  lemma StockLevelFastEntries()
    ensures FastEntryFits(STOCK_LEVEL_TABLE, STOCK_LEVEL, Fast(32, 3, 0, 3), 0)
    ensures FastEntryFits(STOCK_LEVEL_TABLE, STOCK_LEVEL, Fast(10, 0, 0, 0), 1)
    ensures FastEntryFits(STOCK_LEVEL_TABLE, STOCK_LEVEL, Fast(18, 1, 0, 1), 2)
    ensures FastEntryFits(STOCK_LEVEL_TABLE, STOCK_LEVEL, Fast(26, 2, 0, 2), 3)
  {
    hide And;
    AndField(10);
    AndField(18);
    AndField(26);
    AndField(32);
  }

  lemma StockLevelTableFits()
    ensures Fits(STOCK_LEVEL_TABLE, STOCK_LEVEL)
    ensures forall i :: 0 <= i < 4 ==> OnFastPath(STOCK_LEVEL_TABLE, STOCK_LEVEL, i)
  {
    hide FastFits, SkipsFit, ValidSchema, Bit, OnesBelow, And;
    var t, s := STOCK_LEVEL_TABLE, STOCK_LEVEL;
    TimestampValid();
    OthersSkips();
    DenseSkips(t, s);
    StockLevelFast();
    assert t.fast[0].field == 3 && t.fast[1].field == 0 && t.fast[2].field == 1 && t.fast[3].field == 2;
  }

  /** The map of the response is never on the fast path, the list of the request is. */
  lemma AvailabilityTablesFit()
    ensures Fits(AVAILABILITY_RESPONSE_TABLE, AVAILABILITY_RESPONSE)
    ensures !OnFastPath(AVAILABILITY_RESPONSE_TABLE, AVAILABILITY_RESPONSE, 0)
    ensures Fits(AVAILABILITY_REQUEST_TABLE, AVAILABILITY_REQUEST)
    ensures OnFastPath(AVAILABILITY_REQUEST_TABLE, AVAILABILITY_REQUEST, 0)
  {
    hide Bit, OnesBelow;
    AvailabilityValid();
    OthersSkips();
    DenseSkips(AVAILABILITY_RESPONSE_TABLE, AVAILABILITY_RESPONSE);
    DenseSkips(AVAILABILITY_REQUEST_TABLE, AVAILABILITY_REQUEST);
    assert AVAILABILITY_REQUEST_TABLE.fast[0].field == 0;
  }
}
