/**
 The robot broadcast: an order and its items written by the publisher, last
 field to first, and read back by the accessors of either side.
 */
module Broadcast {
  import opened Wire
  import opened FlatBuffer
  import opened FlatBuilder
  import opened VtableKinds

  // -------------------------------------------------------------- accessors

  const VT_FIRST := 4
  const VT_SECOND := 6
  const VT_THIRD := 8

  /** What the accessors of an Item say; an absent string reads as none. */
  datatype ItemView = ItemView(sku: Option<Bytes>, quantity: int, aisle: Option<Bytes>)

  datatype OrderView = OrderView(orderId: Option<Bytes>, orderType: Option<Bytes>, items: seq<ItemView>)

  function ReadItem(buf: Bytes, pos: nat): Access<ItemView> {
    match StringField(buf, pos, VT_FIRST)
    case OutOfRange => OutOfRange
    case Ok(sku) =>
      match Int32Field(buf, pos, VT_SECOND)
      case OutOfRange => OutOfRange
      case Ok(quantity) =>
        match StringField(buf, pos, VT_THIRD)
        case OutOfRange => OutOfRange
        case Ok(aisle) => Ok(ItemView(sku, quantity, aisle))
  }

  function ItemsLength(buf: Bytes, pos: nat): Access<nat> {
    match FieldOffset(buf, pos, VT_THIRD)
    case OutOfRange => OutOfRange
    case Ok(offset) =>
      if offset == 0 then Ok(0)
      else match Indirect(buf, Wrap32(offset + pos))
           case OutOfRange => OutOfRange
           case Ok(vector) => Number(buf, vector, 4)
  }

  /** Where item `j` is; none when there is no vector of items. */
  function Items(buf: Bytes, pos: nat, j: nat): Access<Option<nat>> {
    match FieldOffset(buf, pos, VT_THIRD)
    case OutOfRange => OutOfRange
    case Ok(offset) =>
      if offset == 0 then Ok(None)
      else match Indirect(buf, Wrap32(offset + pos))
           case OutOfRange => OutOfRange
           case Ok(vector) =>
             match Indirect(buf, Wrap32(vector + 4 + 4 * j))
             case OutOfRange => OutOfRange
             case Ok(item) => Ok(Some(item))
  }

  /** The items from `j` on. */
  function ReadItems(buf: Bytes, pos: nat, j: nat, count: nat): Access<seq<ItemView>>
    requires j <= count
    decreases count - j
  {
    if j == count then Ok([])
    else match Items(buf, pos, j)
         case OutOfRange => OutOfRange
         case Ok(None) => OutOfRange
         case Ok(Some(at)) =>
           match ReadItem(buf, at)
           case OutOfRange => OutOfRange
           case Ok(item) =>
             match ReadItems(buf, pos, j + 1, count)
             case OutOfRange => OutOfRange
             case Ok(items) => Ok([item] + items)
  }

  /** Everything the accessors say of the order at `pos`. */
  function ReadOrderAt(buf: Bytes, pos: nat): Access<OrderView> {
    match StringField(buf, pos, VT_FIRST)
    case OutOfRange => OutOfRange
    case Ok(orderId) =>
      match StringField(buf, pos, VT_SECOND)
      case OutOfRange => OutOfRange
      case Ok(orderType) =>
        match ItemsLength(buf, pos)
        case OutOfRange => OutOfRange
        case Ok(count) =>
          match ReadItems(buf, pos, 0, count)
          case OutOfRange => OutOfRange
          case Ok(items) => Ok(OrderView(orderId, orderType, items))
  }

  /** The root table of a buffer. */
  function ReadOrder(buf: Bytes): Access<OrderView> {
    match Indirect(buf, 0)
    case OutOfRange => OutOfRange
    case Ok(pos) => ReadOrderAt(buf, pos)
  }

  /** The accessors of an item give the same wherever it is moved to. */
  lemma ReadItemMoves(buf: Bytes, tail: Bytes, pos: nat)
    requires Tail(buf, tail) && ReadItem(tail, pos).Ok?
    ensures ReadItem(buf, Moved(buf, tail, pos)) == ReadItem(tail, pos)
  {
    StringFieldMoves(buf, tail, pos, VT_FIRST);
    Int32FieldMoves(buf, tail, pos, VT_SECOND);
    StringFieldMoves(buf, tail, pos, VT_THIRD);
  }

  // ----------------------------------------------------------------- layout

  /** Where the parts of a written item are, as distances from the end of the buffer. */
  datatype ItemLayout = ItemLayout(n: nat, vt: nat, slots: seq<nat>, sku: nat, aisle: nat)

  datatype ItemDetails = ItemDetails(quantity: int, aisle: Bytes)

  predicate DetailsOk(d: ItemDetails) {
    -TWO_TO_31 <= d.quantity < TWO_TO_31
  }

  predicate SlotsBelow(slots: seq<nat>, n: nat) {
    |slots| == 3 && slots[0] < n && slots[1] < n && slots[2] < n
  }

  /** The buffer holds this item there; a quantity that is not stored is 0. */
  ghost predicate ItemHolds(buf: Bytes, at: ItemLayout, sku: Bytes, d: ItemDetails) {
    && SlotsBelow(at.slots, at.n) && TableHolds(buf, at.n, at.vt, at.slots)
    && RefAt(buf, at.slots[0], at.sku) && StringAt(buf, at.sku, sku)
    && (if at.slots[1] == 0 then d.quantity == 0 else WordAt(buf, at.slots[1], Wrap32(d.quantity)))
    && RefAt(buf, at.slots[2], at.aisle) && StringAt(buf, at.aisle, d.aisle)
  }

  lemma RefAtMoves(buf: Bytes, tail: Bytes, at: nat, target: nat)
    requires Tail(buf, tail) && RefAt(tail, at, target)
    ensures RefAt(buf, at, target)
  {
    WordAtMoves(buf, tail, at, at - target);
  }

  lemma ItemHoldsMoves(buf: Bytes, tail: Bytes, at: ItemLayout, sku: Bytes, d: ItemDetails)
    requires Tail(buf, tail) && ItemHolds(tail, at, sku, d)
    ensures ItemHolds(buf, at, sku, d)
  {
    hide TableHolds, RefAt, StringAt, WordAt, Tail;
    TableHoldsMoves(buf, tail, at.n, at.vt, at.slots);
    RefAtMoves(buf, tail, at.slots[0], at.sku);
    StringAtMoves(buf, tail, at.sku, sku);
    if at.slots[1] != 0 { WordAtMoves(buf, tail, at.slots[1], Wrap32(d.quantity)); }
    RefAtMoves(buf, tail, at.slots[2], at.aisle);
    StringAtMoves(buf, tail, at.aisle, d.aisle);
  }

  /** Adding a field offset to the table it is in leads to the field. */
  lemma FieldPlace(n: nat, slot: nat, length: nat)
    requires slot < n <= length <= TWO_TO_31
    ensures Wrap32(SlotEntry(n, slot) + (length - n)) == if slot == 0 then length - n else length - slot
  {
  }

  lemma SignedBack(x: int)
    requires -TWO_TO_31 <= x < TWO_TO_31
    ensures Signed32(Wrap32(x)) == x
  {
  }

  /** A string field of a written table is read through its vtable. */
  lemma StringFieldReads(buf: Bytes, n: nat, vt: nat, slots: seq<nat>, i: nat, target: nat, s: Bytes)
    requires TableHolds(buf, n, vt, slots) && i < |slots| && slots[i] < n
    requires RefAt(buf, slots[i], target) && StringAt(buf, target, s)
    ensures StringField(buf, |buf| - n, 4 + 2 * i) == Ok(Some(s))
  {
    assert n <= |buf| <= TWO_TO_31 && 4 <= slots[i];
    TableFields(buf, n, vt, slots, i);
    StringRead(buf, slots[i], target, s);
    FieldPlace(n, slots[i], |buf|);
    assert SlotEntry(n, slots[i]) != 0;
    hide TableHolds, RefAt, StringAt, ByteVector, FieldOffset, Wrap32, SlotEntry;
    assert StringField(buf, |buf| - n, 4 + 2 * i) == Ok(Some(s));
  }

  lemma Int32FieldReads(buf: Bytes, n: nat, vt: nat, slots: seq<nat>, i: nat, x: int)
    requires TableHolds(buf, n, vt, slots) && i < |slots| && slots[i] < n && -TWO_TO_31 <= x < TWO_TO_31
    requires if slots[i] == 0 then x == 0 else WordAt(buf, slots[i], Wrap32(x))
    ensures Int32Field(buf, |buf| - n, 4 + 2 * i) == Ok(x)
  {
    assert n <= |buf| <= TWO_TO_31;
    TableFields(buf, n, vt, slots, i);
    FieldPlace(n, slots[i], |buf|);
    SignedBack(x);
    assert SlotEntry(n, slots[i]) == 0 <==> slots[i] == 0;
    assert slots[i] != 0 ==> Number(buf, |buf| - slots[i], 4) == Ok(Wrap32(x));
    hide TableHolds, FieldOffset, Wrap32, WordAt, SlotEntry, Number, Signed32;
    assert Int32Field(buf, |buf| - n, 4 + 2 * i) == Ok(x);
  }

  lemma ItemReads(buf: Bytes, at: ItemLayout, sku: Bytes, d: ItemDetails)
    requires DetailsOk(d) && ItemHolds(buf, at, sku, d)
    ensures at.n <= |buf| && ReadItem(buf, |buf| - at.n) == Ok(ItemView(Some(sku), d.quantity, Some(d.aisle)))
  {
    hide StringField, Int32Field;
    TableInside(buf, at.n, at.vt, at.slots);
    ItemStrings(buf, at, sku, d);
    ItemQuantity(buf, at, sku, d);
    hide ItemHolds;
  }

  lemma ItemStrings(buf: Bytes, at: ItemLayout, sku: Bytes, d: ItemDetails)
    requires ItemHolds(buf, at, sku, d)
    ensures at.n <= |buf| && StringField(buf, |buf| - at.n, VT_FIRST) == Ok(Some(sku))
    ensures StringField(buf, |buf| - at.n, VT_THIRD) == Ok(Some(d.aisle))
  {
    hide TableHolds, RefAt, StringAt, StringField;
    TableInside(buf, at.n, at.vt, at.slots);
    StringFieldReads(buf, at.n, at.vt, at.slots, 0, at.sku, sku);
    StringFieldReads(buf, at.n, at.vt, at.slots, 2, at.aisle, d.aisle);
  }

  lemma ItemQuantity(buf: Bytes, at: ItemLayout, sku: Bytes, d: ItemDetails)
    requires ItemHolds(buf, at, sku, d) && DetailsOk(d)
    ensures at.n <= |buf| && Int32Field(buf, |buf| - at.n, VT_SECOND) == Ok(d.quantity)
  {
    hide TableHolds, RefAt, StringAt, Int32Field, WordAt;
    TableInside(buf, at.n, at.vt, at.slots);
    Int32FieldReads(buf, at.n, at.vt, at.slots, 1, d.quantity);
  }

  lemma TableInside(buf: Bytes, n: nat, vt: nat, slots: seq<nat>)
    requires TableHolds(buf, n, vt, slots)
    ensures 4 <= n <= |buf| <= TWO_TO_31
  {
  }

  // ---------------------------------------------------------------- writing

  /** The word at `q` and the part between `lo` and `hi` have no byte in common. */
  predicate Apart(q: nat, hi: int, lo: int) {
    hi <= q - 4 || q <= lo
  }

  /** The fields of the table lie in front of `lo`, none over another, and the table in front of them. */
  predicate FieldsSpaced(slots: seq<nat>, lo: nat, n: nat) {
    && |slots| == 3 && Between(slots[0], lo, n) && Between(slots[2], lo, n) && Apart(slots[0], slots[2], slots[2] - 4)
    && (slots[1] != 0 ==>
          Between(slots[1], lo, n) && Apart(slots[1], slots[0], slots[0] - 4) && Apart(slots[1], slots[2], slots[2] - 4))
  }

  predicate Between(slot: nat, lo: nat, n: nat) {
    lo + 4 <= slot && slot + 4 <= n
  }

  /** The parts of the item lie between `lo` and `hi`, strings behind fields. */
  predicate Spaced(at: ItemLayout, sku: Bytes, d: ItemDetails, lo: nat, hi: nat) {
    && lo + |sku| + 5 <= at.sku && lo + |d.aisle| + 5 <= at.aisle
    && FieldsSpaced(at.slots, at.sku, at.n) && FieldsSpaced(at.slots, at.aisle, at.n)
    && at.n <= hi
  }

  /** The vtable was there before, or lies in front of the table. */
  ghost predicate VtablePlaced(b: Builder, n: nat, vt: nat, before: seq<nat>)
    requires b.Room()
    reads b, b.bytes
  {
    if vt in before then b.vtables == before
    else b.vtables == before + [vt] && vt <= b.Offset() && n + VtableLength(b.Contents(), vt) == vt
  }

  /** A quantity of 0, and no other, is not stored. */
  predicate DefaultLeftOut(at: ItemLayout, d: ItemDetails) {
    |at.slots| == 3 && (at.slots[1] == 0 <==> d.quantity == 0)
  }

  /** The fields of an item, in the order of their slots, into a new object. */
  method FillItem(b: Builder, sku: nat, quantity: int, aisle: nat)
    requires b.Valid() && !b.nested && 0 < sku <= b.Offset() && 0 < aisle <= b.Offset() && Aligned(b.Offset())
    requires -TWO_TO_31 <= quantity < TWO_TO_31 && b.Offset() + ThreeSize(quantity != 0) < LIMIT
    modifies b, b.bytes
    ensures b.Valid() && (b.bytes == old(b.bytes) || fresh(b.bytes)) && b.nested
    ensures b.finished == old(b.finished) && b.vtables == old(b.vtables) && b.objectEnd == old(b.Offset())
    ensures Tail(b.Contents(), old(b.Contents())) && b.Offset() + 4 == old(b.Offset()) + ThreeSize(quantity != 0)
    ensures ItemFilled(b.Contents(), b.vtable, sku, quantity, aisle)
    ensures b.vtable == ThreeSlots(old(b.Offset()), quantity != 0, false)
  {
    hide Builder.Contents, VtableOk, VtablesOk, Tail, RefAt, WordAt, Padding, Aligned;
    ghost var c2 := b.Contents();
    NoPadding(b.Offset(), 0);
    b.StartObject(3);
    b.PrependUOffsetSlot(0, sku);
    ghost var c3 := b.Contents();
    assert b.vtable == [b.Offset(), 0, 0];
    NoPadding(b.Offset(), 0);
    b.PrependInt32Slot(1, quantity);
    ghost var c4 := b.Contents();
    NoPadding(b.Offset(), 0);
    b.PrependUOffsetSlot(2, aisle);
    ghost var c5 := b.Contents();
    TailTransitive(c5, c4, c3);
    TailTransitive(c5, c3, c2);
    RefAtMoves(c5, c3, b.vtable[0], sku);
    if quantity != 0 { WordAtMoves(c5, c4, b.vtable[1], Wrap32(quantity)); }
  }

  /** The fields of an item are in the buffer at these slots; a quantity of 0 is not stored. */
  predicate ItemFilled(buf: Bytes, slots: seq<nat>, sku: nat, quantity: int, aisle: nat) {
    && |slots| == 3 && RefAt(buf, slots[0], sku) && RefAt(buf, slots[2], aisle)
    && if quantity == 0 then slots[1] == 0 else slots[1] != 0 && WordAt(buf, slots[1], Wrap32(quantity))
  }

  lemma ItemFilledMoves(buf: Bytes, tail: Bytes, slots: seq<nat>, sku: nat, quantity: int, aisle: nat)
    requires Tail(buf, tail) && ItemFilled(tail, slots, sku, quantity, aisle)
    ensures ItemFilled(buf, slots, sku, quantity, aisle)
  {
    hide Tail, RefAt, WordAt;
    RefAtMoves(buf, tail, slots[0], sku);
    if quantity != 0 { WordAtMoves(buf, tail, slots[1], Wrap32(quantity)); }
    RefAtMoves(buf, tail, slots[2], aisle);
  }

  /** The table of an item, its fields in the order of their slots or, as `CreateItem` has it, the other way round. */
  method WriteItemTable(b: Builder, sku: nat, quantity: int, aisle: nat, backwards: bool)
    returns (n: nat, ghost vt: nat, ghost slots: seq<nat>)
    requires b.Valid() && !b.nested && 0 < sku <= b.Offset() && 0 < aisle <= b.Offset() && Aligned(b.Offset())
    requires -TWO_TO_31 <= quantity < TWO_TO_31 && b.Offset() + ThreeSize(quantity != 0) + 10 < LIMIT
    requires SizesTold(b.Contents(), b.vtables, backwards)
    modifies b, b.bytes
    ensures b.Valid() && (b.bytes == old(b.bytes) || fresh(b.bytes)) && b.minalign == 4
    ensures !b.nested && b.finished == old(b.finished)
    ensures Tail(b.Contents(), old(b.Contents())) && n == old(b.Offset()) + ThreeSize(quantity != 0)
    ensures FieldsSpaced(slots, old(b.Offset()), n) && TableHolds(b.Contents(), n, vt, slots)
    ensures ItemFilled(b.Contents(), slots, sku, quantity, aisle)
    ensures VtablePlaced(b, n, vt, old(b.vtables))
    ensures KindWritten(b, n, vt, old(b.Contents()), old(b.vtables), ThreeKind(quantity != 0, backwards))
    ensures SizesTold(b.Contents(), b.vtables, backwards)
  {
    hide Builder.Contents;
    hide VtableOk, VtablesOk, Tail, TableHolds, Padding, VtableLength, ItemFilled, Aligned, KindHolds, VtableHolds, Shares, Trimmed;
    hide SizesTold, SizeTold;
    ghost var before, base := b.Contents(), b.Offset();
    if backwards {
      FillItemBackwards(b, sku, quantity, aisle);
    } else {
      FillItem(b, sku, quantity, aisle);
    }
    ghost var filled := b.Contents();
    slots := b.vtable;
    NoPadding(base, 0);
    FilledAligned(base, quantity != 0);
    n, vt := b.EndObject();
    TailTransitive(b.Contents(), filled, before);
    ItemFilledMoves(b.Contents(), filled, slots, sku, quantity, aisle);
    ThreeSlotsSpaced(base, quantity != 0, backwards);
    ThreeKindWritten(b, n, vt, filled, before, old(b.vtables), base, quantity != 0, backwards);
    SizesToldAfter(b.Contents(), before, old(b.vtables), b.vtables, vt, quantity != 0, backwards);
  }

  /** A vtable was written exactly if the kind was not known; it is then, and what it takes is 10 bytes. */
  ghost predicate KindWritten(b: Builder, n: nat, vt: nat, was: Bytes, before: seq<nat>, kind: seq<nat>)
    requires b.Room()
    reads b, b.bytes
  {
    && KindHolds(b.Contents(), vt, kind)
    && b.Offset() == n + (if KindKnown(was, before, kind) then 0 else 10)
  }

  lemma FilledAligned(base: nat, second: bool)
    requires Aligned(base)
    ensures Aligned(base + ThreeSize(second) - 4) && Padding(base + ThreeSize(second) - 4, 4, 0) == 0
  {
    hide Aligned, Padding;
    WordsMore(base, if second then 3 else 2);
    NoPadding(base + ThreeSize(second) - 4, 0);
  }

  lemma ThreeKindWritten(b: Builder, n: nat, vt: nat, filled: Bytes, was: Bytes, before: seq<nat>, base: nat,
                         second: bool, backwards: bool)
    requires b.Room() && Tail(b.Contents(), filled) && Tail(filled, was) && VtablesOk(was, before)
    requires n == base + ThreeSize(second) && 4 <= vt <= b.Offset()
    requires VtableHolds(b.Contents(), vt, Trimmed(ThreeSlots(base, second, backwards)), n)
    requires SizesTold(was, before, backwards)
    requires vt in before <==> Shares(b.whole, filled, before, Trimmed(ThreeSlots(base, second, backwards)), n, ThreeSize(second))
    requires if vt in before then b.Offset() == n else b.Offset() == n + VtableLength(b.Contents(), vt)
    ensures KindWritten(b, n, vt, was, before, ThreeKind(second, backwards))
  {
    hide Known, Shares, SizesTold, VtableHolds, VtableOk, VtablesOk, Trimmed, ThreeSlots, ThreeKind, Tail, KindHolds, KindKnown;
    hide IsKind, VtableLength, Builder.Contents;
    SizesToldMove(filled, was, before, backwards);
    SharesEither(b.whole, filled, before, base, second, backwards);
    var slots, kind := ThreeSlots(base, second, backwards), ThreeKind(second, backwards);
    ThreeSlotsKind(base, second, backwards);
    KnownIsKindKnown(filled, before, slots, n, kind);
    KnownIsKindKnown(b.Contents(), before, slots, n, kind);
    KindKnownMoves(filled, was, before, kind);
    KindLength(b.Contents(), vt, kind);
  }

  lemma ThreeSlotsSpaced(base: nat, second: bool, backwards: bool)
    ensures FieldsSpaced(ThreeSlots(base, second, backwards), base, base + ThreeSize(second))
  {
  }

  /** The same fields in the opposite order. */
  method FillItemBackwards(b: Builder, sku: nat, quantity: int, aisle: nat)
    requires b.Valid() && !b.nested && 0 < sku <= b.Offset() && 0 < aisle <= b.Offset() && Aligned(b.Offset())
    requires -TWO_TO_31 <= quantity < TWO_TO_31 && b.Offset() + ThreeSize(quantity != 0) < LIMIT
    modifies b, b.bytes
    ensures b.Valid() && (b.bytes == old(b.bytes) || fresh(b.bytes)) && b.nested
    ensures b.finished == old(b.finished) && b.vtables == old(b.vtables) && b.objectEnd == old(b.Offset())
    ensures Tail(b.Contents(), old(b.Contents())) && b.Offset() + 4 == old(b.Offset()) + ThreeSize(quantity != 0)
    ensures ItemFilled(b.Contents(), b.vtable, sku, quantity, aisle)
    ensures b.vtable == ThreeSlots(old(b.Offset()), quantity != 0, true)
  {
    hide VtableOk, Wrap32, Builder.Contents, VtablesOk, Tail, RefAt, WordAt, Padding, Aligned;
    ghost var c2 := b.Contents();
    NoPadding(b.Offset(), 0);
    b.StartObject(3);
    b.PrependUOffsetSlot(2, aisle);
    ghost var c3 := b.Contents();
    assert b.vtable == [0, 0, b.Offset()];
    NoPadding(b.Offset(), 0);
    b.PrependInt32Slot(1, quantity);
    ghost var c4 := b.Contents();
    NoPadding(b.Offset(), 0);
    b.PrependUOffsetSlot(0, sku);
    ghost var c5 := b.Contents();
    TailTransitive(c5, c4, c3);
    TailTransitive(c5, c3, c2);
    RefAtMoves(c5, c3, b.vtable[2], aisle);
    if quantity != 0 { WordAtMoves(c5, c4, b.vtable[1], Wrap32(quantity)); }
  }

  /** The offset of the table of an item that is written at `offset`. */
  function ItemTable(offset: nat, sku: Bytes, d: ItemDetails): (n: nat)
    ensures offset + |sku| + |d.aisle| + 22 <= n <= offset + |sku| + |d.aisle| + 32
  {
    StringEnd(StringEnd(offset, |sku|), |d.aisle|) + ThreeSize(d.quantity != 0)
  }

  /** The body of the publisher's loop: the strings of an item, then its table. */
  method WriteItem(b: Builder, sku: Bytes, d: ItemDetails, backwards: bool) returns (n: nat, ghost at: ItemLayout)
    requires b.Valid() && !b.nested && DetailsOk(d) && ItemTable(b.Offset(), sku, d) + 10 < LIMIT
    requires SizesTold(b.Contents(), b.vtables, backwards)
    modifies b, b.bytes
    ensures b.Valid() && (b.bytes == old(b.bytes) || fresh(b.bytes)) && b.minalign == 4
    ensures !b.nested && b.finished == old(b.finished)
    ensures Tail(b.Contents(), old(b.Contents())) && n == ItemTable(old(b.Offset()), sku, d)
    ensures n == at.n && ItemHolds(b.Contents(), at, sku, d) && DefaultLeftOut(at, d)
    ensures Spaced(at, sku, d, old(b.Offset()), b.Offset()) && VtablePlaced(b, n, at.vt, old(b.vtables))
    ensures KindWritten(b, n, at.vt, old(b.Contents()), old(b.vtables), ThreeKind(d.quantity != 0, backwards))
    ensures SizesTold(b.Contents(), b.vtables, backwards)
  {
    hide Builder.Contents, SizesTold;
    hide VtableOk, VtablesOk, Tail, RefAt, StringAt, TableHolds, WordAt, Padding, VtablePlaced, KindKnown, KindHolds, ThreeKind;
    hide Aligned;
    ghost var before := b.Contents();
    var s := b.CreateString(sku);
    ghost var c1 := b.Contents();
    var a := b.CreateString(d.aisle);
    ghost var c2 := b.Contents();
    StringInside(c2, a, d.aisle);
    TailTransitive(c2, c1, before);
    ghost var vt, slots;
    SizesToldMove(c2, before, b.vtables, backwards);
    n, vt, slots := WriteItemTable(b, s, d.quantity, a, backwards);
    at := ItemLayout(n, vt, slots, s, a);
    ghost var c6 := b.Contents();
    TailTransitive(c6, c2, c1);
    TailTransitive(c6, c1, before);
    StringAtMoves(c6, c1, s, sku);
    StringAtMoves(c6, c2, a, d.aisle);
    FieldsSpacedLower(slots, |c2|, s, n);
    KindKnownMoves(c2, before, old(b.vtables), ThreeKind(d.quantity != 0, backwards));
  }

  lemma StringInside(buf: Bytes, at: nat, s: Bytes)
    requires StringAt(buf, at, s)
    ensures Aligned(at) && at <= |buf|
  {
  }

  lemma FieldsSpacedLower(slots: seq<nat>, lo: nat, lower: nat, n: nat)
    requires FieldsSpaced(slots, lo, n) && lower <= lo
    ensures FieldsSpaced(slots, lower, n)
  {
  }

  // --------------------------------------------------------------- the vector

  /** A vector of references, its first element behind the length. */
  ghost predicate VectorAt(buf: Bytes, at: nat, targets: seq<nat>) {
    && 4 + 4 * |targets| <= at && WordAt(buf, at, |targets|)
    && forall j :: 0 <= j < |targets| ==> RefAt(buf, at - 4 - 4 * j, targets[j])
  }

  lemma VectorAtMoves(buf: Bytes, tail: Bytes, at: nat, targets: seq<nat>)
    requires Tail(buf, tail) && VectorAt(tail, at, targets)
    ensures VectorAt(buf, at, targets)
  {
    hide Tail, RefAt, WordAt;
    WordAtMoves(buf, tail, at, |targets|);
    forall j | 0 <= j < |targets| ensures RefAt(buf, at - 4 - 4 * j, targets[j]) {
      RefAtMoves(buf, tail, at - 4 - 4 * j, targets[j]);
    }
  }

  /** The references that have been written so far, the last one first. */
  ghost predicate RefsFrom(buf: Bytes, base: nat, targets: seq<nat>, from: nat)
    requires from <= |targets|
  {
    forall j :: from <= j < |targets| ==> RefAt(buf, base + 4 * (|targets| - j), targets[j])
  }

  lemma RefsFromStep(buf: Bytes, tail: Bytes, base: nat, targets: seq<nat>, from: nat)
    requires from < |targets| && Tail(buf, tail) && RefsFrom(tail, base, targets, from + 1)
    requires RefAt(buf, base + 4 * (|targets| - from), targets[from])
    ensures RefsFrom(buf, base, targets, from)
  {
    hide Tail, RefAt;
    forall j | from < j < |targets| ensures RefAt(buf, base + 4 * (|targets| - j), targets[j]) {
      RefAtMoves(buf, tail, base + 4 * (|targets| - j), targets[j]);
    }
  }

  lemma RefsAreVector(buf: Bytes, rest: Bytes, base: nat, targets: seq<nat>)
    requires RefsFrom(rest, base, targets, 0) && |targets| < TWO_TO_32
    requires |rest| == base + 4 * |targets| && Aligned(|rest|) && |rest| + 4 <= TWO_TO_31
    requires buf == EncodeFixed(|targets|, 4) + rest
    ensures VectorAt(buf, |buf|, targets)
  {
    hide EncodeFixed, Aligned, RefAt, WordAt, Tail;
    NewWord(|targets|, rest);
    TailOf(EncodeFixed(|targets|, 4), rest);
    forall j | 0 <= j < |targets| ensures RefAt(buf, |buf| - 4 - 4 * j, targets[j]) {
      RefAtMoves(buf, rest, base + 4 * (|targets| - j), targets[j]);
      assert |buf| - 4 - 4 * j == base + 4 * (|targets| - j);
    }
  }

  /** Prepending the offsets from the last to the first leaves them in their order. */
  method WriteVector(b: Builder, offsets: seq<nat>) returns (at: nat)
    requires b.Valid() && !b.nested && VectorEnd(b.Offset(), |offsets|) < LIMIT
    requires forall j :: 0 <= j < |offsets| ==> offsets[j] <= b.Offset()
    modifies b, b.bytes
    ensures b.Valid() && (b.bytes == old(b.bytes) || fresh(b.bytes)) && b.minalign == 4
    ensures !b.nested && b.finished == old(b.finished) && b.vtables == old(b.vtables)
    ensures Tail(b.Contents(), old(b.Contents())) && VectorAt(b.Contents(), at, offsets) && at == b.Offset()
    ensures b.Offset() == VectorEnd(old(b.Offset()), |offsets|)
  {
    hide Builder.Contents, VtableOk, VtablesOk, Tail, RefAt, WordAt, Padding, Aligned, RefsFrom, EncodeFixed;
    ghost var before := b.Contents();
    WordsAligned(|offsets|);
    PaddingAligns(b.Offset(), 4 * |offsets|);
    b.StartVector(|offsets|);
    ghost var base := b.Offset();
    NoRefs(b.Contents(), base, offsets);
    var i := |offsets|;
    while i > 0
      invariant 0 <= i <= |offsets|
      invariant b.Valid() && (b.bytes == old(b.bytes) || fresh(b.bytes)) && b.minalign == 4
      invariant b.nested && b.finished == old(b.finished) && b.vtables == old(b.vtables)
      invariant b.Offset() == base + 4 * (|offsets| - i) && Aligned(b.Offset()) && b.head >= 4 + 4 * i
      invariant Tail(b.Contents(), before) && RefsFrom(b.Contents(), base, offsets, i)
    {
      i := i - 1;
      ghost var now := b.Contents();
      NoPadding(|now|, 0);
      b.PrependUOffset(offsets[i]);
      RefsFromStep(b.Contents(), now, base, offsets, i);
      TailTransitive(b.Contents(), now, before);
    }
    ghost var rest := b.Contents();
    at := b.EndVector(|offsets|);
    TailTransitive(b.Contents(), rest, before);
    RefsAreVector(b.Contents(), rest, base, offsets);
  }

  lemma NoRefs(buf: Bytes, base: nat, targets: seq<nat>)
    ensures RefsFrom(buf, base, targets, |targets|)
  {
  }

  // ---------------------------------------------------------- the broadcast

  /** An item as it is sent. */
  datatype Sent = Sent(sku: Bytes, details: ItemDetails)

  predicate SentOk(sent: seq<Sent>) {
    forall k :: 0 <= k < |sent| ==> DetailsOk(sent[k].details)
  }

  ghost predicate ItemsHold(buf: Bytes, ats: seq<ItemLayout>, sent: seq<Sent>) {
    |ats| == |sent| && forall k :: 0 <= k < |ats| ==> ItemHolds(buf, ats[k], sent[k].sku, sent[k].details)
  }

  predicate DefaultsLeftOut(ats: seq<ItemLayout>, sent: seq<Sent>) {
    |ats| == |sent| && forall k :: 0 <= k < |ats| ==> DefaultLeftOut(ats[k], sent[k].details)
  }

  /** Each item lies in a stretch of the buffer of its own, the first one last. */
  ghost predicate ItemsSpaced(ats: seq<ItemLayout>, sent: seq<Sent>, ends: seq<nat>) {
    && |ats| == |sent| && |ends| == |ats| + 1
    && (forall i, j :: 0 <= i <= j < |ends| ==> ends[i] <= ends[j])
    && forall k :: 0 <= k < |ats| ==> Spaced(ats[k], sent[k].sku, sent[k].details, ends[k], ends[k + 1])
  }

  /** The vtable lies behind `lo` or in front of `n`. */
  predicate VtableClear(buf: Bytes, vt: nat, lo: nat, n: nat) {
    vt <= |buf| && (vt <= lo || n + VtableLength(buf, vt) <= vt)
  }

  /** Each vtable lies behind an item or in front of its table. */
  ghost predicate VtablesClear(buf: Bytes, vts: seq<nat>, ats: seq<ItemLayout>, ends: seq<nat>) {
    && |ends| == |ats| + 1 && (forall v :: 0 <= v < |vts| ==> vts[v] <= |buf|)
    && forall v, k :: 0 <= v < |vts| && 0 <= k < |ats| ==> VtableClear(buf, vts[v], ends[k], ats[k].n)
  }

  lemma ItemsHoldMove(buf: Bytes, tail: Bytes, ats: seq<ItemLayout>, sent: seq<Sent>)
    requires Tail(buf, tail) && ItemsHold(tail, ats, sent)
    ensures ItemsHold(buf, ats, sent)
  {
    hide Tail, ItemHolds;
    forall k | 0 <= k < |ats| ensures ItemHolds(buf, ats[k], sent[k].sku, sent[k].details) {
      ItemHoldsMoves(buf, tail, ats[k], sent[k].sku, sent[k].details);
    }
  }

  lemma ItemsHoldAppend(buf: Bytes, tail: Bytes, ats: seq<ItemLayout>, sent: seq<Sent>, at: ItemLayout, item: Sent)
    requires Tail(buf, tail) && ItemsHold(tail, ats, sent) && ItemHolds(buf, at, item.sku, item.details)
    ensures ItemsHold(buf, ats + [at], sent + [item])
  {
    hide Tail, ItemHolds;
    ItemsHoldMove(buf, tail, ats, sent);
  }

  lemma ItemsSpacedAppend(ats: seq<ItemLayout>, sent: seq<Sent>, ends: seq<nat>, at: ItemLayout, item: Sent, end: nat)
    requires ItemsSpaced(ats, sent, ends) && ends[|ats|] <= end
    requires Spaced(at, item.sku, item.details, ends[|ats|], end)
    ensures ItemsSpaced(ats + [at], sent + [item], ends + [end])
  {
    hide Spaced;
  }

  lemma VtableClearMoves(buf: Bytes, tail: Bytes, vt: nat, lo: nat, n: nat)
    requires Tail(buf, tail) && VtableOk(tail, vt)
    ensures VtableClear(buf, vt, lo, n) <==> VtableClear(tail, vt, lo, n)
  {
    NumberMoves(buf, tail, |tail| - vt, 2);
  }

  lemma VtablesClearMove(buf: Bytes, tail: Bytes, vts: seq<nat>, ats: seq<ItemLayout>, ends: seq<nat>)
    requires Tail(buf, tail) && VtablesClear(tail, vts, ats, ends) && VtablesOk(tail, vts)
    ensures VtablesClear(buf, vts, ats, ends)
  {
    hide VtableOk, VtableClear;
    VtablesBelow(tail, vts);
    TailLonger(buf, tail);
    forall v, k | 0 <= v < |vts| && 0 <= k < |ats| ensures VtableClear(buf, vts[v], ends[k], ats[k].n) {
      VtableClearMoves(buf, tail, vts[v], ends[k], ats[k].n);
    }
  }

  /** They still do when a table and perhaps a vtable come on top. */
  lemma VtablesClearTable(buf: Bytes, tail: Bytes, vts: seq<nat>, vts': seq<nat>, ats: seq<ItemLayout>, ends: seq<nat>, n: nat, vt: nat)
    requires Tail(buf, tail) && VtablesClear(tail, vts, ats, ends) && VtablesOk(tail, vts)
    requires forall k :: 0 <= k < |ats| ==> ats[k].n <= |tail|
    requires |tail| <= n
    requires vts' == vts || (vts' == vts + [vt] && vt <= |buf| && n + VtableLength(buf, vt) == vt)
    ensures VtablesClear(buf, vts', ats, ends)
    ensures forall v :: 0 <= v < |vts'| ==> VtableClear(buf, vts'[v], |tail|, n)
  {
    VtablesClearMove(buf, tail, vts, ats, ends);
    VtablesBelow(tail, vts);
    hide VtableLength, VtablesOk;
  }

  lemma VtablesClearAppend(buf: Bytes, tail: Bytes, vts: seq<nat>, vts': seq<nat>, ats: seq<ItemLayout>, ends: seq<nat>, at: ItemLayout)
    requires Tail(buf, tail) && VtablesClear(tail, vts, ats, ends) && VtablesOk(tail, vts) && ends[|ats|] == |tail|
    requires forall k :: 0 <= k < |ats| ==> ats[k].n <= |tail|
    requires |tail| <= at.n
    requires vts' == vts || (vts' == vts + [at.vt] && at.vt <= |buf| && at.n + VtableLength(buf, at.vt) == at.vt)
    ensures VtablesClear(buf, vts', ats + [at], ends + [|buf|])
  {
    VtablesClearTable(buf, tail, vts, vts', ats, ends, at.n, at.vt);
    hide VtableClear, VtableLength, VtablesOk, Tail;
  }

  /** Among the first `k` items is one with, or one without, a stored quantity. */
  predicate Seen(sent: seq<Sent>, k: nat, stored: bool)
    requires k <= |sent|
  {
    k != 0 && (Seen(sent, k - 1, stored) || (sent[k - 1].details.quantity != 0) == stored)
  }

  /** The offset after the first `k` items: the first of either kind brings a vtable. */
  function ItemsEnd(sent: seq<Sent>, k: nat): nat
    requires k <= |sent|
  {
    if k == 0 then 0
    else
      var item := sent[k - 1];
      ItemTable(ItemsEnd(sent, k - 1), item.sku, item.details)
      + (if Seen(sent, k - 1, item.details.quantity != 0) then 0 else 10)
  }

  lemma {:induction false} ItemsEndGrows(sent: seq<Sent>, i: nat, k: nat)
    requires i <= k <= |sent|
    ensures ItemsEnd(sent, i) <= ItemsEnd(sent, k)
    decreases k
  {
    if i < k { ItemsEndGrows(sent, i, k - 1); }
  }

  /** Just the kinds of the items seen so far have a vtable. */
  ghost predicate KindsSeen(buf: Bytes, vts: seq<nat>, sent: seq<Sent>, k: nat, backwards: bool)
    requires k <= |sent|
  {
    forall stored: bool :: KindKnown(buf, vts, ThreeKind(stored, backwards)) <==> Seen(sent, k, stored)
  }

  lemma KindsSeenStep(buf: Bytes, tail: Bytes, vts: seq<nat>, vts': seq<nat>, vt: nat, sent: seq<Sent>, k: nat, backwards: bool)
    requires k < |sent| && KindsSeen(tail, vts, sent, k, backwards) && Tail(buf, tail) && VtablesOk(tail, vts)
    requires KindHolds(buf, vt, ThreeKind(sent[k].details.quantity != 0, backwards))
    requires if vt in vts then vts' == vts else vts' == vts + [vt]
    ensures KindsSeen(buf, vts', sent, k + 1, backwards)
  {
    hide KindHolds, KindKnown, Tail, VtablesOk, ThreeKind;
    var stored := sent[k].details.quantity != 0;
    forall other: bool
      ensures KindKnown(buf, vts', ThreeKind(other, backwards)) <==> Seen(sent, k + 1, other)
    {
      KindsAfter(buf, tail, vts, vts', vt, ThreeKind(stored, backwards), ThreeKind(other, backwards));
      ThreeKindsDiffer(stored, other, backwards);
    }
  }

  function OffsetsOf(ats: seq<ItemLayout>): (ns: seq<nat>)
    ensures |ns| == |ats|
  {
    seq(|ats|, k requires 0 <= k < |ats| => ats[k].n)
  }

  /** The first `k` items are written, each with its table where `ats` says, and nothing else. */
  ghost predicate ItemsWritten(buf: Bytes, vts: seq<nat>, ats: seq<ItemLayout>, ends: seq<nat>, sent: seq<Sent>, k: nat, backwards: bool)
    requires k <= |sent|
  {
    && |ats| == k && |ends| == k + 1 && ends[k] == |buf| == ItemsEnd(sent, k)
    && ItemsHold(buf, ats, sent[..k]) && ItemsSpaced(ats, sent[..k], ends) && DefaultsLeftOut(ats, sent[..k])
    && VtablesClear(buf, vts, ats, ends) && KindsSeen(buf, vts, sent, k, backwards) && SizesTold(buf, vts, backwards)
    && forall i :: 0 <= i < |ats| ==> ats[i].vt in vts
  }

  lemma ItemsWrittenStep(buf: Bytes, tail: Bytes, vts: seq<nat>, vts': seq<nat>, ats: seq<ItemLayout>, ends: seq<nat>,
                         sent: seq<Sent>, k: nat, backwards: bool, at: ItemLayout)
    requires k < |sent| && ItemsWritten(tail, vts, ats, ends, sent, k, backwards) && Tail(buf, tail) && VtablesOk(tail, vts)
    requires ItemHolds(buf, at, sent[k].sku, sent[k].details) && DefaultLeftOut(at, sent[k].details)
    requires Spaced(at, sent[k].sku, sent[k].details, |tail|, |buf|)
    requires if at.vt in vts then vts' == vts
             else vts' == vts + [at.vt] && at.vt <= |buf| && at.n + VtableLength(buf, at.vt) == at.vt
    requires KindHolds(buf, at.vt, ThreeKind(sent[k].details.quantity != 0, backwards)) && |buf| == ItemsEnd(sent, k + 1)
    requires SizesTold(buf, vts', backwards)
    ensures ItemsWritten(buf, vts', ats + [at], ends + [|buf|], sent, k + 1, backwards)
  {
    hide VtablesOk, Tail, ItemHolds, Spaced, ItemsHold, ItemsSpaced, VtablesClear, KindsSeen, KindHolds, ThreeKind, VtableLength, ItemsEnd;
    hide SizesTold;
    assert sent[..k + 1] == sent[..k] + [sent[k]];
    ItemsHoldAppend(buf, tail, ats, sent[..k], at, sent[k]);
    SpacedFacts(at, sent[k].sku, sent[k].details, |tail|, |buf|);
    ItemsSpacedAppend(ats, sent[..k], ends, at, sent[k], |buf|);
    QuantitiesBelow(ats, sent[..k], ends);
    VtablesClearAppend(buf, tail, vts, vts', ats, ends, at);
    KindsSeenStep(buf, tail, vts, vts', at.vt, sent, k, backwards);
  }

  /** All items, one after the other. */
  method WriteItems(b: Builder, sent: seq<Sent>, backwards: bool)
    returns (offsets: seq<nat>, ghost ats: seq<ItemLayout>, ghost ends: seq<nat>)
    requires b.Valid() && !b.nested && b.vtables == [] && b.Offset() == 0
    requires SentOk(sent) && ItemsEnd(sent, |sent|) + 10 < LIMIT
    modifies b, b.bytes
    ensures b.Valid() && (b.bytes == old(b.bytes) || fresh(b.bytes)) && !b.nested && b.finished == old(b.finished)
    ensures offsets == OffsetsOf(ats) && ItemsWritten(b.Contents(), b.vtables, ats, ends, sent, |sent|, backwards)
  {
    hide Builder.Contents;
    hide VtableOk, VtablesOk, Tail, ItemHolds, Spaced, KindKnown, KindHolds, ThreeKind, ItemsWritten, DefaultLeftOut;
    hide VtableLength, SizesTold;
    offsets, ats, ends := [], [], [0];
    NoItems(b.Contents(), sent, backwards);
    var k := 0;
    while k < |sent|
      invariant 0 <= k <= |sent|
      invariant b.Valid() && (b.bytes == old(b.bytes) || fresh(b.bytes)) && !b.nested && b.finished == old(b.finished)
      invariant offsets == OffsetsOf(ats) && ItemsWritten(b.Contents(), b.vtables, ats, ends, sent, k, backwards)
    {
      ghost var c, vts := b.Contents(), b.vtables;
      ItemsEndGrows(sent, k + 1, |sent|);
      ItemsWrittenEnd(c, vts, ats, ends, sent, k, backwards);
      var n, at := WriteItem(b, sent[k].sku, sent[k].details, backwards);
      offsets := offsets + [n];
      ItemsWrittenStep(b.Contents(), c, vts, b.vtables, ats, ends, sent, k, backwards, at);
      ats, ends := ats + [at], ends + [b.Offset()];
      k := k + 1;
    }
  }

  lemma ItemsWrittenEnd(buf: Bytes, vts: seq<nat>, ats: seq<ItemLayout>, ends: seq<nat>, sent: seq<Sent>, k: nat, backwards: bool)
    requires k <= |sent| && ItemsWritten(buf, vts, ats, ends, sent, k, backwards)
    ensures |buf| == ItemsEnd(sent, k)
    ensures forall stored: bool :: KindKnown(buf, vts, ThreeKind(stored, backwards)) <==> Seen(sent, k, stored)
    ensures SizesTold(buf, vts, backwards)
  {
    hide SizesTold;
  }

  lemma NoItems(buf: Bytes, sent: seq<Sent>, backwards: bool)
    requires |buf| == 0
    ensures ItemsWritten(buf, [], [], [0], sent, 0, backwards)
  {
    hide KindHolds;
  }

  lemma QuantitiesBelow(ats: seq<ItemLayout>, sent: seq<Sent>, ends: seq<nat>)
    requires ItemsSpaced(ats, sent, ends)
    ensures forall k :: 0 <= k < |ats| ==>
      |ats[k].slots| == 3 && ats[k].slots[1] + 4 <= ends[|ats|] && ats[k].n <= ends[|ats|]
  {
    forall k | 0 <= k < |ats|
      ensures |ats[k].slots| == 3 && ats[k].slots[1] + 4 <= ends[|ats|] && ats[k].n <= ends[|ats|]
    {
      assert Spaced(ats[k], sent[k].sku, sent[k].details, ends[k], ends[k + 1]) && ends[k + 1] <= ends[|ats|];
    }
  }

  lemma SpacedFacts(at: ItemLayout, sku: Bytes, d: ItemDetails, lo: nat, hi: nat)
    requires Spaced(at, sku, d, lo, hi)
    ensures |at.slots| == 3 && (at.slots[1] != 0 ==> lo + 4 <= at.slots[1] && at.slots[1] + 4 <= at.n)
    ensures lo <= at.n <= hi
  {
  }

  // -------------------------------------------------------------- the order

  /** Where the parts of a written broadcast are; `ends` are the bounds of the items' stretches. */
  datatype OrderLayout = OrderLayout(
    ats: seq<ItemLayout>, ends: seq<nat>, vector: nat, orderId: nat, orderType: nat,
    n: nat, vt: nat, slots: seq<nat>, vts: seq<nat>)

  ghost predicate OrderHolds(buf: Bytes, at: OrderLayout, orderId: Bytes, orderType: Bytes, sent: seq<Sent>) {
    && SlotsBelow(at.slots, at.n) && TableHolds(buf, at.n, at.vt, at.slots)
    && RefAt(buf, at.slots[0], at.orderId) && StringAt(buf, at.orderId, orderId)
    && RefAt(buf, at.slots[1], at.orderType) && StringAt(buf, at.orderType, orderType)
    && RefAt(buf, at.slots[2], at.vector) && VectorAt(buf, at.vector, OffsetsOf(at.ats))
    && ItemsHold(buf, at.ats, sent)
  }

  /** The parts of the order lie in front of the items. */
  predicate OrderSpaced(at: OrderLayout, orderId: Bytes, orderType: Bytes, top: nat) {
    && top + |orderId| + 5 <= at.orderId && top + |orderType| + 5 <= at.orderType
    && top + 4 + 4 * |at.ats| <= at.vector
    && |at.slots| == 3 && top + 4 <= at.slots[0] && top + 4 <= at.slots[1] && top + 4 <= at.slots[2]
    && top + 4 <= at.n
  }

  /** The quantity of item `j` is stored. */
  predicate Stored(at: OrderLayout, j: nat) {
    j < |at.ats| && |at.ats[j].slots| == 3 && at.ats[j].slots[1] != 0
  }

  /** A finished broadcast, all of it. */
  ghost predicate Written(buf: Bytes, at: OrderLayout, orderId: Bytes, orderType: Bytes, sent: seq<Sent>) {
    && SentOk(sent) && OrderHolds(buf, at, orderId, orderType, sent)
    && RefAt(buf, |buf|, at.n) && |buf| < LIMIT
    && ItemsSpaced(at.ats, sent, at.ends) && OrderSpaced(at, orderId, orderType, at.ends[|at.ats|])
    && VtablesOk(buf, at.vts) && VtablesClear(buf, at.vts, at.ats, at.ends) && (forall v :: 0 <= v < |at.vts| ==> at.vts[v] < |buf|)
    && VtableClear(buf, at.vt, at.ends[|at.ats|], at.n) && at.vt in at.vts && forall k :: 0 <= k < |at.ats| ==> at.ats[k].vt in at.vts
  }

  predicate OrderFilled(buf: Bytes, slots: seq<nat>, orderId: nat, orderType: nat, items: nat) {
    |slots| == 3 && RefAt(buf, slots[0], orderId) && RefAt(buf, slots[1], orderType) && RefAt(buf, slots[2], items)
  }

  lemma OrderFilledMoves(buf: Bytes, tail: Bytes, slots: seq<nat>, orderId: nat, orderType: nat, items: nat)
    requires Tail(buf, tail) && OrderFilled(tail, slots, orderId, orderType, items)
    ensures OrderFilled(buf, slots, orderId, orderType, items)
  {
    hide Tail, RefAt;
    RefAtMoves(buf, tail, slots[0], orderId);
    RefAtMoves(buf, tail, slots[1], orderType);
    RefAtMoves(buf, tail, slots[2], items);
  }

  /** The fields of the order, in the order of their slots or the other way round. */
  method FillOrder(b: Builder, orderId: nat, orderType: nat, items: nat, backwards: bool)
    requires b.Valid() && !b.nested && Aligned(b.Offset()) && b.Offset() + 16 < LIMIT
    requires 0 < orderId <= b.Offset() && 0 < orderType <= b.Offset() && 0 < items <= b.Offset()
    modifies b, b.bytes
    ensures b.Valid() && (b.bytes == old(b.bytes) || fresh(b.bytes)) && b.nested
    ensures b.finished == old(b.finished) && b.vtables == old(b.vtables) && b.objectEnd == old(b.Offset())
    ensures Tail(b.Contents(), old(b.Contents())) && b.Offset() == old(b.Offset()) + 12
    ensures OrderFilled(b.Contents(), b.vtable, orderId, orderType, items)
    ensures b.vtable == ThreeSlots(old(b.Offset()), true, backwards)
  {
    hide Wrap32, Builder.Contents, VtableOk, VtablesOk, Tail, RefAt, Padding, Aligned;
    ghost var c2 := b.Contents();
    NoPadding(b.Offset(), 0);
    b.StartObject(3);
    b.PrependUOffsetSlot(if backwards then 2 else 0, if backwards then items else orderId);
    ghost var c3 := b.Contents();
    assert b.vtable == if backwards then [0, 0, b.Offset()] else [b.Offset(), 0, 0];
    NoPadding(b.Offset(), 0);
    b.PrependUOffsetSlot(1, orderType);
    ghost var c4 := b.Contents();
    NoPadding(b.Offset(), 0);
    b.PrependUOffsetSlot(if backwards then 0 else 2, if backwards then orderId else items);
    ghost var c5 := b.Contents();
    TailTransitive(c5, c4, c3);
    TailTransitive(c5, c3, c2);
    RefAtMoves(c5, c3, b.vtable[if backwards then 2 else 0], if backwards then items else orderId);
    RefAtMoves(c5, c4, b.vtable[1], orderType);
  }

  /** The root table. */
  method WriteOrderTable(b: Builder, orderId: nat, orderType: nat, items: nat, backwards: bool)
    returns (n: nat, ghost vt: nat, ghost slots: seq<nat>)
    requires b.Valid() && !b.nested && Aligned(b.Offset()) && b.Offset() + 26 < LIMIT
    requires SizesTold(b.Contents(), b.vtables, backwards)
    requires 0 < orderId <= b.Offset() && 0 < orderType <= b.Offset() && 0 < items <= b.Offset()
    modifies b, b.bytes
    ensures b.Valid() && (b.bytes == old(b.bytes) || fresh(b.bytes)) && b.minalign == 4
    ensures !b.nested && b.finished == old(b.finished)
    ensures Tail(b.Contents(), old(b.Contents())) && n == old(b.Offset()) + 16
    ensures FieldsSpaced(slots, old(b.Offset()), n) && slots[1] != 0 && TableHolds(b.Contents(), n, vt, slots)
    ensures OrderFilled(b.Contents(), slots, orderId, orderType, items) && VtablePlaced(b, n, vt, old(b.vtables))
    ensures KindWritten(b, n, vt, old(b.Contents()), old(b.vtables), ThreeKind(true, backwards))
  {
    hide Builder.Contents;
    hide VtableOk, VtablesOk, Tail, TableHolds, Padding, VtableLength, OrderFilled, Aligned, KindHolds, VtableHolds, Shares, Trimmed;
    hide SizesTold, SizeTold;
    ghost var before, base := b.Contents(), b.Offset();
    FillOrder(b, orderId, orderType, items, backwards);
    ghost var filled := b.Contents();
    slots := b.vtable;
    FilledAligned(base, true);
    n, vt := b.EndObject();
    TailTransitive(b.Contents(), filled, before);
    OrderFilledMoves(b.Contents(), filled, slots, orderId, orderType, items);
    ThreeSlotsSpaced(base, true, backwards);
    ThreeKindWritten(b, n, vt, filled, before, old(b.vtables), base, true, backwards);
  }

  // ---------------------------------------------------------------- reading

  function View(item: Sent): ItemView {
    ItemView(Some(item.sku), item.details.quantity, Some(item.details.aisle))
  }

  function Views(sent: seq<Sent>): (views: seq<ItemView>)
    ensures |views| == |sent|
  {
    seq(|sent|, k requires 0 <= k < |sent| => View(sent[k]))
  }

  /** The vector of items as the accessors find it: its length, and element `j` where item `j` was recorded. */
  lemma VectorReads(buf: Bytes, n: nat, vt: nat, slots: seq<nat>, vector: nat, targets: seq<nat>, j: nat)
    requires TableHolds(buf, n, vt, slots) && |slots| == 3 && slots[2] < n
    requires RefAt(buf, slots[2], vector) && VectorAt(buf, vector, targets)
    ensures ItemsLength(buf, |buf| - n) == Ok(|targets|)
    ensures j < |targets| ==> targets[j] <= |buf| && Items(buf, |buf| - n, j) == Ok(Some(|buf| - targets[j]))
  {
    hide TableHolds, FieldOffset, SlotEntry, Indirect, RefAt, VectorAt, Wrap32, Number;
    VectorPlace(buf, n, vt, slots, vector);
    VectorLength(buf, vector, targets);
    if j < |targets| { ElementPlace(buf, vector, targets, j); }
  }

  lemma VectorLength(buf: Bytes, vector: nat, targets: seq<nat>)
    requires VectorAt(buf, vector, targets)
    ensures vector <= |buf| && Number(buf, |buf| - vector, 4) == Ok(|targets|)
  {
  }

  lemma ElementPlace(buf: Bytes, vector: nat, targets: seq<nat>, j: nat)
    requires VectorAt(buf, vector, targets) && j < |targets| && |buf| <= TWO_TO_31
    ensures vector <= |buf| && targets[j] <= |buf|
    ensures Indirect(buf, Wrap32(|buf| - vector + 4 + 4 * j)) == Ok(|buf| - targets[j])
  {
    var at := vector - 4 - 4 * j;
    assert RefAt(buf, at, targets[j]);
    RefRead(buf, at, targets[j]);
    WrapSmall(|buf| - vector + 4 + 4 * j);
  }

  lemma VectorPlace(buf: Bytes, n: nat, vt: nat, slots: seq<nat>, vector: nat)
    requires TableHolds(buf, n, vt, slots) && |slots| == 3 && slots[2] < n && RefAt(buf, slots[2], vector)
    ensures n <= |buf| <= TWO_TO_31 && vector <= |buf|
    ensures FieldOffset(buf, |buf| - n, VT_THIRD) == Ok(SlotEntry(n, slots[2])) && SlotEntry(n, slots[2]) != 0
    ensures Indirect(buf, Wrap32(SlotEntry(n, slots[2]) + (|buf| - n))) == Ok(|buf| - vector)
  {
    TableFields(buf, n, vt, slots, 2);
    FieldPlace(n, slots[2], |buf|);
    RefRead(buf, slots[2], vector);
  }

  /** Item `j` is found, and reads as it was sent. */
  lemma ItemRead(buf: Bytes, at: OrderLayout, orderId: Bytes, orderType: Bytes, sent: seq<Sent>, j: nat)
    requires SentOk(sent) && OrderHolds(buf, at, orderId, orderType, sent) && j < |sent|
    ensures at.n <= |buf| && Items(buf, |buf| - at.n, j).Ok? && Items(buf, |buf| - at.n, j).value.Some?
    ensures ReadItem(buf, Items(buf, |buf| - at.n, j).value.value) == Ok(View(sent[j]))
  {
    hide TableHolds, RefAt, StringAt, VectorAt, ReadItem, Items, ItemHolds;
    TableInside(buf, at.n, at.vt, at.slots);
    VectorReads(buf, at.n, at.vt, at.slots, at.vector, OffsetsOf(at.ats), j);
    ItemReads(buf, at.ats[j], sent[j].sku, sent[j].details);
  }

  lemma ViewsFrom(sent: seq<Sent>, j: nat)
    requires j <= |sent|
    ensures j == |sent| ==> Views(sent[j..]) == []
    ensures j < |sent| ==> Views(sent[j..]) == [View(sent[j])] + Views(sent[j + 1..])
  {
    hide View;
    if j < |sent| { assert sent[j..] == [sent[j]] + sent[j + 1..]; }
  }

  lemma {:induction false} ItemsRead(buf: Bytes, at: OrderLayout, orderId: Bytes, orderType: Bytes, sent: seq<Sent>, j: nat)
    requires SentOk(sent) && OrderHolds(buf, at, orderId, orderType, sent) && j <= |sent|
    ensures at.n <= |buf| && ReadItems(buf, |buf| - at.n, j, |sent|) == Ok(Views(sent[j..]))
    decreases |sent| - j
  {
    hide OrderHolds, SentOk, ReadItem, Items, View, Views;
    OrderInside(buf, at, orderId, orderType, sent);
    ViewsFrom(sent, j);
    if j < |sent| {
      ItemRead(buf, at, orderId, orderType, sent, j);
      ItemsRead(buf, at, orderId, orderType, sent, j + 1);
    }
  }

  lemma OrderReads(buf: Bytes, at: OrderLayout, orderId: Bytes, orderType: Bytes, sent: seq<Sent>)
    requires SentOk(sent) && OrderHolds(buf, at, orderId, orderType, sent)
    ensures at.n <= |buf|
    ensures ReadOrderAt(buf, |buf| - at.n) == Ok(OrderView(Some(orderId), Some(orderType), Views(sent)))
  {
    hide TableHolds, RefAt, StringAt, VectorAt, ItemsHold, ReadItems, StringField, ItemsLength;
    TableInside(buf, at.n, at.vt, at.slots);
    StringFieldReads(buf, at.n, at.vt, at.slots, 0, at.orderId, orderId);
    StringFieldReads(buf, at.n, at.vt, at.slots, 1, at.orderType, orderType);
    LengthReads(buf, at, orderId, orderType, sent);
    ItemsRead(buf, at, orderId, orderType, sent, 0);
    assert sent[0..] == sent;
    hide OrderHolds;
  }

  lemma LengthReads(buf: Bytes, at: OrderLayout, orderId: Bytes, orderType: Bytes, sent: seq<Sent>)
    requires OrderHolds(buf, at, orderId, orderType, sent)
    ensures at.n <= |buf| && ItemsLength(buf, |buf| - at.n) == Ok(|sent|)
  {
    hide TableHolds, RefAt, StringAt, VectorAt, ItemHolds, ItemsLength;
    TableInside(buf, at.n, at.vt, at.slots);
    VectorReads(buf, at.n, at.vt, at.slots, at.vector, OffsetsOf(at.ats), 0);
  }

  /** A root reference to a written order: all the accessors say is what was sent. */
  lemma RootReads(buf: Bytes, at: OrderLayout, orderId: Bytes, orderType: Bytes, sent: seq<Sent>)
    requires SentOk(sent) && OrderHolds(buf, at, orderId, orderType, sent) && RefAt(buf, |buf|, at.n)
    ensures ReadOrder(buf) == Ok(OrderView(Some(orderId), Some(orderType), Views(sent)))
  {
    hide OrderHolds, ReadOrderAt, Indirect, RefAt, SentOk;
    OrderInside(buf, at, orderId, orderType, sent);
    OrderReads(buf, at, orderId, orderType, sent);
    RefRead(buf, |buf|, at.n);
  }

  lemma OrderInside(buf: Bytes, at: OrderLayout, orderId: Bytes, orderType: Bytes, sent: seq<Sent>)
    requires OrderHolds(buf, at, orderId, orderType, sent)
    ensures at.n <= |buf| <= TWO_TO_31
  {
    hide RefAt, StringAt, VectorAt, ItemsHold, VtableOk;
  }

  lemma WrittenReads(buf: Bytes, at: OrderLayout, orderId: Bytes, orderType: Bytes, sent: seq<Sent>)
    requires Written(buf, at, orderId, orderType, sent)
    ensures ReadOrder(buf) == Ok(OrderView(Some(orderId), Some(orderType), Views(sent)))
  {
    hide OrderHolds, ItemsSpaced, OrderSpaced, VtablesClear, ReadOrder, RefAt, SentOk;
    RootReads(buf, at, orderId, orderType, sent);
  }

  // ---------------------------------------------------------------- sending

  /** The offset of the root table: behind it the items, the vector, and the strings of the order. */
  function RootTable(orderId: Bytes, orderType: Bytes, sent: seq<Sent>): nat {
    StringEnd(StringEnd(VectorEnd(ItemsEnd(sent, |sent|), |sent|), |orderId|), |orderType|) + 16
  }

  /** The size of the broadcast. */
  function SizeOf(orderId: Bytes, orderType: Bytes, sent: seq<Sent>): nat {
    FinishEnd(RootTable(orderId, orderType, sent) + (if Seen(sent, |sent|, true) then 0 else 10))
  }

  /**
   Items, the vector of their offsets, the strings of the order and the order, each
   in front of what it refers to; `backwards` is the way of the C++ functions.  The
   last thing the builder makes room for are 4 bytes in front of the whole: if there
   is room for these, there is for all.
   */
  method Send(orderId: Bytes, orderType: Bytes, sent: seq<Sent>, backwards: bool) returns (payload: Bytes, ghost at: OrderLayout)
    requires SentOk(sent) && SizeOf(orderId, orderType, sent) + 4 < LIMIT
    ensures Written(payload, at, orderId, orderType, sent) && DefaultsLeftOut(at.ats, sent)
    ensures |payload| == SizeOf(orderId, orderType, sent)
    ensures ReadOrder(payload) == Ok(OrderView(Some(orderId), Some(orderType), Views(sent)))
  {
    var b := new Builder(1024, backwards);
    NoVtables(b.Contents());
    PartsFit(orderId, orderType, sent);
    var offsets, ats, ends := WriteItems(b, sent, backwards);
    payload, at := FinishOrder(b, orderId, orderType, sent, offsets, ats, ends, backwards);
    WrittenReads(payload, at, orderId, orderType, sent);
  }

  /** What is left of the room when the root table is to be closed is enough for a vtable. */
  lemma RootRoom(orderId: Bytes, orderType: Bytes, sent: seq<Sent>)
    requires SizeOf(orderId, orderType, sent) + 4 < LIMIT && RootTable(orderId, orderType, sent) >= 16
    requires Aligned(RootTable(orderId, orderType, sent) - 16)
    ensures RootTable(orderId, orderType, sent) + 10 < LIMIT
  {
    assert LIMIT == 4 * (LIMIT / 4);
  }

  method FinishOrder(b: Builder, orderId: Bytes, orderType: Bytes, ghost sent: seq<Sent>, offsets: seq<nat>,
                     ghost ats: seq<ItemLayout>, ghost ends: seq<nat>, backwards: bool)
    returns (payload: Bytes, ghost at: OrderLayout)
    requires b.Valid() && !b.nested && SentOk(sent) && SizeOf(orderId, orderType, sent) + 4 < LIMIT
    requires offsets == OffsetsOf(ats) && ItemsWritten(b.Contents(), b.vtables, ats, ends, sent, |sent|, backwards)
    modifies b, b.bytes
    ensures Written(payload, at, orderId, orderType, sent) && DefaultsLeftOut(at.ats, sent)
    ensures |payload| == SizeOf(orderId, orderType, sent)
  {
    hide Builder.Contents;
    hide VtableOk, VtablesOk, Tail, ItemsHold, ItemsSpaced, VtablesClear, RefAt, StringAt, TableHolds, VectorAt, ItemsWritten;
    hide Written, OrderFilled;
    hide Aligned, KindKnown, KindHolds, ThreeKind, ItemsEnd, StringEnd, VectorEnd, FinishEnd, Padding, DefaultsLeftOut, SizesTold;
    ghost var c0, vts := b.Contents(), b.vtables;
    PartsFit(orderId, orderType, sent);
    AllItemsWritten(c0, vts, ats, ends, sent, backwards);
    var vector, oid, otype := WriteParts(b, offsets, orderId, orderType);
    ghost var c3 := b.Contents();
    RootRoom(orderId, orderType, sent);
    SizesToldMove(c3, c0, vts, backwards);
    var order, vt, slots := WriteOrderTable(b, oid, otype, vector, backwards);
    ghost var c4 := b.Contents();
    KindKnownMoves(c3, c0, vts, ThreeKind(true, backwards));
    b.Finish(order);
    payload := b.FinishedBytes();
    at := OrderLayout(ats, ends, vector, oid, otype, order, vt, slots, b.vtables);
    PartsWritten(payload, c4, c3, c0, vts, at, orderId, orderType, sent);
  }

  /** Everything is in place: what each part was when it was written, it still is in the end. */
  lemma PartsWritten(buf: Bytes, c4: Bytes, c3: Bytes, c0: Bytes, vts: seq<nat>, at: OrderLayout,
                     orderId: Bytes, orderType: Bytes, sent: seq<Sent>)
    requires Tail(buf, c4) && Tail(c4, c3) && Tail(c3, c0) && |buf| < LIMIT && RefAt(buf, |buf|, at.n)
    requires SentOk(sent) && ItemsHold(c0, at.ats, sent) && ItemsSpaced(at.ats, sent, at.ends) && VtablesClear(c0, vts, at.ats, at.ends)
    requires |at.ats| == |sent| && |at.ends| == |at.ats| + 1 && at.ends[|at.ats|] == |c0|
    requires forall k :: 0 <= k < |at.ats| ==> at.ats[k].n <= |c0|
    requires forall k :: 0 <= k < |at.ats| ==> at.ats[k].vt in vts
    requires VtablesOk(c0, vts) && VtablesOk(c3, vts) && VtablesOk(c4, at.vts) && VtablesOk(buf, at.vts) && |c4| < |buf|
    requires if at.vt in vts then at.vts == vts else at.vts == vts + [at.vt] && at.vt <= |c4| && at.n + VtableLength(c4, at.vt) == at.vt
    requires VectorAt(c3, at.vector, OffsetsOf(at.ats)) && StringAt(c3, at.orderId, orderId) && StringAt(c3, at.orderType, orderType)
    requires |c3| <= at.n && FieldsSpaced(at.slots, |c3|, at.n) && at.slots[1] != 0 && TableHolds(c4, at.n, at.vt, at.slots)
    requires OrderFilled(c4, at.slots, at.orderId, at.orderType, at.vector)
    requires |c0| + 4 + 4 * |at.ats| <= at.vector
    requires |c0| + |orderId| + 5 <= at.orderId && |c0| + |orderType| + 5 <= at.orderType
    ensures Written(buf, at, orderId, orderType, sent)
  {
    hide VtableOk, VtablesOk, ItemsHold, ItemsSpaced, VtablesClear, RefAt, StringAt, TableHolds, VectorAt, OrderHolds, Tail;
    hide VtableLength, OffsetsOf, SentOk;
    TailLonger(c4, c3);
    TailLonger(c3, c0);
    OrderMoved(buf, c4, c3, c0, at, orderId, orderType, sent);
    VtablesStayClear(buf, c4, c3, c0, vts, at);
    VtablesBelow(c4, at.vts);
  }

  /** What the root table refers to besides the items: their vector and two strings. */
  method WriteParts(b: Builder, offsets: seq<nat>, orderId: Bytes, orderType: Bytes) returns (vector: nat, oid: nat, otype: nat)
    requires b.Valid() && !b.nested && forall j :: 0 <= j < |offsets| ==> offsets[j] <= b.Offset()
    requires StringEnd(StringEnd(VectorEnd(b.Offset(), |offsets|), |orderId|), |orderType|) < LIMIT
    modifies b, b.bytes
    ensures b.Valid() && (b.bytes == old(b.bytes) || fresh(b.bytes)) && b.minalign == 4
    ensures !b.nested && b.finished == old(b.finished) && b.vtables == old(b.vtables)
    ensures Tail(b.Contents(), old(b.Contents())) && Aligned(b.Offset())
    ensures b.Offset() == StringEnd(StringEnd(VectorEnd(old(b.Offset()), |offsets|), |orderId|), |orderType|)
    ensures VectorAt(b.Contents(), vector, offsets) && StringAt(b.Contents(), oid, orderId) && StringAt(b.Contents(), otype, orderType)
    ensures old(b.Offset()) + 4 + 4 * |offsets| <= vector <= b.Offset()
    ensures old(b.Offset()) + |orderId| + 5 <= oid <= b.Offset() && old(b.Offset()) + |orderType| + 5 <= otype <= b.Offset()
  {
    hide Builder.Contents, VtableOk, VtablesOk, Tail, StringAt, VectorAt, Aligned, StringEnd, VectorEnd, Padding;
    ghost var c0 := b.Contents();
    vector := WriteVector(b, offsets);
    ghost var c1 := b.Contents();
    oid := b.CreateString(orderId);
    ghost var c2 := b.Contents();
    otype := b.CreateString(orderType);
    ghost var c3 := b.Contents();
    StringInside(c3, otype, orderType);
    TailTransitive(c3, c2, c1);
    TailTransitive(c3, c1, c0);
    VectorAtMoves(c3, c1, vector, offsets);
    StringAtMoves(c3, c2, oid, orderId);
  }

  lemma AllItemsWritten(buf: Bytes, vts: seq<nat>, ats: seq<ItemLayout>, ends: seq<nat>, sent: seq<Sent>, backwards: bool)
    requires ItemsWritten(buf, vts, ats, ends, sent, |sent|, backwards)
    ensures |ats| == |sent| && |ends| == |ats| + 1 && ends[|ats|] == |buf| == ItemsEnd(sent, |sent|)
    ensures ItemsHold(buf, ats, sent) && ItemsSpaced(ats, sent, ends) && DefaultsLeftOut(ats, sent)
    ensures VtablesClear(buf, vts, ats, ends) && forall i :: 0 <= i < |ats| ==> ats[i].vt in vts
    ensures KindKnown(buf, vts, ThreeKind(true, backwards)) <==> Seen(sent, |sent|, true)
    ensures SizesTold(buf, vts, backwards)
    ensures forall k :: 0 <= k < |ats| ==> |ats[k].slots| == 3 && ats[k].slots[1] <= |buf| && ats[k].n <= |buf|
  {
    hide ItemsHold, VtablesClear;
    assert sent[..|sent|] == sent;
    QuantitiesBelow(ats, sent, ends);
  }

  lemma VtablesStayClear(buf: Bytes, c4: Bytes, c3: Bytes, c0: Bytes, vts: seq<nat>, at: OrderLayout)
    requires Tail(buf, c4) && Tail(c4, c3) && Tail(c3, c0) && VtablesClear(c0, vts, at.ats, at.ends)
    requires VtablesOk(c0, vts) && VtablesOk(c3, vts) && VtablesOk(c4, at.vts)
    requires (forall k :: 0 <= k < |at.ats| ==> at.ats[k].n <= |c0|) && |c3| <= at.n
    requires if at.vt in vts then at.vts == vts else at.vts == vts + [at.vt] && at.vt <= |c4| && at.n + VtableLength(c4, at.vt) == at.vt
    ensures VtablesClear(buf, at.vts, at.ats, at.ends) && VtableClear(buf, at.vt, |c0|, at.n)
  {
    hide Tail, VtablesClear, VtablesOk, VtableLength, VtableOk, VtableClear;
    TailLonger(c4, c3);
    TailLonger(c3, c0);
    VtablesClearMove(c3, c0, vts, at.ats, at.ends);
    VtablesClearTable(c4, c3, vts, at.vts, at.ats, at.ends, at.n, at.vt);
    VtablesClearMove(buf, c4, at.vts, at.ats, at.ends);
    OrderVtableClear(buf, c4, c0, vts, at);
  }

  lemma OrderVtableClear(buf: Bytes, c4: Bytes, c0: Bytes, vts: seq<nat>, at: OrderLayout)
    requires Tail(buf, c4) && VtablesClear(c0, vts, at.ats, at.ends) && VtablesOk(c4, at.vts) && |c0| <= |c4|
    requires if at.vt in vts then at.vts == vts else at.vts == vts + [at.vt] && at.vt <= |c4| && at.n + VtableLength(c4, at.vt) == at.vt
    ensures VtableClear(buf, at.vt, |c0|, at.n)
  {
    hide Tail, VtableLength, VtableOk;
    var v :| 0 <= v < |at.vts| && at.vts[v] == at.vt;
    assert VtableOk(c4, at.vts[v]);
    VtableClearMoves(buf, c4, at.vt, |c0|, at.n);
  }

  /** Each part ends where the size says. */
  lemma PartsFit(orderId: Bytes, orderType: Bytes, sent: seq<Sent>)
    requires SizeOf(orderId, orderType, sent) + 4 < LIMIT
    ensures var v := VectorEnd(ItemsEnd(sent, |sent|), |sent|);
      && ItemsEnd(sent, |sent|) + 10 < v + 20 < LIMIT && StringEnd(v, |orderId|) < LIMIT
      && StringEnd(StringEnd(v, |orderId|), |orderType|) < LIMIT
  {
    hide StringEnd, VectorEnd, FinishEnd, ItemsEnd;
  }

  /** What held when each part was written still holds in the end. */
  lemma OrderMoved(buf: Bytes, c4: Bytes, c3: Bytes, c0: Bytes, at: OrderLayout, orderId: Bytes, orderType: Bytes, sent: seq<Sent>)
    requires Tail(buf, c4) && Tail(c4, c3) && Tail(c3, c0)
    requires ItemsHold(c0, at.ats, sent) && VectorAt(c3, at.vector, OffsetsOf(at.ats))
    requires StringAt(c3, at.orderId, orderId) && StringAt(c3, at.orderType, orderType)
    requires SlotsBelow(at.slots, at.n) && TableHolds(c4, at.n, at.vt, at.slots)
    requires RefAt(c4, at.slots[0], at.orderId) && RefAt(c4, at.slots[1], at.orderType) && RefAt(c4, at.slots[2], at.vector)
    ensures OrderHolds(buf, at, orderId, orderType, sent)
  {
    hide ItemsHold, RefAt, StringAt, TableHolds, VectorAt, Tail;
    TailTransitive(buf, c4, c3);
    TailTransitive(buf, c3, c0);
    ItemsHoldMove(buf, c0, at.ats, sent);
    VectorAtMoves(buf, c3, at.vector, OffsetsOf(at.ats));
    StringAtMoves(buf, c3, at.orderId, orderId);
    StringAtMoves(buf, c3, at.orderType, orderType);
    TableHoldsMoves(buf, c4, at.n, at.vt, at.slots);
    RefAtMoves(buf, c4, at.slots[0], at.orderId);
    RefAtMoves(buf, c4, at.slots[1], at.orderType);
    RefAtMoves(buf, c4, at.slots[2], at.vector);
  }

  lemma NoVtables(buf: Bytes)
    ensures VtablesOk(buf, [])
  {
  }
}