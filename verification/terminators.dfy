/** Broadcasts that are refused: a string has lost its terminating zero, or the order is not where a table may be. */
module Terminators {
  import opened Wire
  import opened FlatBuffer
  import opened FlatBuilder
  import opened Broadcast
  import opened FlatVerifier
  import opened Mutate
  import opened FlatBytes
  import opened ReadBytes

  // -------------------------------------------------- what one byte leaves

  /** The byte at `i` is none of the `width` bytes at `p`. */
  predicate Outside(i: int, p: int, width: int) {
    i < p || p + width <= i
  }

  lemma HalfSame(buf: Bytes, i: nat, x: Byte, p: int)
    requires i < |buf| && Outside(i, p, 2)
    ensures Half(buf[i := x], p) == Half(buf, p)
  {
  }

  lemma WordSame(buf: Bytes, i: nat, x: Byte, p: int)
    requires i < |buf| && Outside(i, p, 4)
    ensures Word(buf[i := x], p) == Word(buf, p)
  {
    hide Half;
    HalfSame(buf, i, x, p);
    HalfSame(buf, i, x, p + 2);
  }

  /** The byte is not among those that lead to the field: the table's first word, its vtable, and the reference. */
  predicate OutsidePath(buf: Bytes, i: int, p: int, slot: nat) {
    var vtable := p - SignedWord(buf, p);
    Outside(i, p, 4) && Outside(i, vtable, Half(buf, vtable)) && Outside(i, p + RawField(buf, p, slot), 4)
  }

  lemma FieldSame(buf: Bytes, i: nat, x: Byte, p: int, slot: nat)
    requires i < |buf| && RawTable(buf, p) && slot >= 2 && slot % 2 == 0 && RawField(buf, p, slot) != 0 && OutsidePath(buf, i, p, slot)
    ensures RawField(buf[i := x], p, slot) == RawField(buf, p, slot)
    ensures RawTarget(buf[i := x], p, slot) == RawTarget(buf, p, slot)
  {
    hide Half, Word;
    var vtable := p - SignedWord(buf, p);
    WordSame(buf, i, x, p);
    EntryRoom(Half(buf, vtable), slot);
    HalfSame(buf, i, x, vtable);
    HalfSame(buf, i, x, vtable + slot);
    WordSame(buf, i, x, p + RawField(buf, p, slot));
  }

  lemma EntryRoom(length: nat, slot: nat)
    requires length % 2 == 0 && slot % 2 == 0 && slot < length
    ensures slot + 2 <= length
  {
  }

  /** A string field whose terminator is changed is not sound. */
  lemma StringBroken(buf: Bytes, i: nat, x: Byte, p: int, slot: nat)
    requires RawTable(buf, p) && slot >= 2 && slot % 2 == 0 && RawField(buf, p, slot) != 0 && RawStringField(buf, p, slot)
    requires i == RawTarget(buf, p, slot) + 4 + Word(buf, RawTarget(buf, p, slot)) && i < |buf| && x != 0
    requires OutsidePath(buf, i, p, slot)
    ensures !RawStringField(buf[i := x], p, slot)
  {
    hide Word, RawField, RawTarget, RawTable, OutsidePath, RawReference;
    FieldSame(buf, i, x, p, slot);
    WordSame(buf, i, x, RawTarget(buf, p, slot));
  }

  lemma OrderBroken(buf: Bytes, i: nat, x: Byte, slot: nat)
    requires SoundBytes(buf) && (slot == 4 || slot == 6) && RawField(buf, Word(buf, 0), slot) != 0
    requires i == RawTarget(buf, Word(buf, 0), slot) + 4 + Word(buf, RawTarget(buf, Word(buf, 0), slot)) && i < |buf| && x != 0
    requires Outside(i, 0, 4) && OutsidePath(buf, i, Word(buf, 0), slot)
    ensures !SoundBytes(buf[i := x])
  {
    hide Word, RawField, RawTarget, RawTable, RawStringField, OutsidePath, RawReference, RawVector;
    WordSame(buf, i, x, 0);
    StringBroken(buf, i, x, Word(buf, 0), slot);
  }

  lemma ItemBroken(buf: Bytes, i: nat, x: Byte, j: nat, slot: nat)
    requires SoundBytes(buf) && j < RawCount(buf, Word(buf, 0)) && (slot == 4 || slot == 8)
    requires var root, place := Word(buf, 0), RawItemPlace(buf, Word(buf, 0), j);
      && RawField(buf, place, slot) != 0 && x != 0 && i < |buf|
      && i == RawTarget(buf, place, slot) + 4 + Word(buf, RawTarget(buf, place, slot))
      && Outside(i, 0, 4) && OutsidePath(buf, i, root, 8) && OutsidePath(buf, i, place, slot)
      && Outside(i, RawTarget(buf, root, 8), 4) && Outside(i, RawTarget(buf, root, 8) + 4 + 4 * j, 4)
    ensures !SoundBytes(buf[i := x])
  {
    hide Word, RawField, RawTarget, RawTable, RawStringField, OutsidePath, RawReference, RawVector;
    var root, place := Word(buf, 0), RawItemPlace(buf, Word(buf, 0), j);
    WordSame(buf, i, x, 0);
    FieldSame(buf, i, x, root, 8);
    WordSame(buf, i, x, RawTarget(buf, root, 8));
    WordSame(buf, i, x, RawTarget(buf, root, 8) + 4 + 4 * j);
    StringBroken(buf, i, x, place, slot);
    assert RawItemPlace(buf[i := x], root, j) == place && !RawItem(buf[i := x], place);
  }

  // -------------------------------------------- where it lies in a broadcast

  /** Where the parts of a written table are, counted from the start. */
  lemma TablePlaces(buf: Bytes, n: nat, vt: nat, slots: seq<nat>, i: nat, target: nat)
    requires TableHolds(buf, n, vt, slots) && Aligned(|buf|) && n < |buf| < LIMIT && vt < |buf|
    requires i < |slots| && slots[i] < n && RefAt(buf, slots[i], target) && 0 < target
    ensures var p, slot := |buf| - n, 4 + 2 * i;
      && p - SignedWord(buf, p) == |buf| - vt && Half(buf, |buf| - vt) == VtableLength(buf, vt)
      && RawField(buf, p, slot) != 0 && p + RawField(buf, p, slot) == |buf| - slots[i] && RawTarget(buf, p, slot) == |buf| - target
  {
    hide TableHolds, RefAt, Aligned, TableStartOk, RawTable, Number, Vtable, Field, RawField, Word, SignedWord, Half;
    var p := |buf| - n;
    TableStartAccepted(buf, n, vt, slots);
    FieldFound(buf, n, vt, slots, i);
    RefInside(buf, slots[i], target);
    RefAccepted(buf, slots[i], target);
    TableIs(buf, p);
    FieldIs(buf, p, 4 + 2 * i);
    ReferenceIs(buf, |buf| - slots[i]);
    NumberBytes(buf, |buf| - vt);
  }

  lemma LengthThere(buf: Bytes, at: nat, s: Bytes)
    requires StringAt(buf, at, s)
    ensures |s| + 5 <= at <= |buf| && Word(buf, |buf| - at) == |s| && buf[|buf| - at + 4 + |s|] == 0
  {
    NumberBytes(buf, |buf| - at);
  }

  /** The terminator of a string in front of `lo` is not on a path through a table in front of the string. */
  lemma PathApart(buf: Bytes, p: int, slot: nat, n: nat, vt: nat, field: nat, target: nat, length: nat, lo: nat)
    requires n <= |buf| && vt <= |buf| && p == |buf| - n && p - SignedWord(buf, p) == |buf| - vt
    requires Half(buf, |buf| - vt) == VtableLength(buf, vt) && p + RawField(buf, p, slot) == |buf| - field
    requires lo + length + 5 <= target && target <= n && target <= field && VtableClear(buf, vt, lo, n)
    ensures OutsidePath(buf, |buf| - target + 4 + length, p, slot)
  {
    hide RawField, SignedWord, Half, VtableLength;
  }

  lemma OrderString(buf: Bytes, at: OrderLayout, orderId: Bytes, orderType: Bytes, sent: seq<Sent>, i: nat, target: nat, s: Bytes)
    requires Written(buf, at, orderId, orderType, sent) && |at.slots| == 3
    requires (i == 0 && target == at.orderId && s == orderId) || (i == 1 && target == at.orderType && s == orderType)
    ensures var p, slot, e := |buf| - at.n, 4 + 2 * i, |buf| - target + 4 + |s|;
      && RawField(buf, p, slot) != 0 && RawTarget(buf, p, slot) == |buf| - target && Word(buf, |buf| - target) == |s|
      && 4 <= e < |buf| && buf[e] == 0 && OutsidePath(buf, e, p, slot)
  {
    hide TableHolds, StringAt, VectorAt, ItemsHold, ItemsSpaced, RefAt, Aligned, VtableClear, OutsidePath, RawField, RawTarget;
    hide Word, SignedWord, Half, VtableLength;
    WrittenFacts(buf, at, orderId, orderType, sent);
    LengthThere(buf, target, s);
    RefInside(buf, at.slots[i], target);
    TablePlaces(buf, at.n, at.vt, at.slots, i, target);
    PathApart(buf, |buf| - at.n, 4 + 2 * i, at.n, at.vt, at.slots[i], target, |s|, at.ends[|at.ats|]);
  }

  /** The order id or type without its terminating zero, all else as it was written. */
  lemma OrderTerminated(buf: Bytes, at: OrderLayout, orderId: Bytes, orderType: Bytes, sent: seq<Sent>, slot: nat, s: Bytes, x: Byte)
    requires Written(buf, at, orderId, orderType, sent) && x != 0
    requires (slot == 4 && s == orderId) || (slot == 6 && s == orderType)
    ensures var e := RawTarget(buf, Word(buf, 0), slot) + 4 + |s|;
      0 <= e < |buf| && buf[e] == 0 && !Accepted(buf[e := x])
  {
    hide Written, Accepted, SoundBytes, RawField, RawTarget, Word, OutsidePath;
    WrittenSound(buf, at, orderId, orderType, sent);
    SlotsThree(buf, at, orderId, orderType, sent);
    OrderString(buf, at, orderId, orderType, sent, (slot - 4) / 2, if slot == 4 then at.orderId else at.orderType, s);
    var e := RawTarget(buf, Word(buf, 0), slot) + 4 + |s|;
    OrderBroken(buf, e, x, slot);
    AcceptedIsSound(buf[e := x]);
  }

  lemma SlotsThree(buf: Bytes, at: OrderLayout, orderId: Bytes, orderType: Bytes, sent: seq<Sent>)
    requires Written(buf, at, orderId, orderType, sent)
    ensures |at.slots| == 3
  {
    hide OrderHolds;
  }

  lemma ItemString(buf: Bytes, at: OrderLayout, orderId: Bytes, orderType: Bytes, sent: seq<Sent>, j: nat, i: nat, target: nat, s: Bytes)
    requires Written(buf, at, orderId, orderType, sent) && j < |sent| == |at.ats|
    requires (i == 0 && target == at.ats[j].sku && s == sent[j].sku) || (i == 2 && target == at.ats[j].aisle && s == sent[j].details.aisle)
    ensures var p, slot, e := |buf| - at.ats[j].n, 4 + 2 * i, |buf| - target + 4 + |s|;
      && RawField(buf, p, slot) != 0 && RawTarget(buf, p, slot) == |buf| - target && Word(buf, |buf| - target) == |s|
      && 0 <= e < |buf| && buf[e] == 0 && OutsidePath(buf, e, p, slot)
  {
    hide TableHolds, StringAt, VectorAt, OrderHolds, OrderSpaced, RefAt, Aligned, VtableClear, OutsidePath, RawField, RawTarget;
    hide Word, SignedWord, Half, VtableLength;
    WrittenFacts(buf, at, orderId, orderType, sent);
    ItemWritten(buf, at, orderId, orderType, sent, j);
    var a := at.ats[j];
    assert Spaced(a, sent[j].sku, sent[j].details, at.ends[j], at.ends[j + 1]);
    LengthThere(buf, target, s);
    RefInside(buf, a.slots[i], target);
    TablePlaces(buf, a.n, a.vt, a.slots, i, target);
    var v :| 0 <= v < |at.vts| && at.vts[v] == a.vt;
    PathApart(buf, |buf| - a.n, 4 + 2 * i, a.n, a.vt, a.slots[i], target, |s|, at.ends[j]);
  }

  /** The order, where the path to an item goes through it, lies in front of the item. */
  lemma ItemPath(buf: Bytes, at: OrderLayout, orderId: Bytes, orderType: Bytes, sent: seq<Sent>, j: nat, target: nat, length: nat)
    requires Written(buf, at, orderId, orderType, sent) && j < |sent| == |at.ats| && |at.ends| == |at.ats| + 1
    requires at.ends[j] + length + 5 <= target <= at.ats[j].n
    ensures var root, e := |buf| - at.n, |buf| - target + 4 + length;
      && RawField(buf, root, 8) != 0 && RawTarget(buf, root, 8) == |buf| - at.vector
      && Outside(e, 0, 4) && OutsidePath(buf, e, root, 8)
      && Outside(e, |buf| - at.vector, 4) && Outside(e, |buf| - at.vector + 4 + 4 * j, 4)
  {
    hide TableHolds, StringAt, ItemsHold, RefAt, Aligned, VtableClear, RawField, RawTarget, Word, SignedWord, Half, VtableLength;
    WrittenFacts(buf, at, orderId, orderType, sent);
    assert Spaced(at.ats[j], sent[j].sku, sent[j].details, at.ends[j], at.ends[j + 1]);
    RefInside(buf, at.slots[2], at.vector);
    TablePlaces(buf, at.n, at.vt, at.slots, 2, at.vector);
    var v :| 0 <= v < |at.vts| && at.vts[v] == at.vt;
    OrderInFront(buf, at.vt, at.ends[j], at.ats[j].n, target, length);
  }

  lemma OrderInFront(buf: Bytes, vt: nat, lo: nat, n: nat, target: nat, length: nat)
    requires VtableClear(buf, vt, lo, n) && lo + length + 5 <= target <= n
    ensures Outside(|buf| - target + 4 + length, |buf| - vt, VtableLength(buf, vt))
  {
  }

  /** The name or aisle of an item without its terminating zero, all else as it was written. */
  lemma ItemTerminated(buf: Bytes, at: OrderLayout, orderId: Bytes, orderType: Bytes, sent: seq<Sent>, j: nat, slot: nat, s: Bytes, x: Byte)
    requires Written(buf, at, orderId, orderType, sent) && j < |sent| && x != 0
    requires (slot == 4 && s == sent[j].sku) || (slot == 8 && s == sent[j].details.aisle)
    ensures var e := RawTarget(buf, RawItemPlace(buf, Word(buf, 0), j), slot) + 4 + |s|;
      0 <= e < |buf| && buf[e] == 0 && !Accepted(buf[e := x])
  {
    hide Written, Accepted, SoundBytes, RawField, RawTarget, Word, OutsidePath, RawItemPlace, RawCount;
    WrittenSound(buf, at, orderId, orderType, sent);
    var target := ItemTarget(buf, at, orderId, orderType, sent, j, slot, s);
    var e := |buf| - target + 4 + |s|;
    ItemPlaceRaw(buf, at, orderId, orderType, sent, j);
    ItemString(buf, at, orderId, orderType, sent, j, (slot - 4) / 2, target, s);
    ItemPath(buf, at, orderId, orderType, sent, j, target, |s|);
    ItemBroken(buf, e, x, j, slot);
    AcceptedIsSound(buf[e := x]);
  }

  lemma ItemTarget(buf: Bytes, at: OrderLayout, orderId: Bytes, orderType: Bytes, sent: seq<Sent>, j: nat, slot: nat, s: Bytes)
    returns (target: nat)
    requires Written(buf, at, orderId, orderType, sent) && j < |sent|
    requires (slot == 4 && s == sent[j].sku) || (slot == 8 && s == sent[j].details.aisle)
    ensures |at.ats| == |sent| && |at.ends| == |at.ats| + 1 && target == if slot == 4 then at.ats[j].sku else at.ats[j].aisle
    ensures at.ends[j] + |s| + 5 <= target <= at.ats[j].n
  {
    hide OrderHolds;
    target := if slot == 4 then at.ats[j].sku else at.ats[j].aisle;
    assert Spaced(at.ats[j], sent[j].sku, sent[j].details, at.ends[j], at.ends[j + 1]);
  }

  lemma ItemPlaceRaw(buf: Bytes, at: OrderLayout, orderId: Bytes, orderType: Bytes, sent: seq<Sent>, j: nat)
    requires Written(buf, at, orderId, orderType, sent) && j < |sent|
    ensures |at.ats| == |sent| && RawItemPlace(buf, |buf| - at.n, j) == |buf| - at.ats[j].n
  {
    hide Written, OrderHolds, OrderTableOk, RawOrder, RawItemPlace, ItemAt, SoundBytes, Accepted, RefAt;
    WrittenFacts(buf, at, orderId, orderType, sent);
    OrderAccepted(buf, at, orderId, orderType, sent);
    OrderIs(buf, |buf| - at.n);
  }

  // --------------------------------------------------------------- alignment

  lemma LowByte(buf: Bytes)
    requires 4 <= |buf|
    ensures Word(buf, 0) % 4 == buf[0] % 4
  {
    var low: int, next: int := buf[0], buf[1];
    assert Word(buf, 0) == low + 4 * (64 * next + 16384 * Half(buf, 2));
  }

  /** A broadcast whose first word leads beside the order, not to a multiple of 4. */
  lemma RootMisplaced(buf: Bytes, at: OrderLayout, orderId: Bytes, orderType: Bytes, sent: seq<Sent>, x: Byte)
    requires Written(buf, at, orderId, orderType, sent) && x % 4 != 0
    ensures 0 < |buf| && !Accepted(buf[0 := x])
  {
    hide Written, Accepted, Word;
    WrittenSound(buf, at, orderId, orderType, sent);
    LowByte(buf[0 := x]);
    AcceptedIsSound(buf[0 := x]);
  }
}
