/** The generated verifier, which a reader may run on a buffer first, and that it accepts what the publisher sends. */
module FlatVerifier {
  import opened Wire
  import opened FlatBuffer
  import opened FlatBuilder
  import opened Broadcast

  const MAX_TABLES: int := 1_000_000
  const MAX_DEPTH: int := 64
  const MAX_SIZE: int := TWO_TO_31 - 1

  predicate RangeOk(buf: Bytes, pos: nat, length: nat) {
    length < |buf| && pos <= |buf| - length
  }

  /** A number of `width` bytes, aligned to its width. */
  predicate ScalarOk(buf: Bytes, pos: nat, width: nat)
    requires width == 2 || width == 4
  {
    (if width == 2 then Even(pos) else Aligned(pos)) && RangeOk(buf, pos, width)
  }

  function NumberOr0(buf: Bytes, pos: nat, width: nat): nat {
    var v := Number(buf, pos, width);
    if v.Ok? then v.value else 0
  }

  function Vtable(buf: Bytes, pos: nat): nat {
    (pos - Signed32(NumberOr0(buf, pos, 4))) % TWO_TO_64
  }

  predicate TableStartOk(buf: Bytes, pos: nat) {
    && ScalarOk(buf, pos, 4) && ScalarOk(buf, Vtable(buf, pos), 2)
    && Even(NumberOr0(buf, Vtable(buf, pos), 2)) && RangeOk(buf, Vtable(buf, pos), NumberOr0(buf, Vtable(buf, pos), 2))
  }

  /** Where a field is, 0 when it is absent. */
  function Field(buf: Bytes, pos: nat, slot: nat): nat {
    if slot < NumberOr0(buf, Vtable(buf, pos), 2) then NumberOr0(buf, Vtable(buf, pos) + slot, 2) else 0
  }

  /** A stored offset: not null, not negative, into the buffer. */
  predicate OffsetOk(buf: Bytes, pos: nat) {
    && ScalarOk(buf, pos, 4)
    && var offset := NumberOr0(buf, pos, 4); offset != 0 && offset < TWO_TO_31 && RangeOk(buf, pos + offset, 1)
  }

  function Target(buf: Bytes, pos: nat): nat {
    pos + NumberOr0(buf, pos, 4)
  }

  predicate VectorOk(buf: Bytes, pos: nat, width: nat)
    requires width > 0
  {
    && ScalarOk(buf, pos, 4) && NumberOr0(buf, pos, 4) < MAX_SIZE / width
    && RangeOk(buf, pos, 4 + width * NumberOr0(buf, pos, 4))
  }

  /** Terminated by a zero. */
  predicate StringOk(buf: Bytes, pos: nat) {
    && VectorOk(buf, pos, 1)
    && var end := pos + 4 + NumberOr0(buf, pos, 4); RangeOk(buf, end, 1) && buf[end] == 0
  }

  predicate StringFieldOk(buf: Bytes, pos: nat, slot: nat) {
    var field := Field(buf, pos, slot);
    field != 0 ==> OffsetOk(buf, pos + field) && StringOk(buf, Target(buf, pos + field))
  }

  predicate WordFieldOk(buf: Bytes, pos: nat, slot: nat) {
    var field := Field(buf, pos, slot);
    field != 0 ==> ScalarOk(buf, pos + field, 4)
  }

  predicate ItemOk(buf: Bytes, pos: nat) {
    && TableStartOk(buf, pos) && StringFieldOk(buf, pos, VT_FIRST) && WordFieldOk(buf, pos, VT_SECOND)
    && StringFieldOk(buf, pos, VT_THIRD)
  }

  /** Where element `j` of a vector of tables leads. */
  function Element(buf: Bytes, vector: nat, j: nat): nat {
    Target(buf, vector + 4 + 4 * j)
  }

  predicate OrderTableOk(buf: Bytes, pos: nat) {
    && TableStartOk(buf, pos) && StringFieldOk(buf, pos, VT_FIRST) && StringFieldOk(buf, pos, VT_SECOND)
    && var field := Field(buf, pos, VT_THIRD);
       field != 0 ==> OffsetOk(buf, pos + field) && VectorOk(buf, Target(buf, pos + field), 4)
  }

  /** How many items the order has. */
  function ItemCount(buf: Bytes, pos: nat): nat {
    var field := Field(buf, pos, VT_THIRD);
    if field == 0 then 0 else NumberOr0(buf, Target(buf, pos + field), 4)
  }

  function ItemAt(buf: Bytes, pos: nat, j: nat): nat {
    Element(buf, Target(buf, pos + Field(buf, pos, VT_THIRD)), j)
  }

  /** What the verifier accepts: sound tables, and not too many of them. */
  predicate Accepted(buf: Bytes) {
    && OffsetOk(buf, 0) && OrderTableOk(buf, Target(buf, 0))
    && 1 + ItemCount(buf, Target(buf, 0)) <= MAX_TABLES
    && forall j :: 0 <= j < ItemCount(buf, Target(buf, 0)) ==> ItemOk(buf, ItemAt(buf, Target(buf, 0), j))
  }

  /** The verifier counts tables and their nesting as it goes. */
  class Verifier {
    const buf: Bytes
    var depth: nat
    var tables: nat

    constructor (buf: Bytes)
      ensures this.buf == buf && depth == 0 && tables == 0
    {
      this.buf := buf;
      depth, tables := 0, 0;
    }

    method VerifyComplexity() returns (ok: bool)
      modifies this
      ensures depth == old(depth) + 1 && tables == old(tables) + 1
      ensures ok <==> depth <= 64 && tables <= 1_000_000
    {
      depth, tables := depth + 1, tables + 1;
      ok := depth <= MAX_DEPTH && tables <= MAX_TABLES;
    }

    method VerifyTableStart(pos: nat) returns (ok: bool)
      modifies this
      ensures ok <==> TableStartOk(buf, pos) && old(depth) < MAX_DEPTH && old(tables) < MAX_TABLES
      ensures ok ==> depth == old(depth) + 1 && tables == old(tables) + 1
    {
      if !ScalarOk(buf, pos, 4) { return false; }
      var vtable := Vtable(buf, pos);
      var simple := VerifyComplexity();
      if !simple || !ScalarOk(buf, vtable, 2) { return false; }
      var size := NumberOr0(buf, vtable, 2);
      ok := Even(size) && RangeOk(buf, vtable, size);
    }

    method VerifyItem(pos: nat) returns (ok: bool)
      modifies this
      ensures ok <==> ItemOk(buf, pos) && old(depth) < MAX_DEPTH && old(tables) < MAX_TABLES
      ensures ok ==> depth == old(depth) && tables == old(tables) + 1
    {
      hide TableStartOk, StringFieldOk, WordFieldOk;
      var started := VerifyTableStart(pos);
      if !started { return false; }
      ok := StringFieldOk(buf, pos, VT_FIRST) && WordFieldOk(buf, pos, VT_SECOND) && StringFieldOk(buf, pos, VT_THIRD);
      if ok { depth := depth - 1; }
    }

    method VerifyOrder(pos: nat) returns (ok: bool)
      requires depth == 0 && tables == 0
      modifies this
      ensures ok <==>
        && OrderTableOk(buf, pos) && 1 + ItemCount(buf, pos) <= MAX_TABLES
        && forall j :: 0 <= j < ItemCount(buf, pos) ==> ItemOk(buf, ItemAt(buf, pos, j))
    {
      hide TableStartOk, StringFieldOk, ItemOk, OffsetOk, VectorOk;
      var started := VerifyTableStart(pos);
      if !started { return false; }
      var field := Field(buf, pos, VT_THIRD);
      if !(StringFieldOk(buf, pos, VT_FIRST) && StringFieldOk(buf, pos, VT_SECOND)) { return false; }
      if field != 0 && !(OffsetOk(buf, pos + field) && VectorOk(buf, Target(buf, pos + field), 4)) { return false; }
      var count := ItemCount(buf, pos);
      var i := 0;
      while i < count
        invariant 0 <= i <= count && depth == 1 && tables == 1 + i <= MAX_TABLES
        invariant forall j :: 0 <= j < i ==> ItemOk(buf, ItemAt(buf, pos, j))
      {
        var sound := VerifyItem(ItemAt(buf, pos, i));
        if !sound { return false; }
        i := i + 1;
      }
      depth := depth - 1;
      ok := true;
    }

    method VerifyBuffer() returns (ok: bool)
      requires depth == 0 && tables == 0
      modifies this
      ensures ok <==> Accepted(buf)
    {
      hide OrderTableOk, ItemOk, OffsetOk;
      if !OffsetOk(buf, 0) { return false; }
      ok := VerifyOrder(Target(buf, 0));
    }
  }

  // --------------------------------------------- what the publisher sends is accepted

  /** In an aligned buffer the distance from the end tells the alignment. */
  lemma PlaceAligned(length: nat, at: nat)
    requires Aligned(length) && at <= length
    ensures Aligned(at) ==> Aligned(length - at)
    ensures Even(at) ==> Even(length - at)
  {
    assert length == 4 * (length / 4);
    if Aligned(at) {
      assert at == 4 * (at / 4);
      WordsAligned(length / 4 - at / 4);
    }
    if Even(at) {
      assert at == 2 * (at / 2);
      Halves(2 * (length / 4) - at / 2);
    }
  }

  lemma Halves(n: nat)
    ensures Even(2 * n)
  {
  }

  lemma VtableFound(length: nat, n: nat, vt: nat)
    requires n <= length < TWO_TO_31 && vt <= length
    ensures (length - n - Signed32(Wrap32(vt - n))) % TWO_TO_64 == length - vt
  {
  }

  lemma TableStartAccepted(buf: Bytes, n: nat, vt: nat, slots: seq<nat>)
    requires TableHolds(buf, n, vt, slots) && Aligned(|buf|) && n < |buf| < TWO_TO_31 && vt < |buf|
    ensures TableStartOk(buf, |buf| - n) && Vtable(buf, |buf| - n) == |buf| - vt
  {
    hide Aligned, Even, Wrap32, Signed32, VtableEntry, Entry;
    PlaceAligned(|buf|, n);
    PlaceAligned(|buf|, vt);
    VtableFound(|buf|, n, vt);
  }

  lemma FieldFound(buf: Bytes, n: nat, vt: nat, slots: seq<nat>, i: nat)
    requires TableHolds(buf, n, vt, slots) && Aligned(|buf|) && n < |buf| < TWO_TO_31 && vt < |buf| && i < |slots|
    ensures Field(buf, |buf| - n, 4 + 2 * i) == SlotEntry(n, slots[i])
  {
    hide Aligned, Even, Wrap32, Signed32, Entry, TableStartOk, SlotEntry, Vtable;
    TableStartAccepted(buf, n, vt, slots);
    if 4 + 2 * i < VtableLength(buf, vt) { WrapSmall(|buf| - vt + 4 + 2 * i); }
    assert VtableEntry(buf, |buf| - vt, 4 + 2 * i) == Ok(SlotEntry(n, slots[i]));
  }

  lemma RefAccepted(buf: Bytes, at: nat, target: nat)
    requires RefAt(buf, at, target) && 0 < target && Aligned(|buf|) && |buf| < TWO_TO_31
    ensures OffsetOk(buf, |buf| - at) && Target(buf, |buf| - at) == |buf| - target
  {
    hide Aligned;
    PlaceAligned(|buf|, at);
  }

  lemma StringAccepted(buf: Bytes, at: nat, s: Bytes)
    requires StringAt(buf, at, s) && Aligned(|buf|) && |buf| < LIMIT
    ensures StringOk(buf, |buf| - at)
  {
    hide Aligned;
    PlaceAligned(|buf|, at);
  }

  lemma StringFieldAccepted(buf: Bytes, n: nat, vt: nat, slots: seq<nat>, i: nat, target: nat, s: Bytes)
    requires TableHolds(buf, n, vt, slots) && Aligned(|buf|) && n < |buf| < LIMIT && vt < |buf| && i < |slots|
    requires slots[i] < n && RefAt(buf, slots[i], target) && StringAt(buf, target, s)
    ensures StringFieldOk(buf, |buf| - n, 4 + 2 * i)
  {
    assert 0 < target && 4 <= slots[i];
    FieldFound(buf, n, vt, slots, i);
    assert |buf| - n + SlotEntry(n, slots[i]) == |buf| - slots[i];
    hide TableHolds, RefAt, StringAt, Field, Target, OffsetOk, StringOk, Aligned;
    RefAccepted(buf, slots[i], target);
    StringAccepted(buf, target, s);
  }

  lemma WordFieldAccepted(buf: Bytes, n: nat, vt: nat, slots: seq<nat>, i: nat, v: nat)
    requires TableHolds(buf, n, vt, slots) && Aligned(|buf|) && n < |buf| < LIMIT && vt < |buf| && i < |slots|
    requires slots[i] < n && (slots[i] != 0 ==> WordAt(buf, slots[i], v))
    ensures WordFieldOk(buf, |buf| - n, 4 + 2 * i)
  {
    hide TableHolds, Field, Aligned;
    FieldFound(buf, n, vt, slots, i);
    assert slots[i] <= |buf|;
    PlaceAligned(|buf|, slots[i]);
  }

  lemma ItemAccepted(buf: Bytes, at: ItemLayout, sku: Bytes, d: ItemDetails)
    requires ItemHolds(buf, at, sku, d) && Aligned(|buf|) && at.n < |buf| < LIMIT && at.vt < |buf|
    ensures ItemOk(buf, |buf| - at.n)
  {
    hide TableHolds, RefAt, StringAt, WordAt, TableStartOk, StringFieldOk, WordFieldOk, Aligned;
    TableStartAccepted(buf, at.n, at.vt, at.slots);
    StringFieldAccepted(buf, at.n, at.vt, at.slots, 0, at.sku, sku);
    WordFieldAccepted(buf, at.n, at.vt, at.slots, 1, Wrap32(d.quantity));
    StringFieldAccepted(buf, at.n, at.vt, at.slots, 2, at.aisle, d.aisle);
  }

  lemma VectorAccepted(buf: Bytes, at: nat, targets: seq<nat>)
    requires VectorAt(buf, at, targets) && Aligned(|buf|) && at < |buf| < LIMIT
    ensures VectorOk(buf, |buf| - at, 4) && NumberOr0(buf, |buf| - at, 4) == |targets|
  {
    hide Aligned, RefAt;
    PlaceAligned(|buf|, at);
  }

  lemma ElementFound(buf: Bytes, at: nat, targets: seq<nat>, j: nat)
    requires VectorAt(buf, at, targets) && j < |targets|
    ensures at <= |buf| && targets[j] <= |buf| && Element(buf, |buf| - at, j) == |buf| - targets[j]
  {
    assert RefAt(buf, at - 4 - 4 * j, targets[j]);
  }

  /** The vector of items is where the verifier looks for it. */
  lemma ItemsAccepted(buf: Bytes, n: nat, vt: nat, slots: seq<nat>, vector: nat, targets: seq<nat>)
    requires TableHolds(buf, n, vt, slots) && Aligned(|buf|) && n < |buf| < LIMIT && vt < |buf| && |slots| == 3
    requires slots[2] < n && RefAt(buf, slots[2], vector) && VectorAt(buf, vector, targets)
    ensures var field := Field(buf, |buf| - n, VT_THIRD);
      field != 0 && OffsetOk(buf, |buf| - n + field) && VectorOk(buf, Target(buf, |buf| - n + field), 4)
    ensures ItemCount(buf, |buf| - n) == |targets|
    ensures forall j :: 0 <= j < |targets| ==> targets[j] <= |buf| && ItemAt(buf, |buf| - n, j) == |buf| - targets[j]
  {
    assert 0 < vector && 4 <= slots[2] && vector < |buf|;
    FieldFound(buf, n, vt, slots, 2);
    assert |buf| - n + SlotEntry(n, slots[2]) == |buf| - slots[2];
    RefAccepted(buf, slots[2], vector);
    VectorAccepted(buf, vector, targets);
    hide TableHolds, RefAt, VectorAt, Field, Target, OffsetOk, VectorOk, Aligned, Element;
    forall j | 0 <= j < |targets|
      ensures targets[j] <= |buf| && ItemAt(buf, |buf| - n, j) == |buf| - targets[j]
    {
      ElementFound(buf, vector, targets, j);
    }
  }

  lemma OrderAccepted(buf: Bytes, at: OrderLayout, orderId: Bytes, orderType: Bytes, sent: seq<Sent>)
    requires OrderHolds(buf, at, orderId, orderType, sent) && Aligned(|buf|) && at.n < |buf| < LIMIT && at.vt < |buf|
    ensures OrderTableOk(buf, |buf| - at.n)
    ensures ItemCount(buf, |buf| - at.n) == |sent| == |at.ats|
    ensures forall j :: 0 <= j < |sent| ==> at.ats[j].n <= |buf| && ItemAt(buf, |buf| - at.n, j) == |buf| - at.ats[j].n
  {
    hide TableHolds, RefAt, StringAt, VectorAt, ItemHolds, TableStartOk, StringFieldOk, OffsetOk, VectorOk, Aligned, Field;
    hide ItemCount, ItemAt, Target;
    TableStartAccepted(buf, at.n, at.vt, at.slots);
    StringFieldAccepted(buf, at.n, at.vt, at.slots, 0, at.orderId, orderId);
    StringFieldAccepted(buf, at.n, at.vt, at.slots, 1, at.orderType, orderType);
    ItemsAccepted(buf, at.n, at.vt, at.slots, at.vector, OffsetsOf(at.ats));
    assert forall j :: 0 <= j < |at.ats| ==> OffsetsOf(at.ats)[j] == at.ats[j].n;
  }

  /** The verifier accepts a broadcast exactly when it has not too many items; nothing else about one is ever refused. */
  lemma WrittenAccepted(buf: Bytes, at: OrderLayout, orderId: Bytes, orderType: Bytes, sent: seq<Sent>)
    requires Written(buf, at, orderId, orderType, sent)
    ensures Accepted(buf) <==> |sent| < 1_000_000
  {
    hide Written, OrderHolds, OffsetOk, OrderTableOk, ItemOk, RefAt, Aligned, ItemCount, ItemAt, Target;
    WrittenFacts(buf, at, orderId, orderType, sent);
    RefAccepted(buf, |buf|, at.n);
    OrderAccepted(buf, at, orderId, orderType, sent);
    EveryItemAccepted(buf, at, orderId, orderType, sent, |buf| - at.n);
    assert Target(buf, 0) == |buf| - at.n;
  }

  lemma EveryItemAccepted(buf: Bytes, at: OrderLayout, orderId: Bytes, orderType: Bytes, sent: seq<Sent>, pos: nat)
    requires Written(buf, at, orderId, orderType, sent) && pos + at.n == |buf|
    ensures forall j :: 0 <= j < |sent| ==> ItemOk(buf, ItemAt(buf, pos, j))
  {
    hide Written, OrderHolds, ItemOk, ItemAt, RefAt, Aligned, OrderTableOk, ItemCount;
    WrittenFacts(buf, at, orderId, orderType, sent);
    OrderAccepted(buf, at, orderId, orderType, sent);
    forall j | 0 <= j < |sent|
      ensures ItemOk(buf, ItemAt(buf, pos, j))
    {
      OneItemAccepted(buf, at, orderId, orderType, sent, j);
    }
  }

  lemma OneItemAccepted(buf: Bytes, at: OrderLayout, orderId: Bytes, orderType: Bytes, sent: seq<Sent>, j: nat)
    requires Written(buf, at, orderId, orderType, sent) && j < |sent|
    ensures |at.ats| == |sent| && at.ats[j].n <= |buf| && ItemOk(buf, |buf| - at.ats[j].n)
  {
    hide Written, OrderHolds, ItemHolds, ItemOk, RefAt, Aligned;
    ItemWritten(buf, at, orderId, orderType, sent, j);
    WrittenFacts(buf, at, orderId, orderType, sent);
    ItemAccepted(buf, at.ats[j], sent[j].sku, sent[j].details);
  }

  lemma WrittenFacts(buf: Bytes, at: OrderLayout, orderId: Bytes, orderType: Bytes, sent: seq<Sent>)
    requires Written(buf, at, orderId, orderType, sent)
    ensures OrderHolds(buf, at, orderId, orderType, sent) && RefAt(buf, |buf|, at.n)
    ensures Aligned(|buf|) && 0 < at.n < |buf| < LIMIT && at.vt < |buf|
  {
    hide TableHolds, StringAt, VectorAt, ItemsHold, VtablesClear, ItemsSpaced, OrderSpaced;
    TableInside(buf, at.n, at.vt, at.slots);
  }

  lemma ItemWritten(buf: Bytes, at: OrderLayout, orderId: Bytes, orderType: Bytes, sent: seq<Sent>, j: nat)
    requires Written(buf, at, orderId, orderType, sent) && j < |sent|
    ensures |at.ats| == |sent| && ItemHolds(buf, at.ats[j], sent[j].sku, sent[j].details)
    ensures at.ats[j].n < |buf| && at.ats[j].vt < |buf|
  {
    hide TableHolds, StringAt, RefAt, VectorAt, ItemHolds, VtablesClear, OrderSpaced;
    QuantitiesBelow(at.ats, sent, at.ends);
    OrderAbove(buf, at, orderId, orderType, sent);
  }

  lemma OrderAbove(buf: Bytes, at: OrderLayout, orderId: Bytes, orderType: Bytes, sent: seq<Sent>)
    requires Written(buf, at, orderId, orderType, sent)
    ensures at.ends[|at.ats|] + 4 <= at.n < |buf|
  {
    hide OrderHolds, VtablesClear, ItemsSpaced, RefAt;
    WrittenFacts(buf, at, orderId, orderType, sent);
  }
}