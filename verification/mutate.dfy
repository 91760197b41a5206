/** What changing the quantity of one item does to a finished broadcast. */
module Mutate {
  import opened Wire
  import opened FlatBuffer
  import opened FlatBuilder
  import opened Broadcast

  /** The buffer with the bytes at `pos` replaced. */
  function Patched(buf: Bytes, pos: nat, bs: Bytes): (r: Bytes)
    requires pos + |bs| <= |buf|
    ensures |r| == |buf|
  {
    buf[..pos] + bs + buf[pos + |bs|..]
  }

  /** What `MutateInt32Slot` makes of the buffer; none when the field is absent and nothing changes. */
  function SlotMutated(buf: Bytes, pos: nat, slot: nat, x: int): Access<Option<Bytes>> {
    match FieldOffset(buf, pos, slot)
    case OutOfRange => OutOfRange
    case Ok(offset) =>
      if offset == 0 then Ok(None)
      else if Wrap32(pos + offset) + 4 <= |buf|
      then Ok(Some(Patched(buf, Wrap32(pos + offset), EncodeFixed(Wrap32(x), 4))))
      else OutOfRange
  }

  // --------------------------------------------------- what a patch leaves

  /** `buf'` is `buf` with another word at distance `q` from the end. */
  predicate WordChanged(buf: Bytes, buf': Bytes, q: nat) {
    && 4 <= q <= |buf| == |buf'| <= TWO_TO_31
    && buf'[..|buf| - q] == buf[..|buf| - q] && buf'[|buf| - q + 4..] == buf[|buf| - q + 4..]
  }

  /** Nothing that is apart from the word changes. */
  lemma SliceKept(buf: Bytes, buf': Bytes, q: nat, hi: nat, lo: nat)
    requires WordChanged(buf, buf', q) && lo <= hi <= |buf| && Apart(q, hi, lo)
    ensures buf'[|buf| - hi..|buf| - lo] == buf[|buf| - hi..|buf| - lo]
  {
    var i, j, k := |buf| - hi, |buf| - lo, |buf| - q;
    if q <= lo {
      SliceOfFront(buf, k, i, j);
      SliceOfFront(buf', k, i, j);
    } else {
      SliceOfBack(buf, k + 4, i, j);
      SliceOfBack(buf', k + 4, i, j);
    }
  }

  lemma SliceOfFront(s: Bytes, k: nat, i: nat, j: nat)
    requires i <= j <= k <= |s|
    ensures s[..k][i..j] == s[i..j]
  {
  }

  lemma SliceOfBack(s: Bytes, k: nat, i: nat, j: nat)
    requires k <= i <= j <= |s|
    ensures s[k..][i - k..j - k] == s[i..j]
  {
  }

  lemma NumberKept(buf: Bytes, buf': Bytes, q: nat, at: nat, width: nat)
    requires WordChanged(buf, buf', q) && width <= at <= |buf| && Apart(q, at, at - width)
    ensures Number(buf', |buf| - at, width) == Number(buf, |buf| - at, width)
  {
    SliceKept(buf, buf', q, at, at - width);
  }

  lemma WordKept(buf: Bytes, buf': Bytes, q: nat, at: nat, v: nat)
    requires WordChanged(buf, buf', q) && WordAt(buf, at, v) && Apart(q, at, at - 4)
    ensures WordAt(buf', at, v)
  {
    NumberKept(buf, buf', q, at, 4);
  }

  lemma RefKept(buf: Bytes, buf': Bytes, q: nat, at: nat, target: nat)
    requires WordChanged(buf, buf', q) && RefAt(buf, at, target) && Apart(q, at, at - 4)
    ensures RefAt(buf', at, target)
  {
    WordKept(buf, buf', q, at, at - target);
  }

  lemma StringKept(buf: Bytes, buf': Bytes, q: nat, at: nat, s: Bytes)
    requires WordChanged(buf, buf', q) && StringAt(buf, at, s) && Apart(q, at, at - |s| - 5)
    ensures StringAt(buf', at, s)
  {
    WordKept(buf, buf', q, at, |s|);
    SliceKept(buf, buf', q, at - 4, at - 4 - |s|);
    SliceKept(buf, buf', q, at - 4 - |s|, at - 5 - |s|);
    assert buf[|buf| - at + 4 + |s|..|buf| - at + 5 + |s|] == [buf[|buf| - at + 4 + |s|]];
    assert buf'[|buf| - at + 4 + |s|..|buf| - at + 5 + |s|] == [buf'[|buf| - at + 4 + |s|]];
  }

  lemma EntryKept(buf: Bytes, buf': Bytes, q: nat, vt: nat, i: nat)
    requires WordChanged(buf, buf', q) && VtableOk(buf, vt) && Apart(q, vt, vt - VtableLength(buf, vt))
    requires 4 + 2 * i < VtableLength(buf, vt)
    ensures Number(buf', |buf| - vt + 4 + 2 * i, 2) == Number(buf, |buf| - vt + 4 + 2 * i, 2)
  {
    EvenRoom(VtableLength(buf, vt), i);
    NumberKept(buf, buf', q, vt - 4 - 2 * i, 2);
  }

  lemma EvenRoom(length: nat, i: nat)
    requires Even(length) && 4 + 2 * i < length
    ensures 4 + 2 * i + 2 <= length
  {
  }

  lemma VtableKept(buf: Bytes, buf': Bytes, q: nat, vt: nat)
    requires WordChanged(buf, buf', q) && VtableOk(buf, vt) && Apart(q, vt, vt - VtableLength(buf, vt))
    ensures VtableOk(buf', vt)
    ensures Number(buf', |buf| - vt, 2) == Number(buf, |buf| - vt, 2)
  {
    NumberKept(buf, buf', q, vt, 2);
    forall i: nat | 4 + 2 * i < VtableLength(buf, vt)
      ensures Entry(buf', vt, i) < vt
    {
      EntryKept(buf, buf', q, vt, i);
      assert Entry(buf, vt, i) < vt;
    }
  }

  lemma TableKept(buf: Bytes, buf': Bytes, q: nat, n: nat, vt: nat, slots: seq<nat>)
    requires WordChanged(buf, buf', q) && TableHolds(buf, n, vt, slots)
    requires Apart(q, n, n - 4) && Apart(q, vt, vt - VtableLength(buf, vt))
    ensures TableHolds(buf', n, vt, slots)
  {
    hide SlotEntry;
    VtableKept(buf, buf', q, vt);
    NumberKept(buf, buf', q, n, 4);
    forall i | 0 <= i < |slots|
      ensures VtableEntry(buf', |buf| - vt, 4 + 2 * i) == Ok(SlotEntry(n, slots[i]))
    {
      VtableEntryKept(buf, buf', q, vt, i);
    }
  }

  lemma VtableEntryKept(buf: Bytes, buf': Bytes, q: nat, vt: nat, i: nat)
    requires WordChanged(buf, buf', q) && VtableOk(buf, vt) && Apart(q, vt, vt - VtableLength(buf, vt))
    ensures VtableEntry(buf', |buf| - vt, 4 + 2 * i) == VtableEntry(buf, |buf| - vt, 4 + 2 * i)
  {
    NumberKept(buf, buf', q, vt, 2);
    if 4 + 2 * i < VtableLength(buf, vt) {
      EntryKept(buf, buf', q, vt, i);
      WrapSmall(|buf| - vt + 4 + 2 * i);
    }
  }

  // ------------------------------------------------- what it leaves of items

  /** The word at `q` is apart from every part of the item but its quantity. */
  ghost predicate PartsApart(buf: Bytes, q: nat, at: ItemLayout, sku: Bytes, d: ItemDetails)
    requires at.vt <= |buf|
  {
    && |at.slots| == 3 && WordApart(q, at.n) && Apart(q, at.vt, at.vt - VtableLength(buf, at.vt))
    && WordApart(q, at.slots[0]) && WordApart(q, at.slots[2])
    && Apart(q, at.sku, at.sku - |sku| - 5) && Apart(q, at.aisle, at.aisle - |d.aisle| - 5)
  }

  predicate WordApart(q: nat, at: int) {
    Apart(q, at, at - 4)
  }

  /** An item none of whose parts the word is in stays as it is. */
  lemma ItemKept(buf: Bytes, buf': Bytes, q: nat, at: ItemLayout, sku: Bytes, d: ItemDetails)
    requires WordChanged(buf, buf', q) && ItemHolds(buf, at, sku, d) && at.vt <= |buf| && PartsApart(buf, q, at, sku, d)
    requires at.slots[1] != 0 ==> WordApart(q, at.slots[1])
    ensures ItemHolds(buf', at, sku, d)
  {
    hide TableHolds, RefAt, StringAt, WordAt, WordChanged, Apart, VtableLength;
    TableKept(buf, buf', q, at.n, at.vt, at.slots);
    RefKept(buf, buf', q, at.slots[0], at.sku);
    StringKept(buf, buf', q, at.sku, sku);
    RefKept(buf, buf', q, at.slots[2], at.aisle);
    StringKept(buf, buf', q, at.aisle, d.aisle);
    if at.slots[1] != 0 { WordKept(buf, buf', q, at.slots[1], Wrap32(d.quantity)); }
  }

  /** The item whose quantity the word is gets another quantity. */
  lemma ItemChanged(buf: Bytes, buf': Bytes, at: ItemLayout, sku: Bytes, d: ItemDetails, x: int)
    requires ItemHolds(buf, at, sku, d) && at.slots[1] != 0
    requires WordChanged(buf, buf', at.slots[1]) && WordAt(buf', at.slots[1], Wrap32(x))
    requires at.vt <= |buf| && PartsApart(buf, at.slots[1], at, sku, d)
    ensures ItemHolds(buf', at, sku, d.(quantity := x))
  {
    hide TableHolds, RefAt, StringAt, WordAt, WordChanged, Apart, VtableLength;
    var q := at.slots[1];
    TableKept(buf, buf', q, at.n, at.vt, at.slots);
    RefKept(buf, buf', q, at.slots[0], at.sku);
    StringKept(buf, buf', q, at.sku, sku);
    RefKept(buf, buf', q, at.slots[2], at.aisle);
    StringKept(buf, buf', q, at.aisle, d.aisle);
  }

  // --------------------------------------------------- what it leaves of all

  lemma QuantityVtable(buf: Bytes, at: OrderLayout, sent: seq<Sent>, j: nat, vt: nat)
    requires ItemsSpaced(at.ats, sent, at.ends) && VtablesClear(buf, at.vts, at.ats, at.ends)
    requires j < |sent| && vt in at.vts && |at.ats[j].slots| == 3 && at.ats[j].slots[1] != 0
    ensures vt <= |buf| && Apart(at.ats[j].slots[1], vt, vt - VtableLength(buf, vt))
  {
    hide VtableLength;
    var v :| 0 <= v < |at.vts| && at.vts[v] == vt;
    assert VtableClear(buf, at.vts[v], at.ends[j], at.ats[j].n);
    assert Spaced(at.ats[j], sent[j].sku, sent[j].details, at.ends[j], at.ends[j + 1]);
  }

  /** The quantity of item `j` is apart from every part of every other item, and from its own other parts. */
  lemma QuantityApart(buf: Bytes, at: OrderLayout, sent: seq<Sent>, j: nat, k: nat)
    requires ItemsSpaced(at.ats, sent, at.ends) && VtablesClear(buf, at.vts, at.ats, at.ends)
    requires j < |sent| && k < |sent| && at.ats[k].vt in at.vts && |at.ats[j].slots| == 3 && at.ats[j].slots[1] != 0
    ensures |at.ats[k].slots| == 3 && at.ats[k].vt <= |buf|
    ensures PartsApart(buf, at.ats[j].slots[1], at.ats[k], sent[k].sku, sent[k].details)
    ensures j != k && at.ats[k].slots[1] != 0 ==> WordApart(at.ats[j].slots[1], at.ats[k].slots[1])
  {
    hide VtableLength;
    assert Spaced(at.ats[j], sent[j].sku, sent[j].details, at.ends[j], at.ends[j + 1]);
    assert Spaced(at.ats[k], sent[k].sku, sent[k].details, at.ends[k], at.ends[k + 1]);
    assert k < j ==> at.ends[k + 1] <= at.ends[j];
    assert j < k ==> at.ends[j + 1] <= at.ends[k];
    QuantityVtable(buf, at, sent, j, at.ats[k].vt);
  }

  /** The items sent, had item `j` had another quantity. */
  function Requantified(sent: seq<Sent>, j: nat, x: int): (r: seq<Sent>)
    requires j < |sent|
    ensures |r| == |sent|
  {
    sent[j := sent[j].(details := sent[j].details.(quantity := x))]
  }

  lemma ItemsChanged(buf: Bytes, buf': Bytes, at: OrderLayout, sent: seq<Sent>, j: nat, x: int)
    requires ItemsHold(buf, at.ats, sent) && ItemsSpaced(at.ats, sent, at.ends) && VtablesClear(buf, at.vts, at.ats, at.ends)
    requires forall k :: 0 <= k < |at.ats| ==> at.ats[k].vt in at.vts
    requires j < |sent| && |at.ats[j].slots| == 3 && at.ats[j].slots[1] != 0
    requires WordChanged(buf, buf', at.ats[j].slots[1]) && WordAt(buf', at.ats[j].slots[1], Wrap32(x))
    ensures ItemsHold(buf', at.ats, Requantified(sent, j, x))
  {
    hide ItemsSpaced, VtablesClear, WordChanged, WordAt, ItemHolds;
    forall k | 0 <= k < |at.ats|
      ensures ItemHolds(buf', at.ats[k], Requantified(sent, j, x)[k].sku, Requantified(sent, j, x)[k].details)
    {
      ItemAfter(buf, buf', at, sent, j, x, k);
    }
  }

  lemma ItemAfter(buf: Bytes, buf': Bytes, at: OrderLayout, sent: seq<Sent>, j: nat, x: int, k: nat)
    requires j < |sent| && k < |sent| == |at.ats| && ItemHolds(buf, at.ats[k], sent[k].sku, sent[k].details)
    requires ItemsSpaced(at.ats, sent, at.ends) && VtablesClear(buf, at.vts, at.ats, at.ends) && at.ats[k].vt in at.vts
    requires |at.ats[j].slots| == 3 && at.ats[j].slots[1] != 0
    requires WordChanged(buf, buf', at.ats[j].slots[1]) && WordAt(buf', at.ats[j].slots[1], Wrap32(x))
    ensures ItemHolds(buf', at.ats[k], Requantified(sent, j, x)[k].sku, Requantified(sent, j, x)[k].details)
  {
    hide ItemsSpaced, VtablesClear, WordChanged, WordAt, ItemHolds, PartsApart, WordApart;
    QuantityApart(buf, at, sent, j, k);
    if k == j {
      ItemChanged(buf, buf', at.ats[j], sent[j].sku, sent[j].details, x);
    } else {
      ItemKept(buf, buf', at.ats[j].slots[1], at.ats[k], sent[k].sku, sent[k].details);
    }
  }

  lemma VectorKept(buf: Bytes, buf': Bytes, q: nat, at: nat, targets: seq<nat>)
    requires WordChanged(buf, buf', q) && VectorAt(buf, at, targets) && q + 4 + 4 * |targets| <= at
    ensures VectorAt(buf', at, targets)
  {
    hide RefAt, WordAt, WordChanged;
    WordKept(buf, buf', q, at, |targets|);
    forall i | 0 <= i < |targets| ensures RefAt(buf', at - 4 - 4 * i, targets[i]) {
      RefInside(buf, at - 4 - 4 * i, targets[i]);
      RefKept(buf, buf', q, at - 4 - 4 * i, targets[i]);
    }
  }

  lemma RefInside(buf: Bytes, at: nat, target: nat)
    requires RefAt(buf, at, target)
    ensures target + 4 <= at <= |buf|
  {
  }

  /** The order itself lies in front of every item. */
  lemma OrderKept(buf: Bytes, buf': Bytes, q: nat, at: OrderLayout, orderId: Bytes, orderType: Bytes, sent: seq<Sent>, sent': seq<Sent>)
    requires WordChanged(buf, buf', q) && OrderHolds(buf, at, orderId, orderType, sent)
    requires OrderSpaced(at, orderId, orderType, q) && Apart(q, at.vt, at.vt - VtableLength(buf, at.vt))
    requires ItemsHold(buf', at.ats, sent')
    ensures OrderHolds(buf', at, orderId, orderType, sent')
  {
    hide TableHolds, RefAt, StringAt, VectorAt, WordChanged, VtableLength, ItemsHold;
    TableKept(buf, buf', q, at.n, at.vt, at.slots);
    RefKept(buf, buf', q, at.slots[0], at.orderId);
    StringKept(buf, buf', q, at.orderId, orderId);
    RefKept(buf, buf', q, at.slots[1], at.orderType);
    StringKept(buf, buf', q, at.orderType, orderType);
    RefKept(buf, buf', q, at.slots[2], at.vector);
    VectorKept(buf, buf', q, at.vector, OffsetsOf(at.ats));
  }

  /** Where the quantity of item `j` is stored, and that it can be written over. */
  lemma QuantityPlace(buf: Bytes, at: OrderLayout, orderId: Bytes, orderType: Bytes, sent: seq<Sent>, j: nat, x: int)
    requires Written(buf, at, orderId, orderType, sent) && j < |sent|
    ensures |at.ats| == |sent| && at.ats[j].n <= |buf| && |at.ats[j].slots| == 3
    ensures at.ats[j].slots[1] <= |buf| && (at.ats[j].slots[1] != 0 ==> 4 <= at.ats[j].slots[1])
    ensures SlotMutated(buf, |buf| - at.ats[j].n, VT_SECOND, x) == WordPatched(buf, at.ats[j].slots[1], x)
  {
    ItemFacts(buf, at, orderId, orderType, sent, j);
    SlotPlace(buf, at.ats[j].n, at.ats[j].vt, at.ats[j].slots, sent[j].details.quantity, x);
  }

  /** The buffer with another word at `q`, if there is one. */
  function WordPatched(buf: Bytes, q: nat, x: int): Access<Option<Bytes>>
    requires q <= |buf| && (q != 0 ==> 4 <= q)
  {
    if q == 0 then Ok(None) else Ok(Some(Patched(buf, |buf| - q, EncodeFixed(Wrap32(x), 4))))
  }

  lemma SlotPlace(buf: Bytes, n: nat, vt: nat, slots: seq<nat>, was: int, x: int)
    requires TableHolds(buf, n, vt, slots) && |slots| == 3 && slots[1] < n
    requires slots[1] != 0 ==> WordAt(buf, slots[1], Wrap32(was))
    ensures n <= |buf| && slots[1] <= |buf| && (slots[1] != 0 ==> 4 <= slots[1])
    ensures SlotMutated(buf, |buf| - n, VT_SECOND, x) == WordPatched(buf, slots[1], x)
  {
    hide TableHolds, FieldOffset, Wrap32, SlotEntry, Patched, EncodeFixed, Number;
    TableInside(buf, n, vt, slots);
    TableFields(buf, n, vt, slots, 1);
    FieldPlace(n, slots[1], |buf|);
    SlotThere(n, slots[1]);
    assert FieldOffset(buf, |buf| - n, VT_SECOND) == Ok(SlotEntry(n, slots[1]));
  }

  lemma SlotThere(n: nat, slot: nat)
    requires slot < n
    ensures SlotEntry(n, slot) == 0 <==> slot == 0
  {
  }

  lemma ItemFacts(buf: Bytes, at: OrderLayout, orderId: Bytes, orderType: Bytes, sent: seq<Sent>, j: nat)
    requires Written(buf, at, orderId, orderType, sent) && j < |sent|
    ensures |at.ats| == |sent|
    ensures var a := at.ats[j];
      && |a.slots| == 3 && TableHolds(buf, a.n, a.vt, a.slots) && a.slots[1] < a.n
      && (a.slots[1] == 0 ==> sent[j].details.quantity == 0)
      && (a.slots[1] != 0 ==> WordAt(buf, a.slots[1], Wrap32(sent[j].details.quantity)))
  {
    hide TableHolds, WordAt, RefAt, StringAt, VectorAt, VtablesClear, OrderSpaced, Spaced;
    assert ItemHolds(buf, at.ats[j], sent[j].sku, sent[j].details);
  }

  lemma PatchedWord(buf: Bytes, q: nat, x: int)
    requires 4 <= q <= |buf| <= TWO_TO_31 && Aligned(q)
    ensures var buf' := Patched(buf, |buf| - q, EncodeFixed(Wrap32(x), 4));
            WordChanged(buf, buf', q) && WordAt(buf', q, Wrap32(x))
  {
    var buf' := Patched(buf, |buf| - q, EncodeFixed(Wrap32(x), 4));
    assert buf'[|buf| - q..|buf| - q + 4] == EncodeFixed(Wrap32(x), 4);
    Pow256Values();
    DecodeFixedOfEncode(Wrap32(x), 4);
  }

  /**
   Changing the quantity of item `j` changes that and nothing else: the buffer is
   then the broadcast with that quantity, laid out as before.  A quantity that is
   not stored cannot be changed.
   */
  lemma QuantityMutated(buf: Bytes, at: OrderLayout, orderId: Bytes, orderType: Bytes, sent: seq<Sent>, j: nat, x: int)
    requires Written(buf, at, orderId, orderType, sent) && j < |sent| && -TWO_TO_31 <= x < TWO_TO_31
    ensures |at.ats| == |sent| && at.ats[j].n <= |buf|
    ensures var mutated := SlotMutated(buf, |buf| - at.ats[j].n, VT_SECOND, x);
      if !Stored(at, j) then mutated == Ok(None)
      else mutated.Ok? && mutated.value.Some? && Written(mutated.value.value, at, orderId, orderType, Requantified(sent, j, x))
  {
    hide Written, SlotMutated;
    QuantityPlace(buf, at, orderId, orderType, sent, j, x);
    if Stored(at, j) {
      MutatedWritten(buf, at, orderId, orderType, sent, j, x);
    }
  }

  lemma MutatedWritten(buf: Bytes, at: OrderLayout, orderId: Bytes, orderType: Bytes, sent: seq<Sent>, j: nat, x: int)
    requires Written(buf, at, orderId, orderType, sent) && j < |sent| && -TWO_TO_31 <= x < TWO_TO_31
    requires Stored(at, j) && 4 <= at.ats[j].slots[1] <= |buf|
    ensures Written(Patched(buf, |buf| - at.ats[j].slots[1], EncodeFixed(Wrap32(x), 4)), at, orderId, orderType, Requantified(sent, j, x))
  {
    hide Written, Patched, WordChanged, WordAt, EncodeFixed, Wrap32, Requantified;
    QuantityAligned(buf, at, orderId, orderType, sent, j);
    var q := at.ats[j].slots[1];
    var buf' := Patched(buf, |buf| - q, EncodeFixed(Wrap32(x), 4));
    PatchedWord(buf, q, x);
    ChangedWritten(buf, buf', at, orderId, orderType, sent, j, x);
  }

  lemma ChangedWritten(buf: Bytes, buf': Bytes, at: OrderLayout, orderId: Bytes, orderType: Bytes, sent: seq<Sent>, j: nat, x: int)
    requires Written(buf, at, orderId, orderType, sent) && j < |sent| && -TWO_TO_31 <= x < TWO_TO_31 && Stored(at, j)
    requires WordChanged(buf, buf', at.ats[j].slots[1]) && WordAt(buf', at.ats[j].slots[1], Wrap32(x))
    ensures Written(buf', at, orderId, orderType, Requantified(sent, j, x))
  {
    hide OrderHolds, RefAt, Written, WordChanged, WordAt, ItemsHold, SentOk, VtablesClear, VtablesOk, Requantified;
    MutatedItems(buf, buf', at, orderId, orderType, sent, j, x);
    MutatedHolds(buf, buf', at, orderId, orderType, sent, j, x);
    VtablesKept(buf, buf', at, orderId, orderType, sent, j);
    MutatedRest(buf, buf', at, orderId, orderType, sent, j, x);
  }

  lemma MutatedRest(buf: Bytes, buf': Bytes, at: OrderLayout, orderId: Bytes, orderType: Bytes, sent: seq<Sent>, j: nat, x: int)
    requires Written(buf, at, orderId, orderType, sent) && j < |sent| && |buf'| == |buf|
    requires SentOk(Requantified(sent, j, x)) && OrderHolds(buf', at, orderId, orderType, Requantified(sent, j, x))
    requires RefAt(buf', |buf'|, at.n) && VtablesOk(buf', at.vts) && VtablesClear(buf', at.vts, at.ats, at.ends)
    requires VtableClear(buf', at.vt, at.ends[|at.ats|], at.n)
    ensures Written(buf', at, orderId, orderType, Requantified(sent, j, x))
  {
    hide OrderHolds, RefAt, VtablesOk, VtablesClear, OrderSpaced, SentOk;
    SpacedStill(at, sent, j, x);
  }

  lemma SpacedStill(at: OrderLayout, sent: seq<Sent>, j: nat, x: int)
    requires ItemsSpaced(at.ats, sent, at.ends) && j < |sent|
    ensures ItemsSpaced(at.ats, Requantified(sent, j, x), at.ends)
  {
    var sent' := Requantified(sent, j, x);
    forall k | 0 <= k < |at.ats|
      ensures Spaced(at.ats[k], sent'[k].sku, sent'[k].details, at.ends[k], at.ends[k + 1])
    {
      assert Spaced(at.ats[k], sent[k].sku, sent[k].details, at.ends[k], at.ends[k + 1]);
    }
  }

  /** The vtables are as they were, and still clear of the quantities. */
  lemma VtablesKept(buf: Bytes, buf': Bytes, at: OrderLayout, orderId: Bytes, orderType: Bytes, sent: seq<Sent>, j: nat)
    requires Written(buf, at, orderId, orderType, sent) && Stored(at, j) && WordChanged(buf, buf', at.ats[j].slots[1])
    ensures VtablesOk(buf', at.vts) && VtablesClear(buf', at.vts, at.ats, at.ends)
    ensures VtableClear(buf', at.vt, at.ends[|at.ats|], at.n)
  {
    hide OrderHolds, RefAt, OrderSpaced, SentOk, WordChanged, VtableOk;
    SameLength(buf, buf', at.ats[j].slots[1]);
    VtablesBelow(buf, at.vts);
    forall v | 0 <= v < |at.vts|
      ensures VtableOk(buf', at.vts[v]) && VtableLength(buf', at.vts[v]) == VtableLength(buf, at.vts[v])
    {
      VtablesMember(buf, at.vts, at.vts[v]);
      QuantityVtable(buf, at, sent, j, at.vts[v]);
      VtableKept(buf, buf', at.ats[j].slots[1], at.vts[v]);
    }
    hide VtableLength;
  }

  lemma SameLength(buf: Bytes, buf': Bytes, q: nat)
    requires WordChanged(buf, buf', q)
    ensures |buf'| == |buf|
  {
  }

  lemma QuantityAligned(buf: Bytes, at: OrderLayout, orderId: Bytes, orderType: Bytes, sent: seq<Sent>, j: nat)
    requires Written(buf, at, orderId, orderType, sent) && j < |sent|
    ensures |buf| <= TWO_TO_31 && |at.ats| == |sent|
    ensures |at.ats[j].slots| == 3 && (at.ats[j].slots[1] != 0 ==> Aligned(at.ats[j].slots[1]))
  {
    hide Written;
    ItemFacts(buf, at, orderId, orderType, sent, j);
  }

  lemma MutatedItems(buf: Bytes, buf': Bytes, at: OrderLayout, orderId: Bytes, orderType: Bytes, sent: seq<Sent>, j: nat, x: int)
    requires Written(buf, at, orderId, orderType, sent) && j < |sent| && -TWO_TO_31 <= x < TWO_TO_31
    requires |at.ats[j].slots| == 3 && at.ats[j].slots[1] != 0
    requires WordChanged(buf, buf', at.ats[j].slots[1]) && WordAt(buf', at.ats[j].slots[1], Wrap32(x))
    ensures ItemsHold(buf', at.ats, Requantified(sent, j, x)) && SentOk(Requantified(sent, j, x))
  {
    hide OrderHolds, ItemsHold, WordChanged, WordAt, ItemsSpaced, VtablesClear, OrderSpaced, RefAt;
    OrderHoldsItems(buf, at, orderId, orderType, sent);
    ItemsChanged(buf, buf', at, sent, j, x);
  }

  lemma MutatedHolds(buf: Bytes, buf': Bytes, at: OrderLayout, orderId: Bytes, orderType: Bytes, sent: seq<Sent>, j: nat, x: int)
    requires Written(buf, at, orderId, orderType, sent) && j < |sent|
    requires |at.ats[j].slots| == 3 && at.ats[j].slots[1] != 0 && WordChanged(buf, buf', at.ats[j].slots[1])
    requires ItemsHold(buf', at.ats, Requantified(sent, j, x))
    ensures OrderHolds(buf', at, orderId, orderType, Requantified(sent, j, x)) && |buf'| == |buf| && RefAt(buf', |buf'|, at.n)
  {
    hide OrderHolds, ItemsHold, ItemsSpaced, VtablesClear, OrderSpaced, RefAt, SentOk;
    QuantityBelow(buf, at, orderId, orderType, sent, j);
    OrderKept(buf, buf', at.ats[j].slots[1], at, orderId, orderType, sent, Requantified(sent, j, x));
    RefKept(buf, buf', at.ats[j].slots[1], |buf|, at.n);
  }

  lemma OrderHoldsItems(buf: Bytes, at: OrderLayout, orderId: Bytes, orderType: Bytes, sent: seq<Sent>)
    requires OrderHolds(buf, at, orderId, orderType, sent)
    ensures ItemsHold(buf, at.ats, sent)
  {
  }

  /** Every quantity lies behind the order. */
  lemma QuantityBelow(buf: Bytes, at: OrderLayout, orderId: Bytes, orderType: Bytes, sent: seq<Sent>, j: nat)
    requires Written(buf, at, orderId, orderType, sent) && j < |sent|
    requires |at.ats[j].slots| == 3 && at.ats[j].slots[1] != 0
    ensures |at.ats| == |sent| && OrderSpaced(at, orderId, orderType, at.ats[j].slots[1]) && at.vt <= |buf|
    ensures Apart(at.ats[j].slots[1], at.vt, at.vt - VtableLength(buf, at.vt)) && Apart(at.ats[j].slots[1], |buf|, |buf| - 4)
  {
    hide OrderHolds, VtableLength;
    QuantitiesBelow(at.ats, sent, at.ends);
    QuantityVtable(buf, at, sent, j, at.vt);
    RefInside(buf, |buf|, at.n);
  }

  lemma ItemPlace(buf: Bytes, at: OrderLayout, orderId: Bytes, orderType: Bytes, sent: seq<Sent>, j: nat)
    requires Written(buf, at, orderId, orderType, sent) && j < |sent|
    ensures at.n <= |buf| && Indirect(buf, 0) == Ok(|buf| - at.n)
    ensures |at.ats| == |sent| && at.ats[j].n <= |buf|
    ensures Items(buf, |buf| - at.n, j) == Ok(Some(|buf| - at.ats[j].n))
  {
    hide TableHolds, RefAt, StringAt, VectorAt, ItemHolds, Items, Indirect, VtablesClear, ItemsSpaced, OrderSpaced;
    TableInside(buf, at.n, at.vt, at.slots);
    RefRead(buf, |buf|, at.n);
    VectorReads(buf, at.n, at.vt, at.slots, at.vector, OffsetsOf(at.ats), j);
  }
}
