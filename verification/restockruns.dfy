/**
 Runs of any length over two RestockItemsOrderRequest objects that are edited,
 merged into each other, swapped, parsed and written.
 */
module RestockRuns {
  import opened Wire
  import opened Message
  import opened Inventory
  import opened Objects
  import opened Restock

  /** One call on a message; `other` is the second message. */
  datatype Step =
    | AddItems
    | CopyItem(k: nat, j: nat)
    | SetItemMfdSeconds(k: nat, seconds: int)
    | SetOrderId(id: Bytes)
    | ClearItems
    | Clear
    | MergeFrom
    | CopyFrom
    | InternalSwap
    | MergeFromBytes(bs: Bytes)
    | SerializeToBytes

  /** The message the call is on comes first in `was` and `is`. */
  datatype Pair = Pair(it: RestockRequestRec, other: RestockRequestRec) {
    predicate Ok() { it.Ok() && other.Ok() }

    function Swapped(): Pair { Pair(other, it) }
  }

  /**
   What one call makes of the values.  An item that is not there is not edited, and
   rejected input leaves any value.
   */
  ghost predicate Follows(step: Step, was: Pair, now: Pair)
    requires was.Ok() && now.Ok()
  {
    match step
    case InternalSwap => now == was.Swapped()
    case MergeFromBytes(bs) =>
      && now.other == was.other && ValidSchema(RESTOCK_REQUEST) && IsMsg(RESTOCK_REQUEST, was.it.ToMsg())
      && (ParseInto(RESTOCK_REQUEST, was.it.ToMsg(), bs).Some? ==>
            ParseInto(RESTOCK_REQUEST, was.it.ToMsg(), bs) == Some(now.it.ToMsg()))
    case _ => now == Pair(Edited(step, was), was.other)
  }

  /** What a call that is neither a swap nor a parse makes of the message it is on. */
  function Edited(step: Step, was: Pair): RestockRequestRec {
    var v := was.it;
    match step
    case AddItems => v.(items := v.items + [NO_ITEM])
    case CopyItem(k, j) =>
      if k < |v.items| && j < |was.other.items| then v.(items := v.items[k := was.other.items[j]]) else v
    case SetItemMfdSeconds(k, seconds) =>
      if k < |v.items| && -TWO_TO_63 <= seconds < TWO_TO_63 then v.(items := v.items[k := WithMfdSeconds(v.items[k], seconds)]) else v
    case SetOrderId(id) => v.(orderId := id)
    case ClearItems => v.(items := [])
    case Clear => RestockRequestRec([], [], [])
    case MergeFrom => v.Merged(was.other)
    case CopyFrom => was.other
    case _ => v
  }

  /** Two messages, valid, that own nothing in common and not each other. */
  ghost predicate Apart(a: RestockItemsOrderRequest, b: RestockItemsOrderRequest)
    reads a, b, a.owned, b.owned
  {
    && a != b && a !in b.owned && b !in a.owned && a.owned !! b.owned
    && a.Valid() && b.Valid()
  }

  ghost function Values(a: RestockItemsOrderRequest, b: RestockItemsOrderRequest): (p: Pair)
    requires Apart(a, b)
    reads a, b, a.owned, b.owned
    ensures p.Ok()
  {
    Pair(a.Value(), b.Value())
  }

  /** `a.mutable_items(k)->CopyFrom(b.items(j))` */
  method CopyAcross(a: RestockItemsOrderRequest, b: RestockItemsOrderRequest, k: nat, j: nat)
    requires Apart(a, b) && k < |a.impl.items| && j < |b.impl.items|
    modifies a, a.owned
    ensures Apart(a, b) && fresh(a.owned - old(a.owned)) && b.owned == old(b.owned)
    ensures b.Value() == old(b.Value())
    ensures k < |old(a.Value()).items| && j < |old(b.Value()).items|
    ensures a.Value() == old(a.Value()).(items := old(a.Value()).items[k := old(b.Value()).items[j]])
  {
    hide UnknownOk, RestockItem.Valid, RestockItem.Value, ItemsOwned, ItemValues, StringOk, ListOk, RestockRequestRec.Ok;
    CachesAt(b.impl.items, b.owned, j);
    a.CopyItem(k, b.impl.items[j]);
  }

  method TakeItemEdit(step: Step, a: RestockItemsOrderRequest, b: RestockItemsOrderRequest)
    requires Apart(a, b) && (step.AddItems? || step.CopyItem? || step.SetItemMfdSeconds?)
    modifies a, a.owned
    ensures Apart(a, b) && fresh(a.owned - old(a.owned)) && b.owned == old(b.owned)
    ensures Follows(step, old(Values(a, b)), Values(a, b))
  {
    hide UnknownOk, RestockItem.Valid, RestockItem.Value, ItemsOwned, ItemValues, StringOk, ListOk, RestockRequestRec.Ok;
    hide WithMfdSeconds;
    match step
    case AddItems => var _ := a.AddItems();
    case CopyItem(k, j) =>
      if k < |a.impl.items| && j < |b.impl.items| { CopyAcross(a, b, k, j); }
    case SetItemMfdSeconds(k, seconds) =>
      if k < |a.impl.items| && -TWO_TO_63 <= seconds < TWO_TO_63 { a.SetItemMfdSeconds(k, seconds); }
  }

  method TakeEdit(step: Step, a: RestockItemsOrderRequest, b: RestockItemsOrderRequest)
    requires Apart(a, b)
    requires step.SetOrderId? || step.ClearItems? || step.Clear? || step.MergeFrom? || step.CopyFrom? || step.SerializeToBytes?
    modifies a, a.owned
    ensures Apart(a, b) && fresh(a.owned - old(a.owned)) && b.owned == old(b.owned)
    ensures Follows(step, old(Values(a, b)), Values(a, b))
  {
    hide UnknownOk, RestockItem.Valid, RestockItem.Value, ItemsOwned, ItemValues, StringOk, ListOk, RestockRequestRec.Ok;
    hide RestockRequestRec.Merged, RestockRequestRec.Encoded;
    match step
    case SetOrderId(id) => a.SetOrderId(id);
    case ClearItems => a.ClearItems();
    case Clear => a.Clear();
    case MergeFrom => a.MergeFrom(b);
    case CopyFrom => a.CopyFrom(b);
    case SerializeToBytes => var _ := a.SerializeToBytes();
  }

  /** Any call on `a` leaves both messages valid and apart, and their values as `Follows` says. */
  method Take(step: Step, a: RestockItemsOrderRequest, b: RestockItemsOrderRequest)
    requires Apart(a, b)
    modifies a, b, a.owned
    ensures Apart(a, b) && fresh(a.owned + b.owned - old(a.owned + b.owned))
    ensures Follows(step, old(Values(a, b)), Values(a, b))
  {
    hide UnknownOk, RestockItem.Valid, RestockItem.Value, ItemsOwned, ItemValues, StringOk, ListOk, RestockRequestRec.Ok, Edited;
    hide ParseInto, IsMsg, ValidSchema;
    if step.InternalSwap? {
      a.InternalSwap(b);
    } else if step.MergeFromBytes? {
      var _ := a.MergeFromBytes(step.bs);
    } else if step.AddItems? || step.CopyItem? || step.SetItemMfdSeconds? {
      TakeItemEdit(step, a, b);
    } else {
      TakeEdit(step, a, b);
    }
  }

  /** A call on the first message or on the second. */
  datatype Move = Move(onFirst: bool, step: Step)

  ghost predicate Moves(move: Move, was: Pair, now: Pair) {
    && was.Ok() && now.Ok()
    && if move.onFirst then Follows(move.step, was, now) else Follows(move.step, was.Swapped(), now.Swapped())
  }

  method TakeMove(move: Move, a: RestockItemsOrderRequest, b: RestockItemsOrderRequest)
    requires Apart(a, b)
    modifies a, b, a.owned, b.owned
    ensures Apart(a, b) && fresh(a.owned + b.owned - old(a.owned + b.owned))
    ensures Moves(move, old(Values(a, b)), Values(a, b))
  {
    hide Follows, RestockItemsOrderRequest.Valid, RestockItemsOrderRequest.Value;
    if move.onFirst { Take(move.step, a, b); } else { Take(move.step, b, a); }
  }

  /**
   Whatever is called on the two messages, in whatever order, both stay valid and
   apart, and their values go from each to the next as the single calls have it.
   */
  method Run(moves: seq<Move>, a: RestockItemsOrderRequest, b: RestockItemsOrderRequest) returns (ghost trace: seq<Pair>)
    requires Apart(a, b)
    modifies a, b, a.owned, b.owned
    ensures Apart(a, b) && |trace| == |moves| + 1
    ensures trace[0] == old(Values(a, b)) && trace[|moves|] == Values(a, b)
    ensures forall i :: 0 <= i < |moves| ==> Moves(moves[i], trace[i], trace[i + 1])
  {
    hide Apart, Values, Moves;
    trace := [Values(a, b)];
    for k := 0 to |moves|
      invariant Apart(a, b) && fresh(a.owned + b.owned - old(a.owned + b.owned))
      invariant |trace| == k + 1 && trace[0] == old(Values(a, b)) && trace[k] == Values(a, b)
      invariant forall i :: 0 <= i < k ==> Moves(moves[i], trace[i], trace[i + 1])
    {
      TakeMove(moves[k], a, b);
      trace := trace + [Values(a, b)];
    }
  }
}
