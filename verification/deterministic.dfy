/**
 Deterministic mode: map entries are written in key order, so that the bytes
 depend on the message alone, whatever order its maps are walked in.
 */
module Deterministic {
  import opened Wire
  import opened Message
  import opened Codec
  import opened Laws
  import opened MapOrder

  /** Deterministic mode over maps that are walked in the order `walk`. */
  ghost function Sorting(walk: Order): Order {
    (all: set<Bytes>) => SortKeys(walk(all))
  }

  lemma SortingValid(walk: Order)
    requires ValidOrder(walk)
    ensures ValidOrder(Sorting(walk))
  {
    forall all: set<Bytes> ensures Enumerates(Sorting(walk)(all), all) {
      SortKeysEnumerates(walk(all), all);
    }
  }

  ghost predicate SameOrder(ord: Order, ord': Order) {
    forall all: set<Bytes> :: ord(all) == ord'(all)
  }

  lemma SortingSame(walk: Order, walk': Order)
    requires ValidOrder(walk) && ValidOrder(walk')
    ensures SameOrder(Sorting(walk), Sorting(walk'))
  {
    forall all: set<Bytes> ensures Sorting(walk)(all) == Sorting(walk')(all) {
      SortKeysCanonical(walk(all), walk'(all), all);
    }
  }

  // ---------------------------------------- the same order, the same records

  lemma {:induction false} BytesSame(s: Schema, m: Msg, ord: Order, ord': Order)
    requires IsMsg(s, m) && ValidOrder(ord) && ValidOrder(ord') && SameOrder(ord, ord')
    ensures Serialize(s, m, ord) == Serialize(s, m, ord')
    decreases s, 1, 0
  {
    RecsSame(s, m, ord, ord', |s.fields|);
    assert Recs(s, m, ord) == Recs(s, m, ord');
  }

  lemma {:induction false} RecsSame(s: Schema, m: Msg, ord: Order, ord': Order, n: nat)
    requires IsMsg(s, m) && ValidOrder(ord) && ValidOrder(ord') && SameOrder(ord, ord') && n <= |s.fields|
    ensures RecsUpTo(s, m, ord, n) == RecsUpTo(s, m, ord', n)
    decreases s, 0, n
  {
    if n > 0 {
      RecsSame(s, m, ord, ord', n - 1);
      FieldRecsSame(s.fields[n - 1].num, s.fields[n - 1].kind, m.vals[n - 1], ord, ord');
    }
  }

  lemma {:induction false} FieldRecsSame(num: nat, k: Kind, v: Val, ord: Order, ord': Order)
    requires IsVal(k, v) && ValidOrder(ord) && ValidOrder(ord') && SameOrder(ord, ord')
    ensures FieldRecs(num, k, v, ord) == FieldRecs(num, k, v, ord')
    decreases k, 1, 0
  {
    match k
    case RepStr =>
    case RepSub(schema) => SubRecsSame(num, schema, v.ms, ord, ord');
    case Map(entry) => EntryRecsSame(num, entry, v.entries, ord(v.entries.Keys), ord, ord');
    case _ => if v != DefaultVal(k) { OneRecSame(num, k, v, ord, ord'); }
  }

  lemma {:induction false} OneRecSame(num: nat, k: Kind, v: Val, ord: Order, ord': Order)
    requires IsVal(k, v) && ValidOrder(ord) && ValidOrder(ord') && SameOrder(ord, ord')
    requires !k.RepStr? && !k.RepSub? && !k.Map? && (k.Sub? ==> v.m.Some?)
    ensures OneRec(num, k, v, ord) == OneRec(num, k, v, ord')
    decreases k, 0, 0
  {
    if k.Sub? { BytesSame(k.schema, v.m.value, ord, ord'); }
  }

  lemma {:induction false} SubRecsSame(num: nat, s: Schema, ms: seq<Msg>, ord: Order, ord': Order)
    requires ValidOrder(ord) && ValidOrder(ord') && SameOrder(ord, ord')
    requires forall j :: 0 <= j < |ms| ==> IsMsg(s, ms[j])
    ensures SubRecs(num, s, ms, ord) == SubRecs(num, s, ms, ord')
    decreases s, 2, |ms|
  {
    if ms != [] {
      BytesSame(s, ms[0], ord, ord');
      SubRecsSame(num, s, ms[1..], ord, ord');
    }
  }

  lemma {:induction false} EntryRecsSame(num: nat, entry: Schema, entries: map<Bytes, Val>, keys: seq<Bytes>, ord: Order, ord': Order)
    requires IsVal(Map(entry), VMap(entries)) && ValidOrder(ord) && ValidOrder(ord') && SameOrder(ord, ord')
    requires forall i :: 0 <= i < |keys| ==> keys[i] in entries
    ensures EntryRecs(num, entry, entries, keys, ord) == EntryRecs(num, entry, entries, keys, ord')
    decreases entry, 2, |keys|
  {
    if keys != [] {
      OneRecSame(2, ValueKind(entry), entries[keys[0]], ord, ord');
      EntryRecsSame(num, entry, entries, keys[1..], ord, ord');
    }
  }

  /** In deterministic mode the bytes do not depend on how maps are walked, at any depth. */
  lemma DeterministicBytes(s: Schema, m: Msg, walk: Order, walk': Order)
    requires IsMsg(s, m) && ValidOrder(walk) && ValidOrder(walk')
    ensures Serialize(s, m, Sorting(walk)) == Serialize(s, m, Sorting(walk'))
  {
    SortingValid(walk);
    SortingValid(walk');
    SortingSame(walk, walk');
    BytesSame(s, m, Sorting(walk), Sorting(walk'));
  }

  // ---------------------------------------------------------- normalisation

  /**
   Any accepted input is normalised by one parse and one serialization, whatever
   order maps are walked in: the second parse sees the same message, with the
   unknown records of the input in their order at the very end.
   */
  lemma Normalisation(s: Schema, x: Bytes, walk: Order)
    requires ValidSchema(s) && ValidOrder(walk)
    requires Parse(s, x).Some? && |Serialize(s, Parse(s, x).value, walk)| < TWO_TO_31
    ensures var m := Parse(s, x).value;
            var y := Serialize(s, m, walk);
            && Parse(s, y) == Some(m)
            && m.unknown == UnknownIn(s, x)
            && y == EncodeRecs(RecsUpTo(s, m, walk, |s.fields|)) + EncodeRecs(UnknownIn(s, x))
  {
    var m := Parse(s, x).value;
    ParseSerializeRoundTrip(s, m, walk);
    ReadRecsValid(x, 0);
    ParseFieldwise(s, Default(s), ReadRecs(x, 0).value);
    EncodeRecsAppend(RecsUpTo(s, m, walk, |s.fields|), m.unknown);
    assert [] + UnknownIn(s, x) == UnknownIn(s, x);
  }

  /**
   In deterministic mode serializing what was parsed from the first bytes gives
   these bytes again, although the maps of the new message may be walked in
   another order than those of the old one.
   */
  lemma NormalisationDeterministic(s: Schema, x: Bytes, walk: Order, walk': Order)
    requires ValidSchema(s) && ValidOrder(walk) && ValidOrder(walk')
    requires Parse(s, x).Some? && |Serialize(s, Parse(s, x).value, walk)| < TWO_TO_31
    ensures var y := Serialize(s, Parse(s, x).value, Sorting(walk));
            Parse(s, y) == Parse(s, x) && Serialize(s, Parse(s, y).value, Sorting(walk')) == y
  {
    var m := Parse(s, x).value;
    SortingValid(walk);
    OrderKeepsSize(s, m, walk, Sorting(walk));
    ParseSerializeRoundTrip(s, m, Sorting(walk));
    DeterministicBytes(s, m, walk, walk');
  }
}
