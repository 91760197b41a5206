/**
 What a parsed message depends on.  Each field depends only on the records the
 schema gives to that field, in their order; everything else -- field order,
 unknown fields, the order of map entries -- follows from that.
 */
module Laws {
  import opened Wire
  import opened Message

  // ------------------------------------------- parsing, one field at a time

  /** The records of `rs` that go to `slot`; those of slot `None` are the unknown ones. */
  function SlotRecs(s: Schema, slot: Option<nat>, rs: seq<Rec>): (sub: seq<Rec>)
    ensures forall i :: 0 <= i < |sub| ==> sub[i] in rs && Slot(s, sub[i]) == slot
  {
    if rs == [] then []
    else if Slot(s, rs[0]) == slot then [rs[0]] + SlotRecs(s, slot, rs[1..])
    else SlotRecs(s, slot, rs[1..])
  }

  lemma {:induction false} SlotRecsAppend(s: Schema, slot: Option<nat>, a: seq<Rec>, b: seq<Rec>)
    ensures SlotRecs(s, slot, a + b) == SlotRecs(s, slot, a) + SlotRecs(s, slot, b)
  {
    hide Slot;
    if a == [] {
      assert a + b == b;
    } else {
      assert (a + b)[0] == a[0] && (a + b)[1..] == a[1..] + b;
      SlotRecsAppend(s, slot, a[1..], b);
    }
  }

  lemma {:induction false} SlotRecsOfUnknown(s: Schema, i: nat, us: seq<Rec>)
    requires AllUnknown(s, us)
    ensures SlotRecs(s, Some(i), us) == [] && SlotRecs(s, None, us) == us
  {
    if us != [] {
      SlotRecsOfUnknown(s, i, us[1..]);
    }
  }

  ghost predicate ForKind(k: Kind, rs: seq<Rec>) {
    forall i :: 0 <= i < |rs| ==> WireType(rs[i]) == KindWireType(k)
  }

  /** One field's value after its own records, or nothing if one of them is malformed. */
  ghost function FoldVal(k: Kind, v: Val, rs: seq<Rec>): (result: Option<Val>)
    requires ValidKind(k) && IsVal(k, v) && ValidRecs(rs) && ForKind(k, rs)
    decreases |rs|
  {
    if rs == [] then Some(v)
    else
      match ApplyVal(k, v, rs[0])
      case None => None
      case Some(v') => FoldVal(k, v', rs[1..])
  }

  /** `FoldVal` at field `i` of a message, over that field's records among `rs`. */
  ghost function FieldAfter(s: Schema, m: Msg, rs: seq<Rec>, i: nat): Option<Val>
    requires ValidSchema(s) && IsMsg(s, m) && ValidRecs(rs) && i < |s.fields|
  {
    assert ValidKind(s.fields[i].kind);
    FoldVal(s.fields[i].kind, m.vals[i], SlotRecs(s, Some(i), rs))
  }

  lemma FieldAfterStep(s: Schema, m: Msg, rs: seq<Rec>, i: nat)
    requires ValidSchema(s) && IsMsg(s, m) && ValidRecs(rs) && i < |s.fields| && rs != []
    ensures Apply(s, m, rs[0]).Some? ==> FieldAfter(s, m, rs, i) == FieldAfter(s, Apply(s, m, rs[0]).value, rs[1..], i)
    ensures Apply(s, m, rs[0]).None? && Slot(s, rs[0]) == Some(i) ==> FieldAfter(s, m, rs, i) == None
  {
    assert ValidKind(s.fields[i].kind);
    if Slot(s, rs[0]) == Some(i) {
      var rs' := SlotRecs(s, Some(i), rs);
      assert rs'[1..] == SlotRecs(s, Some(i), rs[1..]);
    }
  }

  /**
   Parsing acts on each field separately: it fails exactly when some field does,
   and otherwise each field holds what its own records make of it and the unknown
   records are kept, all of them, in order.
   */
  lemma {:induction false} ParseFieldwise(s: Schema, m: Msg, rs: seq<Rec>)
    requires ValidSchema(s) && IsMsg(s, m) && ValidRecs(rs)
    ensures ApplyAll(s, m, rs).Some? <==> forall i :: 0 <= i < |s.fields| ==> FieldAfter(s, m, rs, i).Some?
    ensures ApplyAll(s, m, rs).Some? ==>
              var m' := ApplyAll(s, m, rs).value;
              && m'.unknown == m.unknown + SlotRecs(s, None, rs)
              && forall i :: 0 <= i < |s.fields| ==> FieldAfter(s, m, rs, i) == Some(m'.vals[i])
    decreases |rs|
  {
    if rs == [] {
      assert m.unknown + [] == m.unknown;
    } else {
      forall i | 0 <= i < |s.fields|
        ensures Apply(s, m, rs[0]).Some? ==> FieldAfter(s, m, rs, i) == FieldAfter(s, Apply(s, m, rs[0]).value, rs[1..], i)
        ensures Apply(s, m, rs[0]).None? && Slot(s, rs[0]) == Some(i) ==> FieldAfter(s, m, rs, i) == None
      {
        FieldAfterStep(s, m, rs, i);
      }
      match Apply(s, m, rs[0])
      case None =>
        assert FieldAfter(s, m, rs, Slot(s, rs[0]).value) == None;
      case Some(m') =>
        ParseFieldwise(s, m', rs[1..]);
        UnknownStep(s, m.unknown, rs);
    }
  }

  lemma UnknownStep(s: Schema, unknown: seq<Rec>, rs: seq<Rec>)
    requires rs != []
    ensures (if Slot(s, rs[0]) == None then unknown + [rs[0]] else unknown) + SlotRecs(s, None, rs[1..])
         == unknown + SlotRecs(s, None, rs)
  {
    var later := SlotRecs(s, None, rs[1..]);
    assert unknown + [rs[0]] + later == unknown + ([rs[0]] + later);
  }

  /** Records of different fields may be interleaved in any way. */
  lemma FieldOrderIrrelevant(s: Schema, m: Msg, rs: seq<Rec>, rs': seq<Rec>)
    requires ValidSchema(s) && IsMsg(s, m) && ValidRecs(rs) && ValidRecs(rs')
    requires forall slot: Option<nat> :: SlotRecs(s, slot, rs) == SlotRecs(s, slot, rs')
    ensures ApplyAll(s, m, rs) == ApplyAll(s, m, rs')
  {
    ParseFieldwise(s, m, rs);
    ParseFieldwise(s, m, rs');
    forall i | 0 <= i < |s.fields|
      ensures FieldAfter(s, m, rs, i) == FieldAfter(s, m, rs', i)
    {
    }
    if ApplyAll(s, m, rs).Some? {
      var a, b := ApplyAll(s, m, rs).value, ApplyAll(s, m, rs').value;
      assert forall i :: 0 <= i < |s.fields| ==> Some(a.vals[i]) == FieldAfter(s, m, rs, i) == Some(b.vals[i]);
      assert a.vals == b.vals;
      assert SlotRecs(s, None, rs) == SlotRecs(s, None, rs');
    }
  }

  /**
   Records no field accepts -- a retired field number, say -- can be put between
   any two records of an encoding without changing a known field or what is
   accepted; they only join the unknown records, in their place.
   */
  lemma UnknownTransparent(s: Schema, m: Msg, x: Bytes, us: seq<Rec>, y: Bytes)
    requires ValidSchema(s) && IsMsg(s, m) && ValidRecs(us) && AllUnknown(s, us)
    requires ReadRecs(x, 0).Got? && ReadRecs(y, 0).Got?
    ensures ParseInto(s, m, x + EncodeRecs(us) + y).Some? <==> ParseInto(s, m, x + y).Some?
    ensures ParseInto(s, m, x + y).Some? ==>
              var plain, mixed := ParseInto(s, m, x + y).value, ParseInto(s, m, x + EncodeRecs(us) + y).value;
              && mixed.vals == plain.vals
              && plain.unknown == m.unknown + UnknownIn(s, x) + UnknownIn(s, y)
              && mixed.unknown == m.unknown + UnknownIn(s, x) + us + UnknownIn(s, y)
  {
    hide EncodeRecs, Apply;
    var a, b := ReadRecs(x, 0).value, ReadRecs(y, 0).value;
    ReadRecsValid(x, 0);
    ReadRecsValid(y, 0);
    ReadRecsExtends(x, y);
    ReadRecsOfEncode(us, y, 0);
    ReadRecsExtends(x, EncodeRecs(us) + y);
    assert x + EncodeRecs(us) + y == x + (EncodeRecs(us) + y);
    UnknownInserted(s, m, a, us, b);
  }

  lemma UnknownInserted(s: Schema, m: Msg, a: seq<Rec>, us: seq<Rec>, b: seq<Rec>)
    requires ValidSchema(s) && IsMsg(s, m) && ValidRecs(a) && ValidRecs(us) && ValidRecs(b) && AllUnknown(s, us)
    ensures ApplyAll(s, m, a + (us + b)).Some? <==> ApplyAll(s, m, a + b).Some?
    ensures ApplyAll(s, m, a + b).Some? ==>
              var plain, mixed := ApplyAll(s, m, a + b).value, ApplyAll(s, m, a + (us + b)).value;
              && mixed.vals == plain.vals
              && plain.unknown == m.unknown + SlotRecs(s, None, a) + SlotRecs(s, None, b)
              && mixed.unknown == m.unknown + SlotRecs(s, None, a) + us + SlotRecs(s, None, b)
  {
    ParseFieldwise(s, m, a + b);
    ParseFieldwise(s, m, a + (us + b));
    forall i | 0 <= i < |s.fields|
      ensures FieldAfter(s, m, a + (us + b), i) == FieldAfter(s, m, a + b, i)
    {
      KnownInserted(s, i, a, us, b);
    }
    SlotRecsInserted(s, a, us, b);
    if ApplyAll(s, m, a + b).Some? {
      var plain, mixed := ApplyAll(s, m, a + b).value, ApplyAll(s, m, a + (us + b)).value;
      assert plain.vals == mixed.vals;
      var x, y := SlotRecs(s, None, a), SlotRecs(s, None, b);
      Assoc(m.unknown, x, y);
      Assoc(m.unknown, x, us);
      Assoc(m.unknown, x + us, y);
    }
  }

  /** The records of an accepted input that no field accepts. */
  function UnknownIn(s: Schema, bs: Bytes): seq<Rec>
    requires ReadRecs(bs, 0).Got?
  {
    SlotRecs(s, None, ReadRecs(bs, 0).value)
  }

  lemma KnownInserted(s: Schema, i: nat, a: seq<Rec>, us: seq<Rec>, b: seq<Rec>)
    requires AllUnknown(s, us)
    ensures SlotRecs(s, Some(i), a + (us + b)) == SlotRecs(s, Some(i), a + b)
  {
    var known := SlotRecs(s, Some(i), b);
    SlotRecsOfUnknown(s, i, us);
    SlotRecsAppend(s, Some(i), a, us + b);
    SlotRecsAppend(s, Some(i), us, b);
    SlotRecsAppend(s, Some(i), a, b);
    assert [] + known == known;
  }

  lemma SlotRecsInserted(s: Schema, a: seq<Rec>, us: seq<Rec>, b: seq<Rec>)
    requires AllUnknown(s, us)
    ensures SlotRecs(s, None, a + b) == SlotRecs(s, None, a) + SlotRecs(s, None, b)
    ensures SlotRecs(s, None, a + (us + b)) == SlotRecs(s, None, a) + us + SlotRecs(s, None, b)
  {
    hide SlotRecs;
    var before, after := SlotRecs(s, None, a), SlotRecs(s, None, b);
    SlotRecsOfUnknown(s, 0, us);
    SlotRecsAppend(s, None, a, us + b);
    SlotRecsAppend(s, None, us, b);
    SlotRecsAppend(s, None, a, b);
    Assoc(before, us, after);
  }

  // ------------------------------------------------- map entries, any order

  /** Every order of map entries gives an encoding of the same length. */
  lemma {:induction false} OrderKeepsSize(s: Schema, m: Msg, ord: Order, ord': Order)
    requires IsMsg(s, m) && ValidOrder(ord) && ValidOrder(ord')
    ensures |Serialize(s, m, ord)| == |Serialize(s, m, ord')|
    decreases s, 1, 0
  {
    hide RecsUpTo, EncodeRecs, IsMsg;
    var n := |s.fields|;
    EncodeRecsAppend(RecsUpTo(s, m, ord, n), m.unknown);
    EncodeRecsAppend(RecsUpTo(s, m, ord', n), m.unknown);
    OrderKeepsPrefixSize(s, m, ord, ord', n);
  }

  lemma {:induction false} OrderKeepsPrefixSize(s: Schema, m: Msg, ord: Order, ord': Order, n: nat)
    requires IsMsg(s, m) && ValidOrder(ord) && ValidOrder(ord') && n <= |s.fields|
    ensures |EncodeRecs(RecsUpTo(s, m, ord, n))| == |EncodeRecs(RecsUpTo(s, m, ord', n))|
    decreases s, 0, n
  {
    hide EncodeRecs, FieldRecs, ValidOrder;
    if n > 0 {
      var f, v := s.fields[n - 1], m.vals[n - 1];
      EncodeRecsAppend(RecsUpTo(s, m, ord, n - 1), FieldRecs(f.num, f.kind, v, ord));
      EncodeRecsAppend(RecsUpTo(s, m, ord', n - 1), FieldRecs(f.num, f.kind, v, ord'));
      OrderKeepsPrefixSize(s, m, ord, ord', n - 1);
      OrderKeepsFieldSize(f.num, f.kind, v, ord, ord');
    }
  }

  lemma {:induction false} OrderKeepsFieldSize(num: nat, k: Kind, v: Val, ord: Order, ord': Order)
    requires IsVal(k, v) && ValidOrder(ord) && ValidOrder(ord')
    ensures |EncodeRecs(FieldRecs(num, k, v, ord))| == |EncodeRecs(FieldRecs(num, k, v, ord'))|
    decreases k, 1, 0
  {
    match k
    case RepStr =>
    case RepSub(schema) => OrderKeepsSubsSize(num, schema, v.ms, ord, ord');
    case Map(entry) =>
      EntriesSize(num, entry, v.entries, ord(v.entries.Keys), ord);
      EntriesSize(num, entry, v.entries, ord'(v.entries.Keys), ord');
      forall key | key in v.entries
        ensures EntrySize(num, entry, key, v.entries[key], ord) == EntrySize(num, entry, key, v.entries[key], ord')
      {
        OrderKeepsEntrySize(num, entry, key, v.entries[key], ord, ord');
      }
      SumSame(num, entry, v.entries, ord(v.entries.Keys), ord, ord');
      SumPermuted(num, entry, v.entries, ord(v.entries.Keys), ord'(v.entries.Keys), ord');
    case _ =>
      if v != DefaultVal(k) {
        OrderKeepsOneSize(num, k, v, ord, ord');
        EncodeOne(OneRec(num, k, v, ord));
        EncodeOne(OneRec(num, k, v, ord'));
      }
  }

  lemma {:induction false} OrderKeepsOneSize(num: nat, k: Kind, v: Val, ord: Order, ord': Order)
    requires IsVal(k, v) && ValidOrder(ord) && ValidOrder(ord')
    requires !k.RepStr? && !k.RepSub? && !k.Map? && (k.Sub? ==> v.m.Some?)
    ensures |EncodeRec(OneRec(num, k, v, ord))| == |EncodeRec(OneRec(num, k, v, ord'))|
    decreases k, 0, 0
  {
    if k.Sub? {
      OrderKeepsSize(k.schema, v.m.value, ord, ord');
      LenSize(num, Serialize(k.schema, v.m.value, ord), Serialize(k.schema, v.m.value, ord'));
    }
  }

  lemma LenSize(num: nat, a: Bytes, b: Bytes)
    requires |a| == |b|
    ensures |EncodeRec(Len(num, a))| == |EncodeRec(Len(num, b))| == |EncodeTag(num, WT_LEN)| + VarintSize(|a|) + |a|
  {
  }

  lemma {:induction false} OrderKeepsSubsSize(num: nat, s: Schema, ms: seq<Msg>, ord: Order, ord': Order)
    requires ValidOrder(ord) && ValidOrder(ord')
    requires forall j :: 0 <= j < |ms| ==> IsMsg(s, ms[j])
    ensures |EncodeRecs(SubRecs(num, s, ms, ord))| == |EncodeRecs(SubRecs(num, s, ms, ord'))|
    decreases s, 2, |ms|
  {
    if ms != [] {
      OrderKeepsSize(s, ms[0], ord, ord');
      LenSize(num, Serialize(s, ms[0], ord), Serialize(s, ms[0], ord'));
      OrderKeepsSubsSize(num, s, ms[1..], ord, ord');
      var rs, rs' := SubRecs(num, s, ms, ord), SubRecs(num, s, ms, ord');
      assert rs[1..] == SubRecs(num, s, ms[1..], ord) && rs'[1..] == SubRecs(num, s, ms[1..], ord');
    }
  }

  /** The encoded length of one map entry. */
  ghost function EntrySize(num: nat, entry: Schema, key: Bytes, v: Val, ord: Order): nat
    requires EntryShape(entry) && IsEntryValue(entry, v)
  {
    |EncodeRec(Len(num, EncodeRecs(EntryBody(entry, key, v, ord))))|
  }

  ghost function SumEntries(num: nat, entry: Schema, entries: map<Bytes, Val>, keys: seq<Bytes>, ord: Order): nat
    requires IsVal(Map(entry), VMap(entries))
    requires forall i :: 0 <= i < |keys| ==> keys[i] in entries
  {
    if keys == [] then 0
    else EntrySize(num, entry, keys[0], entries[keys[0]], ord) + SumEntries(num, entry, entries, keys[1..], ord)
  }

  lemma {:induction false} EntriesSize(num: nat, entry: Schema, entries: map<Bytes, Val>, keys: seq<Bytes>, ord: Order)
    requires IsVal(Map(entry), VMap(entries))
    requires forall i :: 0 <= i < |keys| ==> keys[i] in entries
    ensures |EncodeRecs(EntryRecs(num, entry, entries, keys, ord))| == SumEntries(num, entry, entries, keys, ord)
    decreases |keys|
  {
    if keys != [] {
      var rs := EntryRecs(num, entry, entries, keys, ord);
      assert rs[1..] == EntryRecs(num, entry, entries, keys[1..], ord);
      EntriesSize(num, entry, entries, keys[1..], ord);
    }
  }

  lemma {:induction false} OrderKeepsEntrySize(num: nat, entry: Schema, key: Bytes, v: Val, ord: Order, ord': Order)
    requires EntryShape(entry) && IsEntryValue(entry, v) && ValidOrder(ord) && ValidOrder(ord')
    ensures EntrySize(num, entry, key, v, ord) == EntrySize(num, entry, key, v, ord')
    decreases entry, 0, 0
  {
    var k := ValueKind(entry);
    OrderKeepsOneSize(2, k, v, ord, ord');
    EncodeRecsAppend([Len(1, key)], [OneRec(2, k, v, ord)]);
    EncodeRecsAppend([Len(1, key)], [OneRec(2, k, v, ord')]);
    EncodeOne(OneRec(2, k, v, ord));
    EncodeOne(OneRec(2, k, v, ord'));
    assert EntryBody(entry, key, v, ord) == [Len(1, key)] + [OneRec(2, k, v, ord)];
    assert EntryBody(entry, key, v, ord') == [Len(1, key)] + [OneRec(2, k, v, ord')];
    LenSize(num, EncodeRecs(EntryBody(entry, key, v, ord)), EncodeRecs(EntryBody(entry, key, v, ord')));
  }

  lemma {:induction false} SumSame(num: nat, entry: Schema, entries: map<Bytes, Val>, keys: seq<Bytes>, ord: Order, ord': Order)
    requires IsVal(Map(entry), VMap(entries))
    requires forall i :: 0 <= i < |keys| ==> keys[i] in entries
    requires forall key :: key in entries ==>
      EntrySize(num, entry, key, entries[key], ord) == EntrySize(num, entry, key, entries[key], ord')
    ensures SumEntries(num, entry, entries, keys, ord) == SumEntries(num, entry, entries, keys, ord')
    decreases |keys|
  {
    if keys != [] {
      SumSame(num, entry, entries, keys[1..], ord, ord');
    }
  }

  /** The sum over the entries of a map does not depend on the order they are visited in. */
  lemma {:induction false} SumPermuted(num: nat, entry: Schema, entries: map<Bytes, Val>, a: seq<Bytes>, b: seq<Bytes>, ord: Order)
    requires IsVal(Map(entry), VMap(entries))
    requires forall i :: 0 <= i < |a| ==> a[i] in entries
    requires forall i :: 0 <= i < |b| ==> b[i] in entries
    requires SameKeys(a, b)
    ensures SumEntries(num, entry, entries, a, ord) == SumEntries(num, entry, entries, b, ord)
    decreases |a|
  {
    if a == [] {
      assert forall i :: 0 <= i < |b| ==> b[i] in a;
    } else {
      assert a[0] in a;
      var j :| 0 <= j < |b| && b[j] == a[0];
      SumSplit(num, entry, entries, b, j, ord);
      SameKeysRest(a, b, j);
      SumPermuted(num, entry, entries, a[1..], b[..j] + b[j + 1..], ord);
    }
  }

  /** Two listings, without repetition, of the same keys. */
  ghost predicate SameKeys(a: seq<Bytes>, b: seq<Bytes>) {
    && (forall key :: key in a <==> key in b)
    && (forall i, j :: 0 <= i < j < |a| ==> a[i] != a[j])
    && (forall i, j :: 0 <= i < j < |b| ==> b[i] != b[j])
  }

  lemma SameKeysRest(a: seq<Bytes>, b: seq<Bytes>, j: nat)
    requires SameKeys(a, b) && a != [] && j < |b| && b[j] == a[0]
    ensures SameKeys(a[1..], b[..j] + b[j + 1..])
  {
    var b' := b[..j] + b[j + 1..];
    forall key
      ensures key in a[1..] <==> key in b'
    {
      if key in a[1..] {
        var i :| 0 < i < |a| && a[i] == key;
        assert key in b;
        var i' :| 0 <= i' < |b| && b[i'] == key;
        assert i' != j;
        assert key == b'[if i' < j then i' else i' - 1];
      }
      if key in b' {
        var i' :| 0 <= i' < |b'| && b'[i'] == key;
        assert key == b[if i' < j then i' else i' + 1];
        assert key in a;
      }
    }
  }

  lemma {:induction false} SumSplit(num: nat, entry: Schema, entries: map<Bytes, Val>, b: seq<Bytes>, j: nat, ord: Order)
    requires IsVal(Map(entry), VMap(entries))
    requires forall i :: 0 <= i < |b| ==> b[i] in entries
    requires j < |b|
    ensures SumEntries(num, entry, entries, b, ord)
         == EntrySize(num, entry, b[j], entries[b[j]], ord) + SumEntries(num, entry, entries, b[..j] + b[j + 1..], ord)
    decreases |b|
  {
    if j == 0 {
      assert b[..0] + b[1..] == b[1..];
    } else {
      var c := b[..j] + b[j + 1..];
      assert c[0] == b[0] && c[1..] == b[1..][..j - 1] + b[1..][j..];
      SumSplit(num, entry, entries, b[1..], j - 1, ord);
    }
  }
}
