/**
 The laws of the codec: serializing and then parsing on top of a message is
 merging, merging is a monoid, and what follows from those two.
 */
module Codec {
  import opened Wire
  import opened Message

  // ------------------------------------------------------ folding records

  lemma {:induction false} ApplyAllAppend(s: Schema, m: Msg, a: seq<Rec>, b: seq<Rec>)
    requires ValidSchema(s) && IsMsg(s, m) && ValidRecs(a) && ValidRecs(b)
    ensures ApplyAll(s, m, a + b)
         == match ApplyAll(s, m, a) { case None => None case Some(m') => ApplyAll(s, m', b) }
    decreases |a|
  {
    if a == [] {
      assert a + b == b;
    } else {
      assert (a + b)[0] == a[0] && (a + b)[1..] == a[1..] + b;
      match Apply(s, m, a[0])
      case None =>
      case Some(m') => ApplyAllAppend(s, m', a[1..], b);
    }
  }

  lemma ApplyAllOne(s: Schema, m: Msg, r: Rec)
    requires ValidSchema(s) && IsMsg(s, m) && ValidRec(r)
    ensures ApplyAll(s, m, [r]) == Apply(s, m, r)
  {
    assert [r][1..] == [];
  }

  lemma ApplyAllTwo(s: Schema, m: Msg, r: Rec, r': Rec)
    requires ValidSchema(s) && IsMsg(s, m) && ValidRec(r) && ValidRec(r')
    ensures ApplyAll(s, m, [r, r'])
         == match Apply(s, m, r) { case None => None case Some(m') => Apply(s, m', r') }
  {
    assert [r, r'][1..] == [r'];
    match Apply(s, m, r)
    case None =>
    case Some(m') => ApplyAllOne(s, m', r');
  }

  lemma {:induction false} ApplyUnknown(s: Schema, m: Msg, us: seq<Rec>)
    requires ValidSchema(s) && IsMsg(s, m) && ValidRecs(us) && AllUnknown(s, us)
    ensures ApplyAll(s, m, us) == Some(m.(unknown := m.unknown + us))
    decreases |us|
  {
    if us == [] {
      assert m.unknown + us == m.unknown;
    } else {
      var m' := m.(unknown := m.unknown + [us[0]]);
      assert Apply(s, m, us[0]) == Some(m');
      ApplyUnknown(s, m', us[1..]);
      assert m'.unknown + us[1..] == m.unknown + us;
    }
  }

  lemma SlotOf(s: Schema, i: nat, r: Rec)
    requires ValidSchema(s) && i < |s.fields|
    requires r.num == s.fields[i].num && WireType(r) == KindWireType(s.fields[i].kind)
    ensures Slot(s, r) == Some(i)
  {
    FindFieldFinds(s, i, 0);
  }

  lemma {:induction false} FindFieldFinds(s: Schema, i: nat, from: nat)
    requires ValidSchema(s) && from <= i < |s.fields|
    ensures FindField(s, s.fields[i].num, from) == Some(i)
    decreases i - from
  {
    if from < i {
      FindFieldFinds(s, i, from + 1);
    }
  }

  // ------------------------------------- serialized records are well formed

  lemma {:induction false} PayloadWithin(rs: seq<Rec>, i: nat)
    requires i < |rs| && rs[i].Len?
    ensures |rs[i].payload| <= |EncodeRecs(rs)|
  {
    if i > 0 {
      PayloadWithin(rs[1..], i - 1);
    } else {
      assert |rs[0].payload| <= |EncodeBody(rs[0])| <= |EncodeRec(rs[0])|;
    }
  }

  /** All but the length limit on payloads. */
  ghost predicate Shaped(r: Rec) {
    && 1 <= r.num < TWO_TO_29
    && (r.Varint? ==> r.v < TWO_TO_64)
    && (r.Fixed64? ==> r.bits < TWO_TO_64)
    && !r.Group? && !r.Fixed32?
  }

  lemma ShapedFits(rs: seq<Rec>)
    requires forall i :: 0 <= i < |rs| ==> Shaped(rs[i])
    requires |EncodeRecs(rs)| < TWO_TO_31
    ensures ValidRecs(rs)
  {
    forall i | 0 <= i < |rs|
      ensures ValidRec(rs[i])
    {
      if rs[i].Len? { PayloadWithin(rs, i); }
    }
  }

  lemma {:induction false} StrRecsShaped(num: nat, ss: seq<Bytes>)
    requires 1 <= num < TWO_TO_29
    ensures forall r :: r in StrRecs(num, ss) ==> Shaped(r)
  {
    if ss != [] { StrRecsShaped(num, ss[1..]); }
  }

  lemma {:induction false} SubRecsShaped(num: nat, s: Schema, ms: seq<Msg>, ord: Order)
    requires 1 <= num < TWO_TO_29
    requires forall j :: 0 <= j < |ms| ==> IsMsg(s, ms[j])
    ensures forall r :: r in SubRecs(num, s, ms, ord) ==> Shaped(r)
    decreases |ms|
  {
    if ms != [] { SubRecsShaped(num, s, ms[1..], ord); }
  }

  lemma {:induction false} EntryRecsShaped(num: nat, entry: Schema, entries: map<Bytes, Val>, keys: seq<Bytes>, ord: Order)
    requires 1 <= num < TWO_TO_29
    requires IsVal(Map(entry), VMap(entries))
    requires forall i :: 0 <= i < |keys| ==> keys[i] in entries
    ensures forall r :: r in EntryRecs(num, entry, entries, keys, ord) ==> Shaped(r)
    decreases |keys|
  {
    if keys != [] { EntryRecsShaped(num, entry, entries, keys[1..], ord); }
  }

  lemma FieldRecsShaped(num: nat, k: Kind, v: Val, ord: Order)
    requires 1 <= num < TWO_TO_29 && IsVal(k, v)
    ensures forall r :: r in FieldRecs(num, k, v, ord) ==> Shaped(r)
  {
    match k
    case RepStr => StrRecsShaped(num, v.ss);
    case RepSub(schema) => SubRecsShaped(num, schema, v.ms, ord);
    case Map(entry) => EntryRecsShaped(num, entry, v.entries, KeysInOrder(v.entries, ord), ord);
    case _ =>
  }

  lemma {:induction false} RecsUpToValid(s: Schema, m: Msg, ord: Order, n: nat)
    requires ValidSchema(s) && IsMsg(s, m) && n <= |s.fields|
    requires |EncodeRecs(RecsUpTo(s, m, ord, n))| < TWO_TO_31
    ensures ValidRecs(RecsUpTo(s, m, ord, n))
    decreases n
  {
    hide EncodeRecs, FieldRecs;
    if n > 0 {
      var f := s.fields[n - 1];
      var a, b := RecsUpTo(s, m, ord, n - 1), FieldRecs(f.num, f.kind, m.vals[n - 1], ord);
      EncodeRecsAppend(a, b);
      RecsUpToValid(s, m, ord, n - 1);
      FieldRecsShaped(f.num, f.kind, m.vals[n - 1], ord);
      ShapedFits(b);
    }
  }

  lemma RecsValid(s: Schema, m: Msg, ord: Order)
    requires ValidSchema(s) && IsMsg(s, m)
    requires |Serialize(s, m, ord)| < TWO_TO_31
    ensures ValidRecs(Recs(s, m, ord))
  {
    EncodeRecsAppend(RecsUpTo(s, m, ord, |s.fields|), m.unknown);
    RecsUpToValid(s, m, ord, |s.fields|);
  }

  // ------------------------------------------------------ monoid of merges

  lemma MergeValDefault(k: Kind, v: Val)
    requires ValidKind(k) && IsVal(k, v)
    ensures MergeVal(k, DefaultVal(k), v) == v
    ensures MergeVal(k, v, DefaultVal(k)) == v
  {
    match k
    case RepStr => assert [] + v.ss == v.ss && v.ss + [] == v.ss;
    case RepSub(_) => assert [] + v.ms == v.ms && v.ms + [] == v.ms;
    case Map(_) => assert map[] + v.entries == v.entries && v.entries + map[] == v.entries;
    case _ =>
  }

  /** The default message is a two-sided identity of merge. */
  lemma MergeIdentity(s: Schema, m: Msg)
    requires ValidSchema(s) && IsMsg(s, m)
    ensures Merge(s, Default(s), m) == m
    ensures Merge(s, m, Default(s)) == m
  {
    forall i | 0 <= i < |s.fields|
      ensures Merge(s, Default(s), m).vals[i] == m.vals[i]
      ensures Merge(s, m, Default(s)).vals[i] == m.vals[i]
    {
      assert ValidKind(s.fields[i].kind) && IsVal(s.fields[i].kind, m.vals[i]);
      MergeValDefault(s.fields[i].kind, m.vals[i]);
    }
    assert Merge(s, Default(s), m).vals == m.vals;
    assert Merge(s, m, Default(s)).vals == m.vals;
  }

  lemma {:induction false} MergeValAssociative(k: Kind, a: Val, b: Val, c: Val)
    requires IsVal(k, a) && IsVal(k, b) && IsVal(k, c)
    ensures MergeVal(k, a, MergeVal(k, b, c)) == MergeVal(k, MergeVal(k, a, b), c)
    decreases k, 0
  {
    match k
    case Sub(schema) =>
      if a.m.Some? && b.m.Some? && c.m.Some? {
        MergeAssociative(schema, a.m.value, b.m.value, c.m.value);
      }
    case RepStr => assert a.ss + (b.ss + c.ss) == (a.ss + b.ss) + c.ss;
    case RepSub(_) => assert a.ms + (b.ms + c.ms) == (a.ms + b.ms) + c.ms;
    case Map(_) => assert a.entries + (b.entries + c.entries) == (a.entries + b.entries) + c.entries;
    case _ =>
  }

  lemma {:induction false} MergeAssociative(s: Schema, a: Msg, b: Msg, c: Msg)
    requires IsMsg(s, a) && IsMsg(s, b) && IsMsg(s, c)
    ensures Merge(s, a, Merge(s, b, c)) == Merge(s, Merge(s, a, b), c)
    decreases s, 1
  {
    var l, r := Merge(s, a, Merge(s, b, c)), Merge(s, Merge(s, a, b), c);
    forall i | 0 <= i < |s.fields|
      ensures l.vals[i] == r.vals[i]
    {
      MergeValAssociative(s.fields[i].kind, a.vals[i], b.vals[i], c.vals[i]);
    }
    assert l.vals == r.vals;
    assert a.unknown + (b.unknown + c.unknown) == (a.unknown + b.unknown) + c.unknown;
  }

  // --------------------------------------- parsing a serialization merges it

  lemma VarintRoundTrip(i: int)
    ensures -TWO_TO_63 <= i < TWO_TO_63 ==> FromVarint64(ToVarint(i)) == i
    ensures -TWO_TO_31 <= i < TWO_TO_31 ==> FromVarint32(ToVarint(i)) == i
  {
    if -TWO_TO_31 <= i < 0 {
      assert TWO_TO_64 + i == (TWO_TO_32 - 1) * TWO_TO_32 + (TWO_TO_32 + i);
    }
  }

  /** A message of `s` with its field `i` replaced. */
  ghost function WithVal(s: Schema, m: Msg, i: nat, v: Val): (m': Msg)
    requires IsMsg(s, m) && i < |s.fields| && IsVal(s.fields[i].kind, v)
    ensures IsMsg(s, m')
  {
    m.(vals := m.vals[i := v])
  }

  lemma WithValTwice(s: Schema, m: Msg, i: nat, v: Val, w: Val)
    requires IsMsg(s, m) && i < |s.fields| && IsVal(s.fields[i].kind, v) && IsVal(s.fields[i].kind, w)
    ensures WithVal(s, WithVal(s, m, i, v), i, w) == WithVal(s, m, i, w)
  {
    assert m.vals[i := v][i := w] == m.vals[i := w];
  }

  lemma ApplyField(s: Schema, m: Msg, i: nat, r: Rec)
    requires ValidSchema(s) && IsMsg(s, m) && i < |s.fields| && ValidRec(r)
    requires r.num == s.fields[i].num && WireType(r) == KindWireType(s.fields[i].kind)
    ensures ValidKind(s.fields[i].kind) && IsVal(s.fields[i].kind, m.vals[i])
    ensures var v := ApplyVal(s.fields[i].kind, m.vals[i], r);
            Apply(s, m, r) == if v.None? then None else Some(WithVal(s, m, i, v.value))
  {
    assert ValidKind(s.fields[i].kind);
    SlotOf(s, i, r);
  }

  lemma {:induction false} ApplyOneRec(k: Kind, num: nat, a: Val, v: Val, ord: Order)
    requires ValidKind(k) && IsVal(k, a) && IsVal(k, v) && ValidOrder(ord)
    requires !k.RepStr? && !k.RepSub? && !k.Map? && (k.Sub? ==> v.m.Some?)
    requires ValidRec(OneRec(num, k, v, ord))
    ensures v != DefaultVal(k) ==> ApplyVal(k, a, OneRec(num, k, v, ord)) == Some(MergeVal(k, a, v))
    ensures a == DefaultVal(k) ==> ApplyVal(k, a, OneRec(num, k, v, ord)) == Some(v)
    decreases k, 0
  {
    match k
    case Int32 => VarintRoundTrip(v.i);
    case Int64 => VarintRoundTrip(v.i);
    case Sub(schema) =>
      var base := if a.m.Some? then a.m.value else Default(schema);
      ParseOfSerialize(schema, base, v.m.value, ord);
      MergeIdentity(schema, v.m.value);
    case _ =>
  }

  /** A record in front is applied first. */
  lemma ApplyAllStep(s: Schema, m: Msg, rs: seq<Rec>, r: Rec, rest: seq<Rec>)
    requires ValidSchema(s) && IsMsg(s, m) && ValidRecs(rs) && rs == [r] + rest
    ensures ValidRec(r) && ValidRecs(rest)
    ensures ApplyAll(s, m, rs) == match Apply(s, m, r) case None => None case Some(m') => ApplyAll(s, m', rest)
  {
    hide Apply, ValidRec, ValidSchema, IsMsg;
    assert rs[0] == r && rs[1..] == rest;
    assert ValidRec(rs[0]) && forall k :: 0 <= k < |rest| ==> ValidRec(rest[k]) by {
      forall k | 0 <= k < |rest| ensures ValidRec(rest[k]) { assert rest[k] == rs[k + 1]; }
    }
  }

  lemma ApplyNone(s: Schema, m: Msg, i: nat)
    requires ValidSchema(s) && IsMsg(s, m) && i < |s.fields| && IsVal(s.fields[i].kind, m.vals[i])
    ensures ApplyAll(s, m, []) == Some(WithVal(s, m, i, m.vals[i]))
  {
    assert m.vals[i := m.vals[i]] == m.vals;
  }

  lemma {:induction false} ApplyStrRecs(s: Schema, m: Msg, i: nat, ss: seq<Bytes>)
    requires ValidSchema(s) && IsMsg(s, m) && i < |s.fields| && s.fields[i].kind == RepStr
    requires ValidRecs(StrRecs(s.fields[i].num, ss))
    ensures IsVal(RepStr, m.vals[i])
    ensures ApplyAll(s, m, StrRecs(s.fields[i].num, ss)) == Some(WithVal(s, m, i, VStrs(m.vals[i].ss + ss)))
    decreases |ss|
  {
    hide ApplyAll, Apply, WithVal, ValidRecs, ValidSchema;
    assert IsVal(s.fields[i].kind, m.vals[i]);
    var has := m.vals[i].ss;
    if ss == [] {
      assert has + [] == has;
      ApplyNone(s, m, i);
    } else {
      var num := s.fields[i].num;
      ApplyAllStep(s, m, StrRecs(num, ss), Len(num, ss[0]), StrRecs(num, ss[1..]));
      ApplyField(s, m, i, Len(num, ss[0]));
      ApplyStrRecs(s, WithVal(s, m, i, VStrs(has + [ss[0]])), i, ss[1..]);
      WithValHas(s, m, i, VStrs(has + [ss[0]]));
      assert has + [ss[0]] + ss[1..] == has + ss;
      WithValTwice(s, m, i, VStrs(has + [ss[0]]), VStrs(has + ss));
    }
  }

  lemma WithValHas(s: Schema, m: Msg, i: nat, v: Val)
    requires IsMsg(s, m) && i < |s.fields| && IsVal(s.fields[i].kind, v)
    ensures i < |WithVal(s, m, i, v).vals| && WithVal(s, m, i, v).vals[i] == v
  {
  }

  /** One more sub-message is parsed from nothing, and appended. */
  lemma {:induction false} ApplySub(s: Schema, m: Msg, i: nat, sub: Msg, ord: Order)
    requires ValidSchema(s) && IsMsg(s, m) && i < |s.fields| && s.fields[i].kind.RepSub? && ValidOrder(ord)
    requires IsMsg(s.fields[i].kind.schema, sub)
    requires ValidRec(Len(s.fields[i].num, Serialize(s.fields[i].kind.schema, sub, ord)))
    ensures m.vals[i].VSubs? && IsVal(s.fields[i].kind, VSubs(m.vals[i].ms + [sub]))
    ensures Apply(s, m, Len(s.fields[i].num, Serialize(s.fields[i].kind.schema, sub, ord)))
         == Some(WithVal(s, m, i, VSubs(m.vals[i].ms + [sub])))
    decreases s.fields[i].kind, 0
  {
    hide Serialize, Apply, Merge, ParseInto, WithVal, IsMsg;
    var k := s.fields[i].kind;
    ApplyField(s, m, i, Len(s.fields[i].num, Serialize(k.schema, sub, ord)));
    ParseOfSerialize(k.schema, Default(k.schema), sub, ord);
    MergeIdentity(k.schema, sub);
  }

  lemma {:induction false} ApplySubRecs(s: Schema, m: Msg, i: nat, ms: seq<Msg>, ord: Order)
    requires ValidSchema(s) && IsMsg(s, m) && i < |s.fields| && s.fields[i].kind.RepSub? && ValidOrder(ord)
    requires IsVal(s.fields[i].kind, VSubs(ms))
    requires ValidRecs(SubRecs(s.fields[i].num, s.fields[i].kind.schema, ms, ord))
    ensures m.vals[i].VSubs? && IsVal(s.fields[i].kind, VSubs(m.vals[i].ms + ms))
    ensures ApplyAll(s, m, SubRecs(s.fields[i].num, s.fields[i].kind.schema, ms, ord))
         == Some(WithVal(s, m, i, VSubs(m.vals[i].ms + ms)))
    decreases s.fields[i].kind, 1, |ms|
  {
    hide ApplyAll, Apply, WithVal, ValidRecs, ValidSchema, Serialize, ValidOrder;
    var num, k := s.fields[i].num, s.fields[i].kind;
    assert IsVal(k, m.vals[i]);
    var has := m.vals[i].ms;
    if ms == [] {
      assert has + [] == has;
      ApplyNone(s, m, i);
    } else {
      var r := Len(num, Serialize(k.schema, ms[0], ord));
      ApplyAllStep(s, m, SubRecs(num, k.schema, ms, ord), r, SubRecs(num, k.schema, ms[1..], ord));
      ApplySub(s, m, i, ms[0], ord);
      ApplySubRecs(s, WithVal(s, m, i, VSubs(has + [ms[0]])), i, ms[1..], ord);
      WithValHas(s, m, i, VSubs(has + [ms[0]]));
      assert has + [ms[0]] + ms[1..] == has + ms;
      WithValTwice(s, m, i, VSubs(has + [ms[0]]), VSubs(has + ms));
    }
  }

  lemma ReadRecsWhole(rs: seq<Rec>)
    requires ValidRecs(rs)
    ensures ReadRecs(EncodeRecs(rs), 0) == Got(rs, [])
  {
    hide EncodeRecs;
    ReadRecsOfEncode(rs, [], 0);
    assert EncodeRecs(rs) + [] == EncodeRecs(rs) && rs + [] == rs;
  }

  lemma {:induction false} ParseEntry(entry: Schema, key: Bytes, v: Val, ord: Order)
    requires ValidEntry(entry) && IsEntryValue(entry, v) && ValidOrder(ord)
    requires |EncodeRecs(EntryBody(entry, key, v, ord))| < TWO_TO_31
    ensures ParseInto(entry, Default(entry), EncodeRecs(EntryBody(entry, key, v, ord))) == Some(Msg([VStr(key), v], []))
    decreases entry, 0
  {
    hide ApplyAll, Apply, EncodeRecs, ReadRecs, ValidOrder, MergeVal;
    var k, body := ValueKind(entry), EntryBody(entry, key, v, ord);
    assert entry.fields[1].kind == k && ValidKind(entry.fields[1].kind);
    ShapedFits(body);
    assert ValidRec(body[0]) && ValidRec(body[1]);
    ReadRecsWhole(body);
    var m0 := Default(entry);
    ApplyField(entry, m0, 0, body[0]);
    var m1 := WithVal(entry, m0, 0, VStr(key));
    ApplyField(entry, m1, 1, body[1]);
    ApplyOneRec(k, 2, m1.vals[1], v, ord);
    var m2 := WithVal(entry, m1, 1, v);
    assert m2.vals == [VStr(key), v];
    assert body == [body[0], body[1]];
    ApplyAllTwo(entry, m0, body[0], body[1]);
  }

  lemma {:induction false} ApplyEntry(s: Schema, m: Msg, i: nat, key: Bytes, v: Val, ord: Order)
    requires ValidSchema(s) && IsMsg(s, m) && i < |s.fields| && s.fields[i].kind.Map? && ValidOrder(ord)
    requires IsVal(s.fields[i].kind, m.vals[i]) && IsEntryValue(s.fields[i].kind.entry, v)
    requires |EncodeRecs(EntryBody(s.fields[i].kind.entry, key, v, ord))| < TWO_TO_31
    ensures IsVal(s.fields[i].kind, VMap(m.vals[i].entries[key := v]))
    ensures 1 <= s.fields[i].num < TWO_TO_29
    ensures Apply(s, m, Len(s.fields[i].num, EncodeRecs(EntryBody(s.fields[i].kind.entry, key, v, ord))))
         == Some(WithVal(s, m, i, VMap(m.vals[i].entries[key := v])))
    decreases s.fields[i].kind, 0
  {
    var k := s.fields[i].kind;
    assert ValidKind(k);
    ApplyField(s, m, i, Len(s.fields[i].num, EncodeRecs(EntryBody(k.entry, key, v, ord))));
    ParseEntry(k.entry, key, v, ord);
  }

  lemma {:induction false} ApplyEntryRecs(s: Schema, m: Msg, i: nat, entries: map<Bytes, Val>, keys: seq<Bytes>, ord: Order)
    requires ValidSchema(s) && IsMsg(s, m) && i < |s.fields| && s.fields[i].kind.Map? && ValidOrder(ord)
    requires IsVal(s.fields[i].kind, VMap(entries))
    requires forall j :: 0 <= j < |keys| ==> keys[j] in entries
    requires ValidRecs(EntryRecs(s.fields[i].num, s.fields[i].kind.entry, entries, keys, ord))
    ensures m.vals[i].VMap? && IsVal(s.fields[i].kind, VMap(m.vals[i].entries + Restrict(entries, keys)))
    ensures ApplyAll(s, m, EntryRecs(s.fields[i].num, s.fields[i].kind.entry, entries, keys, ord))
         == Some(WithVal(s, m, i, VMap(m.vals[i].entries + Restrict(entries, keys))))
    decreases s.fields[i].kind, 1, |keys|
  {
    hide ApplyAll, Apply, WithVal, ValidRecs, ValidSchema, EntryBody, EncodeRecs, ValidOrder;
    var num, k := s.fields[i].num, s.fields[i].kind;
    assert IsVal(k, m.vals[i]);
    var has := m.vals[i].entries;
    if keys == [] {
      assert has + Restrict(entries, keys) == has;
      ApplyNone(s, m, i);
    } else {
      var r := Len(num, EncodeRecs(EntryBody(k.entry, keys[0], entries[keys[0]], ord)));
      ApplyAllStep(s, m, EntryRecs(num, k.entry, entries, keys, ord), r, EntryRecs(num, k.entry, entries, keys[1..], ord));
      ApplyEntry(s, m, i, keys[0], entries[keys[0]], ord);
      var v := VMap(has[keys[0] := entries[keys[0]]]);
      ApplyEntryRecs(s, WithVal(s, m, i, v), i, entries, keys[1..], ord);
      WithValHas(s, m, i, v);
      RestrictStep(has, entries, keys);
      WithValTwice(s, m, i, v, VMap(has + Restrict(entries, keys)));
    }
  }

  ghost function Restrict(entries: map<Bytes, Val>, keys: seq<Bytes>): map<Bytes, Val> {
    map key | key in entries && key in keys :: entries[key]
  }

  lemma RestrictStep(into: map<Bytes, Val>, entries: map<Bytes, Val>, keys: seq<Bytes>)
    requires keys != [] && keys[0] in entries
    ensures into[keys[0] := entries[keys[0]]] + Restrict(entries, keys[1..]) == into + Restrict(entries, keys)
  {
  }

  /** The records of one field, applied to a message, merge that field and touch nothing else. */
  lemma {:induction false} ApplyFieldRecs(s: Schema, m: Msg, i: nat, v: Val, ord: Order)
    requires ValidSchema(s) && IsMsg(s, m) && i < |s.fields| && IsVal(s.fields[i].kind, v) && ValidOrder(ord)
    requires ValidRecs(FieldRecs(s.fields[i].num, s.fields[i].kind, v, ord))
    ensures IsVal(s.fields[i].kind, m.vals[i])
    ensures ApplyAll(s, m, FieldRecs(s.fields[i].num, s.fields[i].kind, v, ord))
         == Some(WithVal(s, m, i, MergeVal(s.fields[i].kind, m.vals[i], v)))
    decreases s.fields[i].kind, 2
  {
    var num, k := s.fields[i].num, s.fields[i].kind;
    assert IsVal(k, m.vals[i]) && ValidKind(k);
    match k
    case RepStr => ApplyStrRecs(s, m, i, v.ss);
    case RepSub(schema) => ApplySubRecs(s, m, i, v.ms, ord);
    case Map(entry) =>
      var keys := KeysInOrder(v.entries, ord);
      ApplyEntryRecs(s, m, i, v.entries, keys, ord);
      assert Restrict(v.entries, keys) == v.entries;
    case _ => ApplyPlainRecs(s, m, i, v, ord);
  }

  /** Of a field that is neither a list nor a map there is one record, or none. */
  lemma {:induction false} ApplyPlainRecs(s: Schema, m: Msg, i: nat, v: Val, ord: Order)
    requires ValidSchema(s) && IsMsg(s, m) && i < |s.fields| && IsVal(s.fields[i].kind, v) && ValidOrder(ord)
    requires !s.fields[i].kind.RepStr? && !s.fields[i].kind.RepSub? && !s.fields[i].kind.Map?
    requires ValidRecs(FieldRecs(s.fields[i].num, s.fields[i].kind, v, ord))
    ensures IsVal(s.fields[i].kind, m.vals[i])
    ensures ApplyAll(s, m, FieldRecs(s.fields[i].num, s.fields[i].kind, v, ord))
         == Some(WithVal(s, m, i, MergeVal(s.fields[i].kind, m.vals[i], v)))
    decreases s.fields[i].kind, 1
  {
    hide ApplyAll, Apply, ApplyVal, WithVal, MergeVal, ValidSchema, ValidOrder, OneRec;
    var num, k := s.fields[i].num, s.fields[i].kind;
    assert IsVal(k, m.vals[i]);
    if v == DefaultVal(k) {
      ApplyNone(s, m, i);
      PlainDefault(s, i, m.vals[i]);
    } else {
      var r := OneRec(num, k, v, ord);
      assert FieldRecs(num, k, v, ord) == [r] && [r][0] == r;
      ApplyAllOne(s, m, r);
      OneRecTagged(num, k, v, ord);
      ApplyField(s, m, i, r);
      ApplyOneRec(k, num, m.vals[i], v, ord);
    }
  }

  lemma PlainDefault(s: Schema, i: nat, v: Val)
    requires ValidSchema(s) && i < |s.fields| && IsVal(s.fields[i].kind, v)
    ensures IsVal(s.fields[i].kind, DefaultVal(s.fields[i].kind)) && MergeVal(s.fields[i].kind, v, DefaultVal(s.fields[i].kind)) == v
  {
    assert ValidKind(s.fields[i].kind);
    MergeValDefault(s.fields[i].kind, v);
  }

  lemma OneRecTagged(num: nat, k: Kind, v: Val, ord: Order)
    requires IsVal(k, v) && !k.RepStr? && !k.RepSub? && !k.Map? && (k.Sub? ==> v.m.Some?)
    ensures OneRec(num, k, v, ord).num == num && WireType(OneRec(num, k, v, ord)) == KindWireType(k)
  {
  }

  /** `a` with the first `n` fields of `b` merged in. */
  ghost function MergeUpTo(s: Schema, a: Msg, b: Msg, n: nat): (m: Msg)
    requires IsMsg(s, a) && IsMsg(s, b) && n <= |s.fields|
    ensures IsMsg(s, m)
  {
    Msg(seq(|s.fields|, i requires 0 <= i < |s.fields| =>
          if i < n then MergeVal(s.fields[i].kind, a.vals[i], b.vals[i]) else a.vals[i]), a.unknown)
  }

  lemma MergeUpToNone(s: Schema, a: Msg, b: Msg)
    requires IsMsg(s, a) && IsMsg(s, b)
    ensures MergeUpTo(s, a, b, 0) == a
  {
    assert MergeUpTo(s, a, b, 0).vals == a.vals;
  }

  lemma MergeUpToStep(s: Schema, a: Msg, b: Msg, n: nat)
    requires IsMsg(s, a) && IsMsg(s, b) && 0 < n <= |s.fields|
    ensures MergeUpTo(s, a, b, n - 1).vals[n - 1] == a.vals[n - 1]
    ensures IsVal(s.fields[n - 1].kind, a.vals[n - 1]) && IsVal(s.fields[n - 1].kind, b.vals[n - 1])
    ensures WithVal(s, MergeUpTo(s, a, b, n - 1), n - 1, MergeVal(s.fields[n - 1].kind, a.vals[n - 1], b.vals[n - 1]))
         == MergeUpTo(s, a, b, n)
  {
    assert MergeUpTo(s, a, b, n).vals
        == MergeUpTo(s, a, b, n - 1).vals[n - 1 := MergeVal(s.fields[n - 1].kind, a.vals[n - 1], b.vals[n - 1])];
  }

  lemma {:induction false} ApplyRecsUpTo(s: Schema, m: Msg, b: Msg, ord: Order, n: nat)
    requires ValidSchema(s) && IsMsg(s, m) && IsMsg(s, b) && n <= |s.fields| && ValidOrder(ord)
    requires ValidRecs(RecsUpTo(s, b, ord, n))
    ensures ApplyAll(s, m, RecsUpTo(s, b, ord, n)) == Some(MergeUpTo(s, m, b, n))
    decreases s, 0, n, 1
  {
    if n == 0 {
      MergeUpToNone(s, m, b);
    } else {
      hide ApplyAll, MergeUpTo, MergeVal, ValidRecs;
      var x := RecsUpTo(s, b, ord, n - 1);
      var y := FieldRecs(s.fields[n - 1].num, s.fields[n - 1].kind, b.vals[n - 1], ord);
      ValidRecsSplit(x, y);
      ApplyRecsUpTo(s, m, b, ord, n - 1);
      ApplyAllAppend(s, m, x, y);
      ApplyNextField(s, m, b, ord, n);
    }
  }

  lemma ApplyNextField(s: Schema, m: Msg, b: Msg, ord: Order, n: nat)
    requires ValidSchema(s) && IsMsg(s, m) && IsMsg(s, b) && 0 < n <= |s.fields| && ValidOrder(ord)
    requires ValidRecs(FieldRecs(s.fields[n - 1].num, s.fields[n - 1].kind, b.vals[n - 1], ord))
    ensures ApplyAll(s, MergeUpTo(s, m, b, n - 1), FieldRecs(s.fields[n - 1].num, s.fields[n - 1].kind, b.vals[n - 1], ord))
         == Some(MergeUpTo(s, m, b, n))
    decreases s, 0, n, 0
  {
    hide ApplyAll, FieldRecs, MergeUpTo, MergeVal, WithVal, ValidRecs;
    MergeUpToStep(s, m, b, n);
    ApplyFieldRecs(s, MergeUpTo(s, m, b, n - 1), n - 1, b.vals[n - 1], ord);
  }

  lemma ValidRecsSplit(a: seq<Rec>, b: seq<Rec>)
    requires ValidRecs(a + b)
    ensures ValidRecs(a) && ValidRecs(b)
  {
    assert a == (a + b)[..|a|] && b == (a + b)[|a|..];
  }

  /**
   Parsing a serialized message on top of another merges it in: the law the wire
   format is built on, for every schema and every order of map entries.
   */
  lemma {:induction false} ParseOfSerialize(s: Schema, m: Msg, b: Msg, ord: Order)
    requires ValidSchema(s) && IsMsg(s, m) && IsMsg(s, b) && ValidOrder(ord)
    requires |Serialize(s, b, ord)| < TWO_TO_31
    ensures ParseInto(s, m, Serialize(s, b, ord)) == Some(Merge(s, m, b))
    decreases s, 1
  {
    var n := |s.fields|;
    var fields, all := RecsUpTo(s, b, ord, n), Recs(s, b, ord);
    RecsValid(s, b, ord);
    ValidRecsSplit(fields, b.unknown);
    ReadRecsOfEncode(all, [], 0);
    assert EncodeRecs(all) + [] == EncodeRecs(all) && all + [] == all;
    ApplyRecsUpTo(s, m, b, ord, n);
    ApplyAllAppend(s, m, fields, b.unknown);
    ApplyUnknown(s, MergeUpTo(s, m, b, n), b.unknown);
    assert MergeUpTo(s, m, b, n).vals == Merge(s, m, b).vals;
  }

  // ------------------------------------------------------------- corollaries

  /** Round trip. */
  lemma ParseSerializeRoundTrip(s: Schema, m: Msg, ord: Order)
    requires ValidSchema(s) && IsMsg(s, m) && ValidOrder(ord)
    requires |Serialize(s, m, ord)| < TWO_TO_31
    ensures Parse(s, Serialize(s, m, ord)) == Some(m)
  {
    ParseOfSerialize(s, Default(s), m, ord);
    MergeIdentity(s, m);
  }

  /** Any two inputs the parser accepts: parsing them joined is parsing the second on top of the first. */
  lemma ParseConcat(s: Schema, m: Msg, x: Bytes, y: Bytes)
    requires ValidSchema(s) && IsMsg(s, m)
    requires ParseInto(s, m, x).Some?
    ensures ParseInto(s, m, x + y) == ParseInto(s, ParseInto(s, m, x).value, y)
  {
    ReadRecsExtends(x, y);
    ReadRecsValid(x, 0);
    if ReadRecs(y, 0).Got? {
      ReadRecsValid(y, 0);
      ApplyAllAppend(s, m, ReadRecs(x, 0).value, ReadRecs(y, 0).value);
    }
  }

  /** Two serializations back to back parse to the merge of the two messages. */
  lemma ConcatIsMerge(s: Schema, a: Msg, b: Msg, ordA: Order, ordB: Order)
    requires ValidSchema(s) && IsMsg(s, a) && IsMsg(s, b) && ValidOrder(ordA) && ValidOrder(ordB)
    requires |Serialize(s, a, ordA)| < TWO_TO_31 && |Serialize(s, b, ordB)| < TWO_TO_31
    ensures Parse(s, Serialize(s, a, ordA) + Serialize(s, b, ordB)) == Some(Merge(s, a, b))
  {
    ParseSerializeRoundTrip(s, a, ordA);
    ParseConcat(s, Default(s), Serialize(s, a, ordA), Serialize(s, b, ordB));
    ParseOfSerialize(s, a, b, ordB);
  }

  /** Applies one record and parses on. */
  function ApplyThenParse(s: Schema, m: Msg, r: Rec, rest: Bytes): Option<Msg>
    requires ValidSchema(s) && IsMsg(s, m) && ValidRec(r)
  {
    var next := Apply(s, m, r);
    if next.None? then None else ParseInto(s, next.value, rest)
  }

  lemma ReadOneValid(bs: Bytes)
    requires ReadOne(bs).Got?
    ensures ValidRec(ReadOne(bs).value)
  {
    var tag, rest := ReadTag(bs).value, ReadTag(bs).rest;
    ReadBodyValid(tag / 8, tag % 8, rest);
  }

  /** Parsing goes record by record: what the parse loop does is what `ParseInto` says. */
  lemma ParseStep(s: Schema, m: Msg, bs: Bytes)
    requires ValidSchema(s) && IsMsg(s, m) && |bs| != 0
    ensures ReadOne(bs).Fail? ==> ParseInto(s, m, bs) == None
    ensures ReadOne(bs).Got? ==> ValidRec(ReadOne(bs).value)
    ensures ReadOne(bs).Got? ==> ParseInto(s, m, bs) == ApplyThenParse(s, m, ReadOne(bs).value, ReadOne(bs).rest)
  {
    if ReadOne(bs).Got? {
      ReadOneValid(bs);
      var r, rest := ReadOne(bs).value, ReadOne(bs).rest;
      if ReadRecs(rest, 0).Got? {
        ReadRecsValid(rest, 0);
        assert ([r] + ReadRecs(rest, 0).value)[1..] == ReadRecs(rest, 0).value;
      }
    }
  }

  lemma ParseNothing(s: Schema, m: Msg)
    requires ValidSchema(s) && IsMsg(s, m)
    ensures ParseInto(s, m, []) == Some(m)
  {
  }
}
