/**
 Messages as plain values, described by a schema: what their fields are, what
 merging, serializing and parsing them means.  The message objects of the
 program are specified against these functions.
 */
module Message {
  import opened Wire

  // ---------------------------------------------------------------- schemas

  /** The type of a field.  A map is, as on the wire, a repeated entry message. */
  datatype Kind =
    | Str
    | Int32
    | Int64
    | Double
    | Sub(schema: Schema)
    | RepStr
    | RepSub(schema: Schema)
    | Map(entry: Schema)

  datatype Field = Field(num: nat, kind: Kind)

  /** Fields in the order of their numbers, which is the order they are serialized in. */
  datatype Schema = Schema(fields: seq<Field>)

  predicate ValidKind(k: Kind)
    decreases k, 1
  {
    match k
    case Sub(schema) => ValidSchema(schema)
    case RepSub(schema) => ValidSchema(schema)
    case Map(entry) => ValidSchema(entry) && EntryShape(entry)
    case _ => true
  }

  predicate ValidSchema(s: Schema)
    decreases s, 0
  {
    && (forall i :: 0 <= i < |s.fields| ==> 1 <= s.fields[i].num < TWO_TO_29 && ValidKind(s.fields[i].kind))
    && (forall i, j :: 0 <= i < j < |s.fields| ==> s.fields[i].num != s.fields[j].num)
  }

  /** The message a map entry travels as: key = 1, value = 2. */
  predicate ValidEntry(entry: Schema) {
    ValidSchema(entry) && EntryShape(entry)
  }

  predicate EntryShape(entry: Schema) {
    && |entry.fields| == 2
    && entry.fields[0] == Field(1, Str)
    && entry.fields[1].num == 2
    && (entry.fields[1].kind.Int32? || entry.fields[1].kind.Sub?)
  }

  function ValueKind(entry: Schema): (k: Kind)
    requires EntryShape(entry)
    ensures k.Int32? || k.Sub?
  {
    entry.fields[1].kind
  }

  function KindWireType(k: Kind): nat {
    match k
    case Int32 => WT_VARINT
    case Int64 => WT_VARINT
    case Double => WT_FIXED64
    case _ => WT_LEN
  }

  // ----------------------------------------------------------------- values

  /** A double is kept as its 64-bit pattern, a sub-message as present or absent. */
  datatype Val =
    | VStr(s: Bytes)
    | VInt(i: int)
    | VDouble(bits: nat)
    | VSub(m: Option<Msg>)
    | VStrs(ss: seq<Bytes>)
    | VSubs(ms: seq<Msg>)
    | VMap(entries: map<Bytes, Val>)

  datatype Msg = Msg(vals: seq<Val>, unknown: seq<Rec>)

  predicate IsVal(k: Kind, v: Val)
    decreases k, 0
  {
    match k
    case Str => v.VStr?
    case Int32 => v.VInt? && -TWO_TO_31 <= v.i < TWO_TO_31
    case Int64 => v.VInt? && -TWO_TO_63 <= v.i < TWO_TO_63
    case Double => v.VDouble? && v.bits < TWO_TO_64
    case Sub(schema) => v.VSub? && (v.m.Some? ==> IsMsg(schema, v.m.value))
    case RepStr => v.VStrs?
    case RepSub(schema) => v.VSubs? && forall j :: 0 <= j < |v.ms| ==> IsMsg(schema, v.ms[j])
    case Map(entry) =>
      v.VMap? && EntryShape(entry) && forall key :: key in v.entries ==> IsEntryValue(entry, v.entries[key])
  }

  /** A map holds a value under every key: a message value is never absent. */
  predicate IsEntryValue(entry: Schema, v: Val)
    requires EntryShape(entry)
    decreases entry, 1
  {
    IsVal(ValueKind(entry), v) && (ValueKind(entry).Sub? ==> v.m.Some?)
  }

  /** Unknown records are ones no field of the schema accepts. */
  predicate IsMsg(s: Schema, m: Msg)
    decreases s, 0
  {
    && |m.vals| == |s.fields|
    && (forall i :: 0 <= i < |s.fields| ==> IsVal(s.fields[i].kind, m.vals[i]))
    && ValidRecs(m.unknown)
    && AllUnknown(s, m.unknown)
  }

  predicate AllUnknown(s: Schema, rs: seq<Rec>) {
    forall i :: 0 <= i < |rs| ==> Slot(s, rs[i]) == None
  }

  function DefaultVal(k: Kind): (v: Val)
    ensures ValidKind(k) ==> IsVal(k, v)
  {
    match k
    case Str => VStr([])
    case Int32 => VInt(0)
    case Int64 => VInt(0)
    case Double => VDouble(0)
    case Sub(_) => VSub(None)
    case RepStr => VStrs([])
    case RepSub(_) => VSubs([])
    case Map(_) => VMap(map[])
  }

  function Default(s: Schema): (m: Msg)
    requires ValidSchema(s)
    ensures IsMsg(s, m)
  {
    assert forall i :: 0 <= i < |s.fields| ==> ValidKind(s.fields[i].kind);
    Msg(seq(|s.fields|, i requires 0 <= i < |s.fields| => DefaultVal(s.fields[i].kind)), [])
  }

  // ------------------------------------------------------------------ merge

  /** What merging the value `b` of a field into the value `a` leaves. */
  function MergeVal(k: Kind, a: Val, b: Val): (v: Val)
    requires IsVal(k, a) && IsVal(k, b)
    ensures IsVal(k, v)
    decreases k, 0
  {
    match k
    case Str => if b.s != [] then b else a
    case Int32 => if b.i != 0 then b else a
    case Int64 => if b.i != 0 then b else a
    case Double => if b.bits != 0 then b else a
    case Sub(schema) =>
      if b.m.None? then a
      else if a.m.None? then b
      else VSub(Some(Merge(schema, a.m.value, b.m.value)))
    case RepStr => VStrs(a.ss + b.ss)
    case RepSub(_) => VSubs(a.ms + b.ms)
    case Map(_) => VMap(a.entries + b.entries)
  }

  function Merge(s: Schema, a: Msg, b: Msg): (m: Msg)
    requires IsMsg(s, a) && IsMsg(s, b)
    ensures IsMsg(s, m)
    decreases s, 0
  {
    Msg(seq(|s.fields|, i requires 0 <= i < |s.fields| => MergeVal(s.fields[i].kind, a.vals[i], b.vals[i])),
        a.unknown + b.unknown)
  }

  // -------------------------------------------------------------- serialize

  /** The order in which the entries of a map are visited, given its keys. */
  type Order = set<Bytes> -> seq<Bytes>

  ghost predicate Enumerates(keys: seq<Bytes>, all: set<Bytes>) {
    && (forall i :: 0 <= i < |keys| ==> keys[i] in all)
    && (forall key :: key in all ==> key in keys)
    && (forall i, j :: 0 <= i < j < |keys| ==> keys[i] != keys[j])
  }

  ghost predicate ValidOrder(ord: Order) {
    forall all: set<Bytes> :: Enumerates(ord(all), all)
  }

  /** A signed integer on the wire: sign-extended to 64 bits. */
  function ToVarint(i: int): (v: nat)
    requires -TWO_TO_63 <= i < TWO_TO_63
    ensures v < TWO_TO_64
  {
    if i < 0 then TWO_TO_64 + i else i
  }

  function FromVarint64(v: nat): (i: int)
    requires v < TWO_TO_64
    ensures -TWO_TO_63 <= i < TWO_TO_63
  {
    if v < TWO_TO_63 then v else v - TWO_TO_64
  }

  /** An int32 field keeps the low 32 bits of whatever varint arrives. */
  function FromVarint32(v: nat): (i: int)
    ensures -TWO_TO_31 <= i < TWO_TO_31
  {
    var w := v % TWO_TO_32;
    if w < TWO_TO_31 then w else w - TWO_TO_32
  }

  /** The record for a singular value, written whether or not it is the default. */
  ghost function OneRec(num: nat, k: Kind, v: Val, ord: Order): Rec
    requires IsVal(k, v) && !k.RepStr? && !k.RepSub? && !k.Map?
    requires k.Sub? ==> v.m.Some?
    decreases k, 0, 0
  {
    match k
    case Str => Len(num, v.s)
    case Int32 => Varint(num, ToVarint(v.i))
    case Int64 => Varint(num, ToVarint(v.i))
    case Double => Fixed64(num, v.bits)
    case Sub(schema) => Len(num, Serialize(schema, v.m.value, ord))
  }

  /** The records for a field: none for a default, one per element of a repeated field or map. */
  ghost function FieldRecs(num: nat, k: Kind, v: Val, ord: Order): seq<Rec>
    requires IsVal(k, v)
    decreases k, 1, 0
  {
    match k
    case RepStr => StrRecs(num, v.ss)
    case RepSub(schema) => SubRecs(num, schema, v.ms, ord)
    case Map(entry) => EntryRecs(num, entry, v.entries, KeysInOrder(v.entries, ord), ord)
    case _ => if v == DefaultVal(k) then [] else [OneRec(num, k, v, ord)]
  }

  ghost function StrRecs(num: nat, ss: seq<Bytes>): seq<Rec> {
    if ss == [] then [] else [Len(num, ss[0])] + StrRecs(num, ss[1..])
  }

  ghost function SubRecs(num: nat, s: Schema, ms: seq<Msg>, ord: Order): seq<Rec>
    requires forall j :: 0 <= j < |ms| ==> IsMsg(s, ms[j])
    decreases s, 2, |ms|
  {
    if ms == [] then [] else [Len(num, Serialize(s, ms[0], ord))] + SubRecs(num, s, ms[1..], ord)
  }

  /** The keys of a map in the order `ord` gives, kept to keys the map has. */
  ghost function KeysInOrder(entries: map<Bytes, Val>, ord: Order): (keys: seq<Bytes>)
    ensures forall i :: 0 <= i < |keys| ==> keys[i] in entries
    ensures ValidOrder(ord) ==> keys == ord(entries.Keys)
  {
    if Enumerates(ord(entries.Keys), entries.Keys) then ord(entries.Keys) else []
  }

  ghost function EntryRecs(num: nat, entry: Schema, entries: map<Bytes, Val>, keys: seq<Bytes>, ord: Order): seq<Rec>
    requires IsVal(Map(entry), VMap(entries))
    requires forall i :: 0 <= i < |keys| ==> keys[i] in entries
    decreases entry, 2, |keys|
  {
    if keys == [] then []
    else [Len(num, EncodeRecs(EntryBody(entry, keys[0], entries[keys[0]], ord)))]
         + EntryRecs(num, entry, entries, keys[1..], ord)
  }

  /** An entry always carries both its key and its value. */
  ghost function EntryBody(entry: Schema, key: Bytes, v: Val, ord: Order): seq<Rec>
    requires EntryShape(entry) && IsEntryValue(entry, v)
    decreases entry, 1, 0
  {
    [Len(1, key), OneRec(2, ValueKind(entry), v, ord)]
  }

  /** The records of the first `n` fields. */
  ghost function RecsUpTo(s: Schema, m: Msg, ord: Order, n: nat): seq<Rec>
    requires IsMsg(s, m) && n <= |s.fields|
    decreases s, 0, n
  {
    if n == 0 then []
    else RecsUpTo(s, m, ord, n - 1) + FieldRecs(s.fields[n - 1].num, s.fields[n - 1].kind, m.vals[n - 1], ord)
  }

  ghost function Recs(s: Schema, m: Msg, ord: Order): seq<Rec>
    requires IsMsg(s, m)
    decreases s, 1, 0
  {
    RecsUpTo(s, m, ord, |s.fields|) + m.unknown
  }

  ghost function Serialize(s: Schema, m: Msg, ord: Order): Bytes
    requires IsMsg(s, m)
    decreases s, 1, 1
  {
    EncodeRecs(Recs(s, m, ord))
  }

  // ------------------------------------------------------------------ parse

  /** The field that accepts the record: right number and right wire type. */
  function Slot(s: Schema, r: Rec): (slot: Option<nat>)
    ensures slot.Some? ==> slot.value < |s.fields| && KindWireType(s.fields[slot.value].kind) == WireType(r)
    ensures slot.Some? ==> s.fields[slot.value].num == r.num
  {
    match FindField(s, r.num, 0)
    case None => None
    case Some(i) => if KindWireType(s.fields[i].kind) == WireType(r) then Some(i) else None
  }

  function FindField(s: Schema, num: nat, from: nat): (slot: Option<nat>)
    requires from <= |s.fields|
    ensures slot.Some? ==> from <= slot.value < |s.fields| && s.fields[slot.value].num == num
    ensures slot.None? ==> forall i :: from <= i < |s.fields| ==> s.fields[i].num != num
    decreases |s.fields| - from
  {
    if from == |s.fields| then None
    else if s.fields[from].num == num then Some(from)
    else FindField(s, num, from + 1)
  }

  /** What a record on the wire makes of the value its field has so far. */
  function ApplyVal(k: Kind, v: Val, r: Rec): (result: Option<Val>)
    requires ValidKind(k) && IsVal(k, v) && ValidRec(r) && WireType(r) == KindWireType(k)
    ensures result.Some? ==> IsVal(k, result.value)
    decreases k, 2, 0
  {
    match k
    case Str => Some(VStr(r.payload))
    case Int32 => Some(VInt(FromVarint32(r.v)))
    case Int64 => Some(VInt(FromVarint64(r.v)))
    case Double => Some(VDouble(r.bits))
    case Sub(schema) =>
      (match ParseInto(schema, if v.m.Some? then v.m.value else Default(schema), r.payload)
       case None => None
       case Some(m) => Some(VSub(Some(m))))
    case RepStr => Some(VStrs(v.ss + [r.payload]))
    case RepSub(schema) =>
      (match ParseInto(schema, Default(schema), r.payload)
       case None => None
       case Some(m) => Some(VSubs(v.ms + [m])))
    case Map(entry) =>
      (match ParseInto(entry, Default(entry), r.payload)
       case None => None
       case Some(e) =>
         assert IsVal(entry.fields[0].kind, e.vals[0]) && IsVal(entry.fields[1].kind, e.vals[1]);
         Some(VMap(v.entries[e.vals[0].s := PresentValue(entry, e.vals[1])])))
  }

  /** An entry without a value stands for the default value. */
  function PresentValue(entry: Schema, v: Val): (result: Val)
    requires ValidEntry(entry) && IsVal(ValueKind(entry), v)
    ensures IsEntryValue(entry, result)
  {
    assert ValidKind(entry.fields[1].kind);
    if v == VSub(None) then VSub(Some(Default(ValueKind(entry).schema))) else v
  }

  function Apply(s: Schema, m: Msg, r: Rec): (result: Option<Msg>)
    requires ValidSchema(s) && IsMsg(s, m) && ValidRec(r)
    ensures result.Some? ==> IsMsg(s, result.value)
    decreases s, 0, 0
  {
    match Slot(s, r)
    case None => Some(m.(unknown := m.unknown + [r]))
    case Some(i) =>
      match ApplyVal(s.fields[i].kind, m.vals[i], r)
      case None => None
      case Some(v) => Some(m.(vals := m.vals[i := v]))
  }

  function ApplyAll(s: Schema, m: Msg, rs: seq<Rec>): (result: Option<Msg>)
    requires ValidSchema(s) && IsMsg(s, m) && ValidRecs(rs)
    ensures result.Some? ==> IsMsg(s, result.value)
    decreases s, 1, |rs|
  {
    if rs == [] then Some(m)
    else
      match Apply(s, m, rs[0])
      case None => None
      case Some(m') => ApplyAll(s, m', rs[1..])
  }

  /** Parses the input on top of `m`, as a merge-from-string does. */
  function ParseInto(s: Schema, m: Msg, bs: Bytes): (result: Option<Msg>)
    requires ValidSchema(s) && IsMsg(s, m)
    ensures result.Some? ==> IsMsg(s, result.value)
    decreases s, 2, 0
  {
    match ReadRecs(bs, 0)
    case Fail => None
    case Got(rs, _) =>
      ReadRecsValid(bs, 0);
      ApplyAll(s, m, rs)
  }

  function Parse(s: Schema, bs: Bytes): Option<Msg>
    requires ValidSchema(s)
  {
    ParseInto(s, Default(s), bs)
  }
}
