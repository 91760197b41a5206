/**
 The protocol-buffer wire format: base-128 varints, little-endian fixed-width
 integers and the tag/value records a message is a concatenation of.  Records
 are decoded without a schema; `message.dfy` gives them a meaning.
 */
module Wire {
  type Byte = b: int | 0 <= b < 256
  type Bytes = seq<Byte>

  const TWO_TO_29: int := 0x2000_0000
  const TWO_TO_31: int := 0x8000_0000
  const TWO_TO_32: int := 0x1_0000_0000
  const TWO_TO_63: int := 0x8000_0000_0000_0000
  const TWO_TO_64: int := 0x1_0000_0000_0000_0000

  datatype Option<+T> = None | Some(value: T)

  /** What a reader made of the front of its input, and the input it left over. */
  datatype Read<+T> = Fail | Got(value: T, rest: Bytes)

  // ---------------------------------------------------------------- varints

  function EncodeVarint(v: nat): (bs: Bytes)
    ensures |bs| == VarintSize(v)
  {
    if v < 128 then [v] else [v % 128 + 128] + EncodeVarint(v / 128)
  }

  function VarintSize(v: nat): (n: nat)
    ensures n >= 1
  {
    if v < 128 then 1 else 1 + VarintSize(v / 128)
  }

  /** Reads a varint of at most `most` bytes.  Over-long encodings are accepted. */
  function ReadVarint(bs: Bytes, most: nat): (r: Read<nat>)
    ensures r.Got? ==> |r.rest| < |bs|
  {
    if most == 0 || bs == [] then Fail
    else if bs[0] < 128 then Got(bs[0], bs[1..])
    else
      match ReadVarint(bs[1..], most - 1)
      case Fail => Fail
      case Got(v, rest) => Got(bs[0] - 128 + 128 * v, rest)
  }

  lemma {:induction false} ReadVarintOfEncode(v: nat, most: nat, rest: Bytes)
    requires VarintSize(v) <= most
    ensures ReadVarint(EncodeVarint(v) + rest, most) == Got(v, rest)
  {
    var bs := EncodeVarint(v) + rest;
    if v < 128 {
      assert bs[1..] == rest;
    } else {
      assert bs[1..] == EncodeVarint(v / 128) + rest;
      ReadVarintOfEncode(v / 128, most - 1, rest);
    }
  }

  lemma {:induction false} ReadVarintExtends(x: Bytes, most: nat, y: Bytes)
    requires ReadVarint(x, most).Got?
    ensures ReadVarint(x + y, most) == Got(ReadVarint(x, most).value, ReadVarint(x, most).rest + y)
  {
    assert (x + y)[1..] == x[1..] + y;
    if x[0] >= 128 {
      ReadVarintExtends(x[1..], most - 1, y);
    }
  }

  /** Varints can be told apart whatever follows them. */
  lemma VarintPrefix(v: nat, v': nat, x: Bytes, y: Bytes)
    requires EncodeVarint(v) + x == EncodeVarint(v') + y
    ensures v == v' && x == y
  {
    var most := VarintSize(v) + VarintSize(v');
    ReadVarintOfEncode(v, most, x);
    ReadVarintOfEncode(v', most, y);
  }

  function Pow128(n: nat): (p: nat)
    ensures p > 0
  {
    if n == 0 then 1 else 128 * Pow128(n - 1)
  }

  lemma {:induction false} VarintSizeBound(v: nat, n: nat)
    requires n >= 1 && v < Pow128(n)
    ensures VarintSize(v) <= n
  {
    if v >= 128 {
      assert Pow128(1) == 128 * Pow128(0);
      VarintSizeBound(v / 128, n - 1);
    }
  }

  lemma VarintFits(v: nat)
    ensures v < TWO_TO_32 ==> VarintSize(v) <= 5
    ensures v < TWO_TO_64 ==> VarintSize(v) <= 10
  {
    assert Pow128(5) == 0x8_0000_0000;
    assert Pow128(10) == Pow128(5) * 0x8_0000_0000 by {
      assert Pow128(10) == 128 * (128 * (128 * (128 * (128 * Pow128(5)))));
    }
    if v < TWO_TO_32 { VarintSizeBound(v, 5); }
    if v < TWO_TO_64 { VarintSizeBound(v, 10); }
  }

  // ---------------------------------------------- little-endian fixed width

  function Pow256(n: nat): (p: nat)
    ensures p > 0
  {
    if n == 0 then 1 else 256 * Pow256(n - 1)
  }

  function EncodeFixed(v: nat, width: nat): (bs: Bytes)
    ensures |bs| == width
  {
    if width == 0 then [] else [v % 256] + EncodeFixed(v / 256, width - 1)
  }

  function DecodeFixed(bs: Bytes): nat {
    if bs == [] then 0 else bs[0] + 256 * DecodeFixed(bs[1..])
  }

  lemma {:induction false} DecodeFixedOfEncode(v: nat, width: nat)
    requires v < Pow256(width)
    ensures DecodeFixed(EncodeFixed(v, width)) == v
  {
    if width > 0 {
      var bs := EncodeFixed(v, width);
      assert bs[1..] == EncodeFixed(v / 256, width - 1);
      DecodeFixedOfEncode(v / 256, width - 1);
    }
  }

  lemma {:induction false} DecodeFixedBound(bs: Bytes)
    ensures DecodeFixed(bs) < Pow256(|bs|)
  {
    if bs != [] {
      DecodeFixedBound(bs[1..]);
    }
  }

  lemma Pow256Values()
    ensures Pow256(1) == 256
    ensures Pow256(2) == 0x1_0000
    ensures Pow256(4) == TWO_TO_32
    ensures Pow256(8) == TWO_TO_64
  {
    assert Pow256(4) == 256 * (256 * Pow256(2));
    assert Pow256(8) == 256 * (256 * (256 * (256 * Pow256(4))));
  }

  // ---------------------------------------------------------------- records

  /** One field of a message on the wire, or a whole group. */
  datatype Rec =
    | Varint(num: nat, v: nat)
    | Fixed64(num: nat, bits: nat)
    | Len(num: nat, payload: Bytes)
    | Group(num: nat, body: seq<Rec>)
    | Fixed32(num: nat, word: nat)

  const WT_VARINT := 0
  const WT_FIXED64 := 1
  const WT_LEN := 2
  const WT_START_GROUP := 3
  const WT_END_GROUP := 4
  const WT_FIXED32 := 5

  function WireType(r: Rec): nat {
    match r
    case Varint(_, _) => WT_VARINT
    case Fixed64(_, _) => WT_FIXED64
    case Len(_, _) => WT_LEN
    case Group(_, _) => WT_START_GROUP
    case Fixed32(_, _) => WT_FIXED32
  }

  predicate ValidRec(r: Rec)
    decreases r
  {
    && 1 <= r.num < TWO_TO_29
    && match r
       case Varint(_, v) => v < TWO_TO_64
       case Fixed64(_, bits) => bits < TWO_TO_64
       case Len(_, payload) => |payload| < TWO_TO_31
       case Group(_, body) => ValidRecs(body)
       case Fixed32(_, word) => word < TWO_TO_32
  }

  predicate ValidRecs(rs: seq<Rec>)
    decreases rs
  {
    forall i :: 0 <= i < |rs| ==> ValidRec(rs[i])
  }

  function EncodeTag(num: nat, wireType: nat): Bytes {
    EncodeVarint(num * 8 + wireType)
  }

  function EncodeBody(r: Rec): Bytes
    decreases r, 0
  {
    match r
    case Varint(_, v) => EncodeVarint(v)
    case Fixed64(_, bits) => EncodeFixed(bits, 8)
    case Len(_, payload) => EncodeVarint(|payload|) + payload
    case Group(num, body) => EncodeRecs(body) + EncodeTag(num, WT_END_GROUP)
    case Fixed32(_, word) => EncodeFixed(word, 4)
  }

  function EncodeRec(r: Rec): Bytes
    decreases r, 1
  {
    EncodeTag(r.num, WireType(r)) + EncodeBody(r)
  }

  function EncodeRecs(rs: seq<Rec>): Bytes
    decreases rs
  {
    if rs == [] then [] else EncodeRec(rs[0]) + EncodeRecs(rs[1..])
  }

  function ReadTag(bs: Bytes): (r: Read<nat>)
    ensures r.Got? ==> |r.rest| < |bs| && r.value < TWO_TO_32
  {
    match ReadVarint(bs, 5)
    case Fail => Fail
    case Got(v, rest) => Got(v % TWO_TO_32, rest)
  }

  function ReadFixed(bs: Bytes, width: nat): (r: Read<nat>)
    ensures r.Got? ==> |r.rest| <= |bs|
  {
    if |bs| < width then Fail else Got(DecodeFixed(bs[..width]), bs[width..])
  }

  function ReadLen(bs: Bytes): (r: Read<Bytes>)
    ensures r.Got? ==> |r.rest| <= |bs|
  {
    match ReadVarint(bs, 5)
    case Fail => Fail
    case Got(n, rest) =>
      if n < TWO_TO_31 && n <= |rest| then Got(rest[..n], rest[n..]) else Fail
  }

  /** The value part of a record whose tag has been read. */
  function ReadBody(num: nat, wireType: nat, bs: Bytes): (r: Read<Rec>)
    ensures r.Got? ==> |r.rest| <= |bs|
    decreases |bs|, 1
  {
    if wireType == WT_VARINT then
      match ReadVarint(bs, 10)
      case Fail => Fail
      case Got(v, rest) => Got(Varint(num, v % TWO_TO_64), rest)
    else if wireType == WT_FIXED64 then
      match ReadFixed(bs, 8)
      case Fail => Fail
      case Got(v, rest) => Got(Fixed64(num, v), rest)
    else if wireType == WT_LEN then
      match ReadLen(bs)
      case Fail => Fail
      case Got(payload, rest) => Got(Len(num, payload), rest)
    else if wireType == WT_START_GROUP then
      match ReadRecs(bs, num)
      case Fail => Fail
      case Got(body, rest) => Got(Group(num, body), rest)
    else if wireType == WT_FIXED32 then
      match ReadFixed(bs, 4)
      case Fail => Fail
      case Got(v, rest) => Got(Fixed32(num, v), rest)
    else Fail
  }

  /**
   Reads records up to the end of the input (`group == 0`), or up to the end tag
   of the group `group`.  Field number 0, the two unused wire types and an end
   tag that closes no open group are refused.
   */
  function ReadRecs(bs: Bytes, group: nat): (r: Read<seq<Rec>>)
    ensures r.Got? ==> |r.rest| <= |bs|
    ensures r.Got? && group == 0 ==> r.rest == []
    decreases |bs|, 0
  {
    if bs == [] then (if group == 0 then Got([], []) else Fail)
    else
      match ReadTag(bs)
      case Fail => Fail
      case Got(tag, rest) =>
        var num, wireType := tag / 8, tag % 8;
        if num == 0 then Fail
        else if wireType == WT_END_GROUP then (if num == group then Got([], rest) else Fail)
        else
          match ReadBody(num, wireType, rest)
          case Fail => Fail
          case Got(r, rest') => Prepend([r], ReadRecs(rest', group))
  }

  /** Reads the next record of a message, outside any group. */
  function ReadOne(bs: Bytes): (r: Read<Rec>)
    ensures r.Got? ==> |r.rest| < |bs|
  {
    match ReadTag(bs)
    case Fail => Fail
    case Got(tag, rest) =>
      if tag / 8 == 0 || tag % 8 == WT_END_GROUP then Fail else ReadBody(tag / 8, tag % 8, rest)
  }

  function Prepend(rs: seq<Rec>, r: Read<seq<Rec>>): Read<seq<Rec>> {
    match r
    case Fail => Fail
    case Got(ts, rest) => Got(rs + ts, rest)
  }

  lemma PrependTwice(r: Rec, rs: seq<Rec>, read: Read<seq<Rec>>)
    ensures Prepend([r], Prepend(rs, read)) == Prepend([r] + rs, read)
  {
    assert read.Got? ==> [r] + (rs + read.value) == [r] + rs + read.value;
  }

  // ------------------------------------------------- records: round trips

  lemma {:induction false} EncodeRecsAppend(a: seq<Rec>, b: seq<Rec>)
    ensures EncodeRecs(a + b) == EncodeRecs(a) + EncodeRecs(b)
  {
    if a == [] {
      assert a + b == b;
    } else {
      assert (a + b)[0] == a[0] && (a + b)[1..] == a[1..] + b;
      EncodeRecsAppend(a[1..], b);
    }
  }

  lemma EncodeOne(r: Rec)
    ensures EncodeRecs([r]) == EncodeRec(r)
  {
    assert EncodeRecs([r][1..]) == [];
  }

  lemma ReadTagOfEncode(num: nat, wireType: nat, rest: Bytes)
    requires num < TWO_TO_29 && wireType < 8
    ensures ReadTag(EncodeTag(num, wireType) + rest) == Got(num * 8 + wireType, rest)
  {
    VarintFits(num * 8 + wireType);
    ReadVarintOfEncode(num * 8 + wireType, 5, rest);
  }

  lemma ReadFixedOfEncode(v: nat, width: nat, rest: Bytes)
    requires v < Pow256(width)
    ensures ReadFixed(EncodeFixed(v, width) + rest, width) == Got(v, rest)
  {
    var bs := EncodeFixed(v, width) + rest;
    assert bs[..width] == EncodeFixed(v, width) && bs[width..] == rest;
    DecodeFixedOfEncode(v, width);
  }

  lemma ReadLenOfEncode(payload: Bytes, rest: Bytes)
    requires |payload| < TWO_TO_31
    ensures ReadLen(EncodeVarint(|payload|) + payload + rest) == Got(payload, rest)
  {
    var n := |payload|;
    VarintFits(n);
    ReadVarintOfEncode(n, 5, payload + rest);
    assert EncodeVarint(n) + payload + rest == EncodeVarint(n) + (payload + rest);
    assert (payload + rest)[..n] == payload && (payload + rest)[n..] == rest;
  }

  lemma ReadNumberOfEncode(num: nat, v: nat, rest: Bytes)
    ensures v < TWO_TO_64 ==> ReadBody(num, WT_VARINT, EncodeVarint(v) + rest) == Got(Varint(num, v), rest)
    ensures v < TWO_TO_64 ==> ReadBody(num, WT_FIXED64, EncodeFixed(v, 8) + rest) == Got(Fixed64(num, v), rest)
    ensures v < TWO_TO_32 ==> ReadBody(num, WT_FIXED32, EncodeFixed(v, 4) + rest) == Got(Fixed32(num, v), rest)
  {
    hide EncodeVarint, EncodeFixed, ReadVarint, ReadFixed, VarintSize;
    Pow256Values();
    if v < TWO_TO_64 {
      VarintFits(v);
      ReadVarintOfEncode(v, 10, rest);
      ReadFixedOfEncode(v, 8, rest);
    }
    if v < TWO_TO_32 {
      ReadFixedOfEncode(v, 4, rest);
    }
  }

  lemma {:induction false} ReadBodyOfEncode(r: Rec, rest: Bytes)
    requires ValidRec(r)
    ensures ReadBody(r.num, WireType(r), EncodeBody(r) + rest) == Got(r, rest)
    decreases r, 0
  {
    match r
    case Varint(num, v) => ReadNumberOfEncode(num, v, rest);
    case Fixed64(num, bits) => ReadNumberOfEncode(num, bits, rest);
    case Len(_, payload) => ReadLenOfEncode(payload, rest);
    case Group(num, body) => ReadGroupOfEncode(num, body, rest);
    case Fixed32(num, word) => ReadNumberOfEncode(num, word, rest);
  }

  lemma {:induction false} ReadGroupOfEncode(num: nat, body: seq<Rec>, rest: Bytes)
    requires 1 <= num < TWO_TO_29 && ValidRecs(body)
    ensures ReadBody(num, WT_START_GROUP, EncodeRecs(body) + EncodeTag(num, WT_END_GROUP) + rest)
         == Got(Group(num, body), rest)
    decreases body, 1
  {
    var end := EncodeTag(num, WT_END_GROUP) + rest;
    assert EncodeRecs(body) + EncodeTag(num, WT_END_GROUP) + rest == EncodeRecs(body) + end;
    ReadRecsOfEncode(body, end, num);
    ReadTagOfEncode(num, WT_END_GROUP, rest);
    assert (num * 8 + WT_END_GROUP) / 8 == num && (num * 8 + WT_END_GROUP) % 8 == WT_END_GROUP;
    assert body + [] == body;
  }

  lemma {:induction false} ReadOneOfEncode(r: Rec, rest: Bytes, group: nat)
    requires ValidRec(r)
    ensures ReadRecs(EncodeRec(r) + rest, group) == Prepend([r], ReadRecs(rest, group))
    decreases r, 1
  {
    var num, wireType, body := r.num, WireType(r), EncodeBody(r) + rest;
    assert EncodeRec(r) + rest == EncodeTag(num, wireType) + body;
    ReadTagOfEncode(num, wireType, body);
    ReadBodyOfEncode(r, rest);
    ReadRecsStep(EncodeTag(num, wireType) + body, num, wireType, body, r, rest, group);
  }

  lemma ReadRecsStep(bs: Bytes, num: nat, wireType: nat, body: Bytes, r: Rec, rest: Bytes, group: nat)
    requires 1 <= num && wireType < 8 && wireType != WT_END_GROUP
    requires ReadTag(bs) == Got(num * 8 + wireType, body)
    requires ReadBody(num, wireType, body) == Got(r, rest)
    ensures ReadRecs(bs, group) == Prepend([r], ReadRecs(rest, group))
  {
    var tag := num * 8 + wireType;
    assert tag / 8 == num && tag % 8 == wireType;
  }

  /** Encoded records in front of any input are read back, and the input after them as it would be alone. */
  lemma {:induction false} ReadRecsOfEncode(rs: seq<Rec>, tail: Bytes, group: nat)
    requires ValidRecs(rs)
    ensures ReadRecs(EncodeRecs(rs) + tail, group) == Prepend(rs, ReadRecs(tail, group))
    decreases rs, 0
  {
    if rs == [] {
      assert EncodeRecs(rs) + tail == tail;
      assert forall ts: seq<Rec> :: rs + ts == ts;
    } else {
      var rest := EncodeRecs(rs[1..]) + tail;
      assert EncodeRecs(rs) + tail == EncodeRec(rs[0]) + rest;
      ReadOneOfEncode(rs[0], rest, group);
      ReadRecsOfEncode(rs[1..], tail, group);
      PrependTwice(rs[0], rs[1..], ReadRecs(tail, group));
      assert [rs[0]] + rs[1..] == rs;
    }
  }

  lemma {:induction false} ReadRecsValid(bs: Bytes, group: nat)
    requires ReadRecs(bs, group).Got?
    ensures ValidRecs(ReadRecs(bs, group).value)
    decreases |bs|, 0
  {
    if bs != [] {
      var tag, rest := ReadTag(bs).value, ReadTag(bs).rest;
      var num, wireType := tag / 8, tag % 8;
      if wireType != WT_END_GROUP {
        ReadBodyValid(num, wireType, rest);
        ReadRecsValid(ReadBody(num, wireType, rest).rest, group);
      }
    }
  }

  lemma {:induction false} ReadBodyValid(num: nat, wireType: nat, bs: Bytes)
    requires 1 <= num < TWO_TO_29
    requires ReadBody(num, wireType, bs).Got?
    ensures ValidRec(ReadBody(num, wireType, bs).value)
    ensures ReadBody(num, wireType, bs).value.num == num
    decreases |bs|, 1
  {
    Pow256Values();
    if wireType == WT_FIXED64 {
      DecodeFixedBound(bs[..8]);
    } else if wireType == WT_START_GROUP {
      ReadRecsValid(bs, num);
    } else if wireType == WT_FIXED32 {
      DecodeFixedBound(bs[..4]);
    }
  }

  /** Reading an accepted input with more input behind it reads the same records first. */
  lemma {:induction false} ReadRecsExtends(x: Bytes, y: Bytes)
    requires ReadRecs(x, 0).Got?
    ensures ReadRecs(x + y, 0) == Prepend(ReadRecs(x, 0).value, ReadRecs(y, 0))
    decreases |x|
  {
    if x == [] {
      assert x + y == y;
      assert forall ts: seq<Rec> :: [] + ts == ts;
    } else {
      ReadVarintExtends(x, 5, y);
      var tag, rest := ReadTag(x).value, ReadTag(x).rest;
      ReadBodyExtends(tag / 8, tag % 8, rest, y);
      var r, rest' := ReadBody(tag / 8, tag % 8, rest).value, ReadBody(tag / 8, tag % 8, rest).rest;
      ReadRecsExtends(rest', y);
      assert forall ts: seq<Rec> :: [r] + (ReadRecs(rest', 0).value + ts) == ([r] + ReadRecs(rest', 0).value) + ts;
    }
  }

  lemma {:induction false} ReadGroupExtends(x: Bytes, group: nat, y: Bytes)
    requires group != 0 && ReadRecs(x, group).Got?
    ensures ReadRecs(x + y, group) == Got(ReadRecs(x, group).value, ReadRecs(x, group).rest + y)
    decreases |x|, 0
  {
    ReadVarintExtends(x, 5, y);
    var tag, rest := ReadTag(x).value, ReadTag(x).rest;
    if tag % 8 != WT_END_GROUP {
      ReadBodyExtends(tag / 8, tag % 8, rest, y);
      ReadGroupExtends(ReadBody(tag / 8, tag % 8, rest).rest, group, y);
    }
  }

  lemma {:induction false} ReadBodyExtends(num: nat, wireType: nat, x: Bytes, y: Bytes)
    requires num != 0 && ReadBody(num, wireType, x).Got?
    ensures ReadBody(num, wireType, x + y)
         == Got(ReadBody(num, wireType, x).value, ReadBody(num, wireType, x).rest + y)
    decreases |x|, 1
  {
    if wireType == WT_VARINT {
      ReadVarintExtends(x, 10, y);
    } else if wireType == WT_LEN {
      ReadVarintExtends(x, 5, y);
      var n, rest := ReadVarint(x, 5).value, ReadVarint(x, 5).rest;
      assert (rest + y)[..n] == rest[..n] && (rest + y)[n..] == rest[n..] + y;
    } else if wireType == WT_START_GROUP {
      ReadGroupExtends(x, num, y);
    } else {
      var n := if wireType == WT_FIXED64 then 8 else 4;
      assert (x + y)[..n] == x[..n] && (x + y)[n..] == x[n..] + y;
    }
  }

  /** Appending piece by piece appends the whole. */
  lemma Assoc<T>(a: seq<T>, b: seq<T>, c: seq<T>)
    ensures a + b + c == a + (b + c)
  {
  }

  lemma Joined<T>(target: seq<T>, a: seq<T>, b: seq<T>, c: seq<T>, d: seq<T>)
    ensures target + a + b + c + d == target + (a + b + c + d)
    ensures target + a + b + c + d == target + (a + (b + (c + d)))
  {
    Assoc(target, a, b);
    Assoc(target, a + b, c);
    Assoc(target, a + b + c, d);
    Assoc(a + b, c, d);
    Assoc(a, b, c + d);
  }

  // ------------------------------------------------------------------ sizes

  /** The encoded size of a record, computed without encoding it. */
  function RecSize(r: Rec): nat
    decreases r, 0
  {
    VarintSize(r.num * 8 + WireType(r)) +
    match r
    case Varint(_, v) => VarintSize(v)
    case Fixed64(_, _) => 8
    case Len(_, payload) => VarintSize(|payload|) + |payload|
    case Group(num, body) => RecsSize(body) + VarintSize(num * 8 + WT_END_GROUP)
    case Fixed32(_, _) => 4
  }

  function RecsSize(rs: seq<Rec>): nat
    decreases rs
  {
    if rs == [] then 0 else RecSize(rs[0]) + RecsSize(rs[1..])
  }

  lemma {:induction false} RecSizeIsLength(r: Rec)
    ensures RecSize(r) == |EncodeRec(r)|
    decreases r, 0
  {
    if r.Group? { RecsSizeIsLength(r.body); }
  }

  lemma {:induction false} RecsSizeIsLength(rs: seq<Rec>)
    ensures RecsSize(rs) == |EncodeRecs(rs)|
    decreases rs
  {
    if rs != [] {
      RecSizeIsLength(rs[0]);
      RecsSizeIsLength(rs[1..]);
    }
  }
}
