/**
 The wire format in numbers: which byte stands where.  Readers and writers that
 agree with each other could still agree on another format; these are the bytes
 themselves.
 */
module WireBytes {
  import opened Wire
  import opened Message

  lemma Less(m: nat, q: nat, r: nat, q': nat, r': nat)
    requires r < m && q < q'
    ensures m * q + r < m * q' + r'
  {
    var d := q' - q - 1;
    assert m * q' == m * (q + 1 + d) == m * q + m + m * d;
  }

  lemma Quotient(m: nat, q: nat, r: nat)
    requires r < m
    ensures (m * q + r) / m == q
  {
    var x := m * q + r;
    var q', r' := x / m, x % m;
    assert x == m * q' + r';
    if q < q' {
      Less(m, q, r, q', r');
    } else if q' < q {
      Less(m, q', r', q, r);
    }
  }

  lemma Regroup(a: nat, b: nat, q: nat, r: nat, r': nat)
    requires r < a && r' < b
    ensures a * (b * q + r') + r == (a * b) * q + (a * r' + r) && a * r' + r < a * b
  {
    assert a * (b * q) == (a * b) * q;
    assert a * (b * q + r') == a * (b * q) + a * r';
    Less(a, r', r, b, 0);
  }

  lemma Divided(v: nat, a: nat) returns (q: nat, r: nat)
    requires a > 0
    ensures q == v / a && v == a * q + r && r < a
  {
    q, r := v / a, v % a;
  }

  lemma DivTwice(v: nat, a: nat, b: nat)
    requires a > 0 && b > 0
    ensures a * b > 0 && v / a / b == v / (a * b)
  {
    var q, r := Divided(v, a);
    var q', r' := Divided(q, b);
    Regroup(a, b, q', r, r');
    Quotient(a * b, q', a * r' + r);
  }

  // ----------------------------------------------------------- fixed widths

  /** The lowest byte comes first. */
  lemma {:induction false} FixedDigit(v: nat, width: nat, i: nat)
    requires i < width
    ensures EncodeFixed(v, width)[i] == v / Pow256(i) % 256
  {
    if i > 0 {
      FixedDigit(v / 256, width - 1, i - 1);
      DivTwice(v, 256, Pow256(i - 1));
    }
  }

  lemma {:induction false} FixedValue(bs: Bytes, i: nat)
    requires i < |bs|
    ensures DecodeFixed(bs) / Pow256(i) % 256 == bs[i]
  {
    var rest := DecodeFixed(bs[1..]);
    if i > 0 {
      FixedValue(bs[1..], i - 1);
      DivTwice(DecodeFixed(bs), 256, Pow256(i - 1));
    }
  }

  lemma FixedBytes(v: nat)
    ensures EncodeFixed(v, 2) == [v % 256, v / 256 % 256]
    ensures EncodeFixed(v, 4) == [v % 256, v / 256 % 256, v / 65536 % 256, v / 16777216 % 256]
  {
    hide EncodeFixed;
    assert Pow256(0) == 1 && Pow256(1) == 256 && Pow256(2) == 65536 && Pow256(3) == 16777216;
    FixedDigit(v, 2, 0);
    FixedDigit(v, 2, 1);
    FixedDigit(v, 4, 0);
    FixedDigit(v, 4, 1);
    FixedDigit(v, 4, 2);
    FixedDigit(v, 4, 3);
    var two, four := EncodeFixed(v, 2), EncodeFixed(v, 4);
    assert two == [two[0], two[1]] && four == [four[0], four[1], four[2], four[3]];
    assert v / 1 == v;
  }

  lemma FixedNumbers(a: Byte, b: Byte, c: Byte, d: Byte)
    ensures DecodeFixed([a, b]) == a + 256 * b
    ensures DecodeFixed([a, b, c, d]) == a + 256 * b + 65536 * c + 16777216 * d
  {
    assert [d][1..] == [] && DecodeFixed([d]) == d;
    assert [b][1..] == [] && DecodeFixed([b]) == b;
    assert [a, b][1..] == [b];
    assert [c, d][1..] == [d] && DecodeFixed([c, d]) == c + 256 * d;
    assert [b, c, d][1..] == [c, d];
    assert [a, b, c, d][1..] == [b, c, d];
  }

  // ----------------------------------------------------------------- varints

  /** Seven bits a byte, the lowest first; every byte but the last has its high bit set. */
  lemma {:induction false} VarintDigit(v: nat, i: nat)
    requires i < |EncodeVarint(v)|
    ensures EncodeVarint(v)[i] % 128 == v / Pow128(i) % 128
    ensures EncodeVarint(v)[i] >= 128 <==> i < |EncodeVarint(v)| - 1
  {
    if v >= 128 && i > 0 {
      VarintDigit(v / 128, i - 1);
      DivTwice(v, 128, Pow128(i - 1));
    }
  }

  /** The shortest form: no further byte that is zero. */
  lemma {:induction false} VarintShort(v: nat)
    ensures |EncodeVarint(v)| > 1 ==> EncodeVarint(v)[|EncodeVarint(v)| - 1] != 0
  {
    if v >= 128 { VarintShort(v / 128); }
  }

  function Digit(v: nat, i: nat): nat { v / Pow128(i) % 128 }

  lemma DigitOf(low: nat, v: nat, i: nat)
    requires low < 128
    ensures Digit(low + 128 * v, i) == if i == 0 then low else Digit(v, i - 1)
  {
    if i == 0 {
      assert Pow128(0) == 1;
    } else {
      Quotient(128, v, low);
      DivTwice(low + 128 * v, 128, Pow128(i - 1));
    }
  }

  lemma {:induction false} VarintDigits(bs: Bytes, most: nat, n: nat)
    requires n < |bs| && n < most && bs[n] < 128 && forall i :: 0 <= i < n ==> bs[i] >= 128
    ensures ReadVarint(bs, most).Got? && ReadVarint(bs, most).rest == bs[n + 1..]
    ensures ReadVarint(bs, most).value < Pow128(n + 1)
    ensures forall i :: 0 <= i <= n ==> Digit(ReadVarint(bs, most).value, i) == bs[i] % 128
  {
    hide Digit;
    DigitWeights(n);
    if n == 0 {
      DigitOf(bs[0], 0, 0);
    } else {
      VarintDigits(bs[1..], most - 1, n - 1);
      var v := ReadVarint(bs[1..], most - 1).value;
      assert bs[1..][n..] == bs[n + 1..];
      forall i | 0 <= i <= n ensures Digit(ReadVarint(bs, most).value, i) == bs[i] % 128 {
        DigitOf(bs[0] - 128, v, i);
        if i > 0 { assert bs[1..][i - 1] == bs[i]; }
      }
    }
  }

  /**
   What is read as a varint, shortest form or not: the bytes up to the first
   without the high bit, if there is one among the first `most`.
   */
  lemma VarintReads(bs: Bytes, most: nat, n: nat)
    requires n < |bs| && n < most && bs[n] < 128 && forall i :: 0 <= i < n ==> bs[i] >= 128
    ensures ReadVarint(bs, most).Got? && ReadVarint(bs, most).rest == bs[n + 1..]
    ensures ReadVarint(bs, most).value < Pow128(n + 1)
    ensures forall i :: 0 <= i <= n ==> ReadVarint(bs, most).value / Pow128(i) % 128 == bs[i] % 128
  {
    VarintDigits(bs, most, n);
    forall i | 0 <= i <= n ensures ReadVarint(bs, most).value / Pow128(i) % 128 == bs[i] % 128 {
      assert Digit(ReadVarint(bs, most).value, i) == bs[i] % 128;
    }
  }

  lemma {:induction false} VarintRefused(bs: Bytes, most: nat)
    requires forall i :: 0 <= i < |bs| && i < most ==> bs[i] >= 128
    ensures ReadVarint(bs, most).Fail?
  {
    if most > 0 && |bs| > 0 {
      assert forall i :: 0 <= i < |bs[1..]| ==> bs[1..][i] == bs[i + 1];
      VarintRefused(bs[1..], most - 1);
    }
  }

  lemma DigitWeights(i: nat)
    ensures Pow128(0) == 1 && Pow128(i + 1) == 128 * Pow128(i)
    ensures Pow256(0) == 1 && Pow256(i + 1) == 256 * Pow256(i)
  {
  }

  // ---------------------------------------------------------------- integers

  /** Two's complement in 64 bits, for 32-bit fields too; no zigzag. */
  lemma IntegerWritten(i: int)
    requires -TWO_TO_63 <= i < TWO_TO_63
    ensures 0 <= ToVarint(i) < 18446744073709551616 && (ToVarint(i) - i) % 18446744073709551616 == 0
  {
  }

  /** Of any varint an int64 takes 64 bits and an int32 the low 32, as signed numbers. */
  lemma IntegerRead(v: nat)
    ensures v < TWO_TO_64 ==> -9223372036854775808 <= FromVarint64(v) < 9223372036854775808
    ensures v < TWO_TO_64 ==> (FromVarint64(v) - v) % 18446744073709551616 == 0
    ensures -2147483648 <= FromVarint32(v) < 2147483648 && (FromVarint32(v) - v) % 4294967296 == 0
  {
  }

  // ----------------------------------------------------------------- records

  /** Each kind of record, from the first byte of its tag to its last. */
  lemma RecordBytes(num: nat, v: nat, payload: Bytes, body: seq<Rec>)
    ensures EncodeRec(Varint(num, v)) == EncodeVarint(8 * num) + EncodeVarint(v)
    ensures EncodeRec(Fixed64(num, v)) == EncodeVarint(8 * num + 1) + EncodeFixed(v, 8)
    ensures EncodeRec(Len(num, payload)) == EncodeVarint(8 * num + 2) + EncodeVarint(|payload|) + payload
    ensures EncodeRec(Group(num, body)) == EncodeVarint(8 * num + 3) + EncodeRecs(body) + EncodeVarint(8 * num + 4)
    ensures EncodeRec(Fixed32(num, v)) == EncodeVarint(8 * num + 5) + EncodeFixed(v, 4)
  {
  }

  /** One after the other. */
  lemma {:induction false} RecordsBytes(a: seq<Rec>, r: Rec)
    ensures EncodeRecs(a + [r]) == EncodeRecs(a) + EncodeRec(r)
  {
    EncodeRecsAppend(a, [r]);
    assert [r][1..] == [] && EncodeRec(r) + [] == EncodeRec(r);
  }

  /** A tag takes five bytes at most, of which 32 bits count; a length is below 2 GiB. */
  lemma TagsRead(bs: Bytes)
    ensures ReadTag(bs).Fail? <==> ReadVarint(bs, 5).Fail?
    ensures ReadTag(bs).Got? ==> ReadTag(bs).rest == ReadVarint(bs, 5).rest && ReadTag(bs).value == ReadVarint(bs, 5).value % 4294967296
    ensures ReadLen(bs).Got? <==>
      ReadVarint(bs, 5).Got? && ReadVarint(bs, 5).value < 2147483648 && ReadVarint(bs, 5).value <= |ReadVarint(bs, 5).rest|
    ensures ReadLen(bs).Got? ==> ReadLen(bs).value + ReadLen(bs).rest == ReadVarint(bs, 5).rest
    ensures ReadLen(bs).Got? ==> |ReadLen(bs).value| == ReadVarint(bs, 5).value
  {
  }

  /**
   What the low three bits of a tag say of the bytes behind it: 0 a varint of ten
   bytes at most, 1 eight bytes, 2 a length and so many bytes, 3 records up to the
   end tag with the same number, 5 four bytes; 4, 6, 7 and the number 0 are refused.
   */
  lemma RecordsRead(bs: Bytes)
    requires ReadTag(bs).Got?
    ensures var num, kind, rest := ReadTag(bs).value / 8, ReadTag(bs).value % 8, ReadTag(bs).rest;
      && (num == 0 || kind == 4 || kind >= 6 ==> ReadOne(bs).Fail?)
      && (num > 0 && kind == 0 ==> ReadOne(bs) == match ReadVarint(rest, 10)
                                                  case Fail => Fail
                                                  case Got(v, tail) => Got(Varint(num, v % 18446744073709551616), tail))
      && (num > 0 && kind == 1 ==> ReadOne(bs) == if |rest| < 8 then Fail else Got(Fixed64(num, DecodeFixed(rest[..8])), rest[8..]))
      && (num > 0 && kind == 2 ==> ReadOne(bs) == match ReadLen(rest)
                                                  case Fail => Fail
                                                  case Got(payload, tail) => Got(Len(num, payload), tail))
      && (num > 0 && kind == 3 ==> ReadOne(bs) == match ReadRecs(rest, num)
                                                  case Fail => Fail
                                                  case Got(body, tail) => Got(Group(num, body), tail))
      && (num > 0 && kind == 5 ==> ReadOne(bs) == if |rest| < 4 then Fail else Got(Fixed32(num, DecodeFixed(rest[..4])), rest[4..]))
  {
  }

  /** An end tag closes the group of its number and is refused anywhere else; input may not end inside a group. */
  lemma GroupsRead(bs: Bytes, group: nat)
    requires ReadTag(bs).Got? && ReadTag(bs).value / 8 > 0 && ReadTag(bs).value % 8 == 4
    ensures ReadRecs(bs, group) == if ReadTag(bs).value / 8 == group then Got([], ReadTag(bs).rest) else Fail
    ensures ReadRecs([], group) == if group == 0 then Got([], []) else Fail
  {
  }

  /** Any other record is followed by the rest. */
  lemma RecordsFollow(bs: Bytes, group: nat)
    requires ReadOne(bs).Got?
    ensures ReadRecs(bs, group) == match ReadRecs(ReadOne(bs).rest, group)
                                   case Fail => Fail
                                   case Got(rs, tail) => Got([ReadOne(bs).value] + rs, tail)
  {
  }
}
