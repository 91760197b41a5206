/**
 The order map entries are written in: whatever order the map is walked in, or,
 in deterministic mode, the order of the keys as byte strings.
 */
module MapOrder {
  import opened Wire
  import opened Message

  /** Byte-string order, a proper prefix first. */
  predicate KeyLess(a: Bytes, b: Bytes) {
    if |b| == 0 then false
    else if |a| == 0 then true
    else if a[0] != b[0] then a[0] < b[0]
    else KeyLess(a[1..], b[1..])
  }

  lemma {:induction false} KeyLessTotal(a: Bytes, b: Bytes)
    ensures a == b || KeyLess(a, b) || KeyLess(b, a)
  {
    if |a| != 0 && |b| != 0 && a[0] == b[0] {
      KeyLessTotal(a[1..], b[1..]);
      if a[1..] == b[1..] {
        assert a == [a[0]] + a[1..] && b == [b[0]] + b[1..];
      }
    }
  }

  lemma {:induction false} KeyLessTransitive(a: Bytes, b: Bytes, c: Bytes)
    requires KeyLess(a, b) && KeyLess(b, c)
    ensures KeyLess(a, c)
  {
    if |a| != 0 && a[0] == b[0] == c[0] {
      KeyLessTransitive(a[1..], b[1..], c[1..]);
    }
  }

  lemma {:induction false} KeyLessIrreflexive(a: Bytes)
    ensures !KeyLess(a, a)
  {
    if |a| != 0 { KeyLessIrreflexive(a[1..]); }
  }

  predicate Sorted(keys: seq<Bytes>) {
    forall i, j :: 0 <= i < j < |keys| ==> KeyLess(keys[i], keys[j])
  }

  /** Insertion into a sorted listing. */
  function Insert(key: Bytes, keys: seq<Bytes>): (r: seq<Bytes>)
    ensures multiset(r) == multiset(keys) + multiset{key}
  {
    if keys == [] then [key]
    else if KeyLess(key, keys[0]) then [key] + keys
    else
      assert keys == [keys[0]] + keys[1..];
      [keys[0]] + Insert(key, keys[1..])
  }

  function SortKeys(keys: seq<Bytes>): (r: seq<Bytes>)
    ensures multiset(r) == multiset(keys)
  {
    if keys == [] then []
    else
      assert keys == [keys[0]] + keys[1..];
      Insert(keys[0], SortKeys(keys[1..]))
  }

  lemma {:induction false} InsertSorted(key: Bytes, keys: seq<Bytes>)
    requires Sorted(keys) && key !in keys
    ensures Sorted(Insert(key, keys))
  {
    if keys != [] {
      var r := Insert(key, keys);
      if KeyLess(key, keys[0]) {
        forall j | 0 < j < |keys| ensures KeyLess(key, keys[j]) {
          KeyLessTransitive(key, keys[0], keys[j]);
        }
      } else {
        KeyLessTotal(key, keys[0]);
        InsertSorted(key, keys[1..]);
        forall j | 0 < j < |r| ensures KeyLess(keys[0], r[j]) {
          assert r[j] in multiset(Insert(key, keys[1..]));
          assert r[j] == key || r[j] in keys[1..];
        }
      }
    }
  }

  /** Sorting the keys of a map lists each of them once, in order. */
  lemma {:induction false} SortKeysSorts(keys: seq<Bytes>)
    requires forall i, j :: 0 <= i < j < |keys| ==> keys[i] != keys[j]
    ensures Sorted(SortKeys(keys))
    ensures forall key :: key in SortKeys(keys) <==> key in keys
  {
    if keys != [] {
      SortKeysSorts(keys[1..]);
      assert keys[0] !in keys[1..];
      InsertSorted(keys[0], SortKeys(keys[1..]));
    }
    forall key ensures key in SortKeys(keys) <==> key in keys {
      assert key in SortKeys(keys) <==> key in multiset(SortKeys(keys));
    }
  }

  /** A set of keys has only one sorted listing. */
  lemma {:induction false} SortedUnique(a: seq<Bytes>, b: seq<Bytes>)
    requires Sorted(a) && Sorted(b) && |a| == |b|
    requires forall key :: key in a <==> key in b
    ensures a == b
  {
    if a != [] {
      assert a[0] in b;
      assert b[0] in a;
      if a[0] != b[0] {
        var i :| 0 <= i < |b| && b[i] == a[0];
        var j :| 0 <= j < |a| && a[j] == b[0];
        KeyLessTransitive(a[0], b[0], a[0]);
        KeyLessIrreflexive(a[0]);
        assert false;
      }
      HeadOnce(a);
      HeadOnce(b);
      assert a == [a[0]] + a[1..] && b == [b[0]] + b[1..];
      SortedUnique(a[1..], b[1..]);
    }
  }

  lemma HeadOnce(keys: seq<Bytes>)
    requires Sorted(keys) && keys != []
    ensures forall key :: key in keys[1..] <==> key in keys && key != keys[0]
  {
    KeyLessIrreflexive(keys[0]);
  }

  lemma SortKeysEnumerates(keys: seq<Bytes>, all: set<Bytes>)
    requires Enumerates(keys, all)
    ensures Enumerates(SortKeys(keys), all)
  {
    SortKeysSorts(keys);
    var r := SortKeys(keys);
    forall i, j | 0 <= i < j < |r| ensures r[i] != r[j] {
      KeyLessIrreflexive(r[i]);
    }
    forall i | 0 <= i < |r| ensures r[i] in all {
      assert r[i] in keys;
    }
  }

  lemma {:induction false} EnumerationLength(keys: seq<Bytes>, all: set<Bytes>)
    requires Enumerates(keys, all)
    ensures |keys| == |all|
  {
    if keys == [] {
      assert all == {};
    } else {
      EnumerationLength(keys[1..], all - {keys[0]});
    }
  }

  /** Sorting forgets the order the map was walked in. */
  lemma SortKeysCanonical(keys: seq<Bytes>, keys': seq<Bytes>, all: set<Bytes>)
    requires Enumerates(keys, all) && Enumerates(keys', all)
    ensures SortKeys(keys) == SortKeys(keys')
  {
    SortKeysSorts(keys);
    SortKeysSorts(keys');
    EnumerationLength(keys, all);
    EnumerationLength(keys', all);
    assert |multiset(keys)| == |multiset(SortKeys(keys))|;
    assert |multiset(keys')| == |multiset(SortKeys(keys'))|;
    SortedUnique(SortKeys(keys), SortKeys(keys'));
  }

  /** Where two keys first differ the one with the smaller byte comes first, and a key before any longer one it begins. */
  lemma {:induction false} SmallerByteLess(p: Bytes, x: Byte, y: Byte, a: Bytes, b: Bytes)
    requires x < y
    ensures KeyLess(p + [x] + a, p + [y] + b) && !KeyLess(p + [y] + b, p + [x] + a)
    ensures KeyLess(p, p + [x] + a) && !KeyLess(p + [x] + a, p) && !KeyLess(p, p)
  {
    if |p| > 0 {
      SmallerByteLess(p[1..], x, y, a, b);
      assert (p + [x] + a)[1..] == p[1..] + [x] + a && (p + [y] + b)[1..] == p[1..] + [y] + b;
    }
  }

  /** In the sorted listing the smaller of two keys stands first. */
  lemma SmallerFirst(walk: seq<Bytes>, all: set<Bytes>, key: Bytes, key': Bytes) returns (i: nat, j: nat)
    requires Enumerates(walk, all) && key in all && key' in all && KeyLess(key, key')
    ensures Enumerates(SortKeys(walk), all)
    ensures i < j < |SortKeys(walk)| && SortKeys(walk)[i] == key && SortKeys(walk)[j] == key'
  {
    hide KeyLess, SortKeys;
    SortKeysEnumerates(walk, all);
    SortKeysSorts(walk);
    i :| 0 <= i < |SortKeys(walk)| && SortKeys(walk)[i] == key;
    j :| 0 <= j < |SortKeys(walk)| && SortKeys(walk)[j] == key';
    KeyLessIrreflexive(key);
    if j < i {
      KeyLessTransitive(key, key', key);
    }
  }

  // ---------------------------------------------------------------- orders

  /** Some listing of a set of keys. */
  ghost function Listing(all: set<Bytes>): (keys: seq<Bytes>)
    ensures Enumerates(keys, all)
  {
    if all == {} then []
    else
      var key :| key in all;
      var rest := Listing(all - {key});
      [key] + rest
  }

  /** The order that walks the map with keys `all` as `keys` does. */
  ghost function Walking(keys: seq<Bytes>, all: set<Bytes>): (ord: Order)
  {
    (s: set<Bytes>) => if s == all then keys else Listing(s)
  }

  lemma WalkingValid(keys: seq<Bytes>, all: set<Bytes>)
    requires Enumerates(keys, all)
    ensures ValidOrder(Walking(keys, all)) && Walking(keys, all)(all) == keys
  {
  }

  lemma KeysListed(keys: seq<Bytes>, all: set<Bytes>)
    requires Enumerates(keys, all)
    ensures |keys| == |all| && forall i :: 0 <= i < |keys| ==> keys[i] in all
  {
    EnumerationLength(keys, all);
  }

  // ---------------------------------------------------- going through a map

  /** `done` are the entries of `b` whose keys are not among those still to do. */
  ghost predicate Done<T(!new)>(b: map<Bytes, T>, done: map<Bytes, T>, todo: set<Bytes>) {
    todo <= b.Keys && done.Keys == b.Keys - todo && forall key :: key in done ==> done[key] == b[key]
  }

  lemma NothingDone<T(!new)>(a: map<Bytes, T>, b: map<Bytes, T>)
    ensures Done(b, map[], b.Keys) && a + map[] == a
  {
  }

  lemma OneDone<T(!new)>(a: map<Bytes, T>, b: map<Bytes, T>, done: map<Bytes, T>, todo: set<Bytes>, key: Bytes)
    requires Done(b, done, todo) && key in todo
    ensures key in b && Done(b, done[key := b[key]], todo - {key})
    ensures (a + done)[key := b[key]] == a + done[key := b[key]]
  {
  }

  lemma AllDone<T(!new)>(b: map<Bytes, T>, done: map<Bytes, T>)
    requires Done(b, done, {})
    ensures done == b
  {
  }
}
