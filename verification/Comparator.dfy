/** Byte strings in bytewise order, encoded internal keys, and the shortened keys
    that separate blocks (`util/comparator.cc`, `db/dbformat.cc`). */
module Comparator {
  import opened Coding
  import opened Keys

  // ----- the bytewise order

  predicate Less(a: Bytes, b: Bytes)
    decreases |b|
  {
    b != [] && (a == [] || a[0] < b[0] || (a[0] == b[0] && Less(a[1..], b[1..])))
  }

  predicate AtMost(a: Bytes, b: Bytes) {
    a == b || Less(a, b)
  }

  /** Slice::compare: three-way, scanning the common prefix. */
  method Compare(a: Bytes, b: Bytes) returns (r: int)
    ensures r < 0 <==> Less(a, b)
    ensures r == 0 <==> a == b
    ensures r > 0 <==> Less(b, a)
  {
    var i := 0;
    while i < |a| && i < |b| && a[i] == b[i]
      invariant i <= |a| && i <= |b| && a[..i] == b[..i]
    {
      i := i + 1;
    }
    DecidedAt(a, b, i);
    DecidedAt(b, a, i);
    r := if i < |a| && i < |b| then a[i] - b[i] else |a| - |b|;
    assert i < |a| && i < |b| ==> a != b;
    assert i == |a| == |b| ==> a == a[..i] && b == b[..i];
  }

  /** The first byte that differs decides. */
  lemma {:induction false} DecidedAt(a: Bytes, b: Bytes, i: nat)
    requires i <= |a| && i <= |b| && a[..i] == b[..i]
    requires i < |a| && i < |b| ==> a[i] != b[i]
    ensures Less(a, b) <==> i < |b| && (i == |a| || a[i] < b[i])
  {
    if i > 0 {
      assert a[0] == a[..i][0] == b[..i][0] == b[0];
      assert a[1..][..i - 1] == a[..i][1..] && b[1..][..i - 1] == b[..i][1..];
      DecidedAt(a[1..], b[1..], i - 1);
    }
  }

  /** A byte string's place between 0 and 1: the numbers user keys stand for elsewhere. */
  function Place(s: Bytes): (r: real)
    ensures 0.0 <= r < 1.0
  {
    if s == [] then 0.0 else ((s[0] as int + 1) as real + Place(s[1..])) / 257.0
  }

  /** The places of byte strings are ordered as the strings are. */
  lemma {:induction false} PlaceKeepsOrder(a: Bytes, b: Bytes)
    ensures Less(a, b) <==> Place(a) < Place(b)
    ensures a == b <==> Place(a) == Place(b)
    decreases |b|
  {
    if a != [] && b != [] {
      PlaceKeepsOrder(a[1..], b[1..]);
      assert a == [a[0]] + a[1..] && b == [b[0]] + b[1..];
      ByteDecides(a[0], Place(a[1..]), b[0], Place(b[1..]));
    }
  }

  lemma ByteDecides(x: Byte, p: real, y: Byte, q: real)
    requires 0.0 <= p < 1.0 && 0.0 <= q < 1.0
    ensures ((x as int + 1) as real + p) / 257.0 < ((y as int + 1) as real + q) / 257.0 <==> x < y || (x == y && p < q)
    ensures ((x as int + 1) as real + p) / 257.0 == ((y as int + 1) as real + q) / 257.0 <==> x == y && p == q
  {
    assert x < y ==> (x as int + 1) as real + 1.0 <= (y as int + 1) as real;
    assert y < x ==> (y as int + 1) as real + 1.0 <= (x as int + 1) as real;
  }

  lemma LessIsTotal(a: Bytes, b: Bytes)
    ensures Less(a, b) || Less(b, a) || a == b
    ensures !(Less(a, b) && Less(b, a)) && !Less(a, a)
  {
    PlaceKeepsOrder(a, b);
    PlaceKeepsOrder(b, a);
    PlaceKeepsOrder(a, a);
  }

  lemma LessIsTransitive(a: Bytes, b: Bytes, c: Bytes)
    requires Less(a, b) && Less(b, c)
    ensures Less(a, c)
  {
    PlaceKeepsOrder(a, b);
    PlaceKeepsOrder(b, c);
    PlaceKeepsOrder(a, c);
  }

  // ----- shortened keys

  /** A string that shares `start` up to `i` and is greater there. */
  lemma Bumped(start: Bytes, i: nat)
    requires i < |start| && start[i] < 255
    ensures Less(start, start[..i] + [start[i] + 1])
  {
    DecidedAt(start, start[..i] + [start[i] + 1], i);
  }

  /** The strings agree up to `i`, and between their bytes there another byte fits. */
  predicate RoomAt(start: Bytes, limit: Bytes, i: nat) {
    i < |start| && i < |limit| && start[..i] == limit[..i] && start[i] as int + 1 < limit[i] as int
  }

  lemma SameBefore(a: Bytes, b: Bytes, n: nat)
    requires n <= |a| && n <= |b| && a[..n] == b[..n]
    ensures forall i :: 0 <= i < n ==> a[i] == b[i]
  {
    forall i | 0 <= i < n
      ensures a[i] == b[i]
    {
      assert a[..n][i] == b[..n][i];
    }
  }

  /** FindShortestSeparator: a string from `start` on, short of `limit`, and no longer
      than `start`; it ends at the first byte that differs, when there is room there. */
  method FindShortestSeparator(start: Bytes, limit: Bytes) returns (r: Bytes)
    ensures |r| <= |start| && AtMost(start, r)
    ensures if Less(start, limit) then Less(r, limit) else r == start
    ensures forall i: nat :: RoomAt(start, limit, i) ==> |r| == i + 1 && r != start
    ensures r != start ==> r != [] && RoomAt(start, limit, |r| - 1)
  {
    var minLength := if |start| < |limit| then |start| else |limit|;
    var diffIndex := 0;
    while diffIndex < minLength && start[diffIndex] == limit[diffIndex]
      invariant diffIndex <= minLength && start[..diffIndex] == limit[..diffIndex]
    {
      diffIndex := diffIndex + 1;
    }
    r := start;
    if diffIndex < minLength {
      var diffByte := start[diffIndex];
      if diffByte < 0xff && diffByte + 1 < limit[diffIndex] {
        r := start[..diffIndex] + [diffByte + 1];
        assert r[diffIndex] != start[diffIndex];
        Bumped(start, diffIndex);
        DecidedAt(start, limit, diffIndex);
        DecidedAt(r, limit, diffIndex);
      }
    }
    SameBefore(start, limit, diffIndex);
    forall i: nat | RoomAt(start, limit, i)
      ensures i == diffIndex
    {
      SameBefore(start, limit, i);
    }
  }

  /** FindShortSuccessor: a string from `key` on and no longer; only a run of
      0xff bytes stays as it is. */
  method FindShortSuccessor(key: Bytes) returns (r: Bytes)
    ensures |r| <= |key| && AtMost(key, r)
    ensures r == key <==> forall b :: b in key ==> b == 0xff
    ensures r != key ==> r != [] && key[|r| - 1] != 0xff && forall j :: 0 <= j < |r| - 1 ==> key[j] == 0xff
  {
    for i := 0 to |key|
      invariant forall k :: 0 <= k < i ==> key[k] == 0xff
    {
      var byte := key[i];
      if byte != 0xff {
        r := key[..i] + [byte + 1];
        Bumped(key, i);
        assert r[i] != key[i] && byte in key;
        return;
      }
    }
    r := key;
  }

  // ----- encoded internal keys

  /** AppendInternalKey: the user key, then sequence number and type in eight bytes. */
  function Encoded(user: Bytes, tag: nat): (k: Bytes)
    ensures |k| == |user| + 8
  {
    user + Fixed(tag, 8)
  }

  function ExtractUserKey(k: Bytes): Bytes
    requires |k| >= 8
  {
    k[..|k| - 8]
  }

  function ExtractTag(k: Bytes): nat
    requires |k| >= 8
  {
    Little(k[|k| - 8..])
  }

  const WORD64: nat := 0x1_0000_0000_0000_0000

  /** The parts of an encoded key are read back. */
  lemma ExtractsParts(user: Bytes, tag: nat)
    requires tag < WORD64
    ensures ExtractUserKey(Encoded(user, tag)) == user && ExtractTag(Encoded(user, tag)) == tag
  {
    var k := Encoded(user, tag);
    assert k[..|k| - 8] == user && k[|k| - 8..] == Fixed(tag, 8);
    FixedRoundTrip(tag, 8);
  }

  /** InternalKeyComparator::Compare on encoded keys. */
  predicate InternalLess(a: Bytes, b: Bytes)
    requires |a| >= 8 && |b| >= 8
  {
    || Less(ExtractUserKey(a), ExtractUserKey(b))
    || (ExtractUserKey(a) == ExtractUserKey(b) && ExtractTag(a) > ExtractTag(b))
  }

  /** A parsed internal key over the place of its user key. */
  function Abstract(user: Bytes, seqno: nat, kind: ValueType): IKey {
    IKey(Place(user), seqno, kind)
  }

  /** Encoded keys compare as the internal keys of module Keys do. */
  lemma EncodingKeepsOrder(u: Bytes, s: nat, k: ValueType, u': Bytes, s': nat, k': ValueType)
    requires s <= MAX_SEQUENCE && s' <= MAX_SEQUENCE
    ensures InternalLess(Encoded(u, Tag(Abstract(u, s, k))), Encoded(u', Tag(Abstract(u', s', k'))))
       <==> Before(Abstract(u, s, k), Abstract(u', s', k'))
  {
    ExtractsParts(u, Tag(Abstract(u, s, k)));
    ExtractsParts(u', Tag(Abstract(u', s', k')));
    PlaceKeepsOrder(u, u');
  }

  /** The tag of the seek key with the greatest sequence number. */
  const MAX_TAG: nat := MAX_SEQUENCE * 256 + 1

  /** FindShortestSeparator on internal keys: only a shorter user key is taken, and
      then with the greatest tag, so that it comes before all its entries. */
  method InternalShortestSeparator(start: Bytes, limit: Bytes) returns (r: Bytes)
    requires |start| >= 8 && |limit| >= 8
    ensures |r| >= 8 && |r| <= |start|
    ensures r == start || InternalLess(start, r)
    ensures InternalLess(start, limit) ==> InternalLess(r, limit)
    ensures r == start || !InternalLess(start, limit) || Less(ExtractUserKey(r), ExtractUserKey(limit))
    ensures r != start ==> |r| < |start| && ExtractTag(r) == MAX_TAG
    ensures r != start <==> exists i: nat :: RoomAt(ExtractUserKey(start), ExtractUserKey(limit), i) && i + 1 < |start| - 8
  {
    var userStart := ExtractUserKey(start);
    var userLimit := ExtractUserKey(limit);
    var tmp := FindShortestSeparator(userStart, userLimit);
    r := start;
    var c := Compare(userStart, tmp);
    if |tmp| < |userStart| && c < 0 {
      r := Encoded(tmp, MAX_TAG);
      ExtractsParts(tmp, MAX_TAG);
      LessIsTotal(userStart, userLimit);
    }
  }

  /** FindShortSuccessor on internal keys. */
  method InternalShortSuccessor(key: Bytes) returns (r: Bytes)
    requires |key| >= 8
    ensures |r| >= 8 && |r| <= |key| && (r == key || InternalLess(key, r))
    ensures r != key ==> |r| < |key| && ExtractTag(r) == MAX_TAG
    ensures r == key <==> forall i :: 0 <= i < |key| - 9 ==> ExtractUserKey(key)[i] == 0xff
  {
    var userKey := ExtractUserKey(key);
    var tmp := FindShortSuccessor(userKey);
    r := key;
    var c := Compare(userKey, tmp);
    if |tmp| < |userKey| && c < 0 {
      r := Encoded(tmp, MAX_TAG);
      ExtractsParts(tmp, MAX_TAG);
      assert userKey[|tmp| - 1] != 0xff;
    } else {
      assert tmp == userKey ==> forall i :: 0 <= i < |userKey| ==> userKey[i] in userKey;
    }
  }
}
