/** The block format: prefix-compressed entries and restart points
    (`table/block_builder.cc`, `table/block.cc`). */
module Block {
  import opened Coding
  import opened Keys

  const WORD32: nat := 0x1_0000_0000

  // ----- the format

  /** A stored entry: how much of the key is taken from the key before, the key, the value. */
  datatype Item = Item(shared: nat, key: Bytes, value: Bytes)

  /** What is stored of the key. */
  function Delta(it: Item): Bytes {
    if it.shared <= |it.key| then it.key[it.shared..] else []
  }

  function EntryBytes(it: Item): (r: Bytes)
    ensures |r| >= 3 + |Delta(it)| + |it.value|
  {
    Varint(it.shared) + (Varint(|Delta(it)|) + (Varint(|it.value|) + (Delta(it) + it.value)))
  }

  /** The first `n` entries. */
  function Data(items: seq<Item>, n: nat): Bytes
    requires n <= |items|
  {
    if n == 0 then [] else Data(items, n - 1) + EntryBytes(items[n - 1])
  }

  function Offset(items: seq<Item>, n: nat): nat
    requires n <= |items|
  {
    |Data(items, n)|
  }

  /** Entry `i` shares its first bytes with the key before it. */
  ghost predicate Follows(items: seq<Item>, i: nat)
    requires i < |items|
  {
    && items[i].shared <= |items[i].key| < WORD32
    && (i == 0 ==> items[i].shared == 0)
    && (i > 0 ==> items[i].shared <= |items[i - 1].key| && items[i].key[..items[i].shared] == items[i - 1].key[..items[i].shared])
  }

  ghost predicate ItemsOk(items: seq<Item>) {
    forall i: nat {:trigger Follows(items, i)} :: i < |items| ==> Follows(items, i)
  }

  /** `points` are the entries stored without sharing that a search can start from. */
  ghost predicate PointsOk(items: seq<Item>, points: seq<nat>) {
    && points != [] && points[0] == 0
    && (forall a, b :: 0 <= a < b < |points| ==> points[a] < points[b])
    && (forall j :: 0 < j < |points| ==> points[j] < |items| && items[points[j]].shared == 0)
  }

  /** The offsets of the first `n` restart points. */
  function RestartArray(items: seq<Item>, points: seq<nat>, n: nat): Bytes
    requires n <= |points| && forall j :: 0 <= j < |points| ==> points[j] <= |items|
    ensures |RestartArray(items, points, n)| == 4 * n
  {
    if n == 0 then [] else RestartArray(items, points, n - 1) + Fixed(Offset(items, points[n - 1]), 4)
  }

  function Contents(items: seq<Item>, points: seq<nat>): Bytes
    requires forall j :: 0 <= j < |points| ==> points[j] <= |items|
  {
    Data(items, |items|) + RestartArray(items, points, |points|) + Fixed(|points|, 4)
  }

  /** Entries, four bytes for each restart point, and four for their count. */
  function SizeEstimate(items: seq<Item>, points: seq<nat>): nat {
    |Data(items, |items|)| + 4 * |points| + 4
  }

  /** The estimate is the size of the finished block. */
  lemma EstimateIsExact(items: seq<Item>, points: seq<nat>)
    requires forall j :: 0 <= j < |points| ==> points[j] <= |items|
    ensures |Contents(items, points)| == SizeEstimate(items, points)
  {
  }

  lemma PointsInRange(items: seq<Item>, points: seq<nat>)
    requires PointsOk(items, points)
    ensures forall j :: 0 <= j < |points| ==> points[j] <= |items|
  {
  }

  // ----- the builder

  /** The length of the common prefix. */
  function Common(a: Bytes, b: Bytes): (n: nat)
    ensures n <= |a| && n <= |b| && a[..n] == b[..n]
    ensures n < |a| && n < |b| ==> a[n] != b[n]
  {
    if a == [] || b == [] || a[0] != b[0] then 0
    else
      var n := Common(a[1..], b[1..]);
      assert a[..n + 1] == [a[0]] + a[1..][..n] && b[..n + 1] == [b[0]] + b[1..][..n];
      n + 1
  }

  lemma CommonIs(a: Bytes, b: Bytes, n: nat)
    requires n <= |a| && n <= |b| && a[..n] == b[..n] && (n < |a| && n < |b| ==> a[n] != b[n])
    ensures n == Common(a, b)
  {
  }

  /** A restart point comes every `interval` entries, and all other entries share as much as they can. */
  ghost predicate Compressed(items: seq<Item>, points: seq<nat>, interval: nat) {
    && points != [] && points[|points| - 1] <= |items| <= points[|points| - 1] + interval
    && (forall j :: 0 < j < |points| ==> points[j] == points[j - 1] + interval)
    && (forall i :: 0 < i < |items| && i !in points ==> items[i].shared == Common(items[i - 1].key, items[i].key))
  }

  function KeyBefore(items: seq<Item>, i: nat): Bytes
    requires i <= |items|
  {
    if i == 0 then [] else items[i - 1].key
  }

  lemma {:induction false} DataOfPrefix(a: seq<Item>, b: seq<Item>, n: nat)
    requires n <= |a| && n <= |b| && a[..n] == b[..n]
    ensures Data(a, n) == Data(b, n)
  {
    if n > 0 {
      assert a[..n][..n - 1] == a[..n - 1] && b[..n][..n - 1] == b[..n - 1];
      assert a[..n][n - 1] == b[..n][n - 1];
      DataOfPrefix(a, b, n - 1);
    }
  }

  lemma DataGrows(items: seq<Item>, it: Item)
    ensures Data(items + [it], |items| + 1) == Data(items, |items|) + EntryBytes(it)
    ensures forall n :: 0 <= n <= |items| ==> Data(items + [it], n) == Data(items, n)
  {
    forall n | 0 <= n <= |items|
      ensures Data(items + [it], n) == Data(items, n)
    {
      DataOfPrefix(items + [it], items, n);
    }
  }

  lemma FollowsGrows(items: seq<Item>, it: Item)
    requires ItemsOk(items) && it.shared <= |it.key| < WORD32 && it.shared <= |KeyBefore(items, |items|)|
    requires it.key[..it.shared] == KeyBefore(items, |items|)[..it.shared]
    ensures ItemsOk(items + [it])
  {
    var r := items + [it];
    forall i: nat | i < |r|
      ensures Follows(r, i)
    {
      if i < |items| {
        assert Follows(items, i);
      }
    }
  }

  /** What a builder has laid out so far. */
  ghost predicate Laid(items: seq<Item>, points: seq<nat>, interval: nat) {
    ItemsOk(items) && PointsOk(items, points) && Compressed(items, points, interval)
  }

  ghost predicate AreOffsets(items: seq<Item>, points: seq<nat>, restarts: seq<nat>) {
    && |restarts| == |points|
    && forall j :: 0 <= j < |points| ==> points[j] <= |items| && restarts[j] == Offset(items, points[j])
  }

  lemma OffsetsGrow(items: seq<Item>, points: seq<nat>, restarts: seq<nat>, it: Item)
    requires AreOffsets(items, points, restarts)
    ensures AreOffsets(items + [it], points, restarts)
    ensures AreOffsets(items + [it], points + [|items|], restarts + [Offset(items, |items|)])
  {
    DataGrows(items, it);
  }

  /** One more entry in the current stretch, sharing all it can. */
  lemma LaidGrows(items: seq<Item>, points: seq<nat>, interval: nat, it: Item)
    requires Laid(items, points, interval) && |items| < points[|points| - 1] + interval
    requires it.shared == Common(KeyBefore(items, |items|), it.key) && |it.key| < WORD32
    ensures Laid(items + [it], points, interval)
  {
    hide ItemsOk, Common;
    FollowsGrows(items, it);
    var r := items + [it];
    forall i | 0 < i < |r| && i !in points
      ensures r[i].shared == Common(r[i - 1].key, r[i].key)
    {
      if i < |items| {
        assert r[i] == items[i] && r[i - 1] == items[i - 1];
      }
    }
  }

  /** One more entry at a new restart point. */
  lemma LaidRestarts(items: seq<Item>, points: seq<nat>, interval: nat, it: Item)
    requires Laid(items, points, interval) && interval >= 1 && |items| == points[|points| - 1] + interval && it.shared == 0 && |it.key| < WORD32
    ensures Laid(items + [it], points + [|items|], interval)
  {
    hide ItemsOk, Common;
    FollowsGrows(items, it);
    var r := items + [it];
    assert PointsOk(r, points + [|items|]);
    forall i | 0 < i < |r| && i !in points + [|items|]
      ensures r[i].shared == Common(r[i - 1].key, r[i].key)
    {
      assert |items| in points + [|items|];
      assert i !in points;
      assert r[i] == items[i] && r[i - 1] == items[i - 1];
    }
  }

  lemma LaidBounds(items: seq<Item>, points: seq<nat>, interval: nat)
    requires Laid(items, points, interval)
    ensures points != [] && points[|points| - 1] <= |items| <= points[|points| - 1] + interval
  {
  }

  lemma OffsetIs(items: seq<Item>)
    ensures Offset(items, |items|) == |Data(items, |items|)|
  {
  }

  class BlockBuilder {
    const interval: nat
    var buffer: Bytes
    var restarts: seq<nat>
    var counter: nat
    var finished: bool
    var lastKey: Bytes
    ghost var items: seq<Item>
    ghost var points: seq<nat>

    ghost predicate Valid()
      reads this
    {
      && interval >= 1 && Laid(items, points, interval) && AreOffsets(items, points, restarts)
      && lastKey == KeyBefore(items, |items|) && points != [] && counter == |items| - points[|points| - 1]
    }

    /** A block still being built. */
    ghost predicate Open()
      reads this
    {
      Valid() && !finished && buffer == Data(items, |items|)
    }

    constructor (interval: nat)
      requires interval >= 1
      ensures Open() && this.interval == interval && items == []
    {
      this.interval := interval;
      buffer := [];
      restarts := [0];
      counter := 0;
      finished := false;
      lastKey := [];
      items := [];
      points := [0];
    }

    /** The key is stored by what it does not share with the key before, except at a restart point. */
    method Add(key: Bytes, value: Bytes)
      requires Open() && |key| < WORD32 && |value| < WORD32
      modifies this
      ensures Open() && |items| == |old(items)| + 1 && items[..|old(items)|] == old(items)
      ensures items[|old(items)|].key == key && items[|old(items)|].value == value
    {
      hide Laid, AreOffsets, EntryBytes, Offset, Data, Common;
      var shared := 0;
      ghost var last := points[|points| - 1];
      LaidBounds(items, points, interval);
      if counter < interval {
        shared := SharedWith(lastKey, key);
        ghost var it := Item(shared, key, value);
        LaidGrows(items, points, interval, it);
        OffsetsGrow(items, points, restarts, it);
      } else {
        ghost var it := Item(0, key, value);
        LaidRestarts(items, points, interval, it);
        OffsetsGrow(items, points, restarts, it);
        OffsetIs(items);
        restarts := restarts + [|buffer|];
        points := points + [|items|];
        counter := 0;
      }
      Append(shared, key, value);
    }

    /** What Add does once it knows how much is shared. */
    method Append(shared: nat, key: Bytes, value: Bytes)
      requires buffer == Data(items, |items|) && shared <= |key| < WORD32 && |value| < WORD32 && shared <= |lastKey|
      requires lastKey[..shared] == key[..shared]
      modifies this`buffer, this`lastKey, this`counter, this`items
      ensures items == old(items) + [Item(shared, key, value)] && buffer == Data(items, |items|)
      ensures lastKey == key && counter == old(counter) + 1
    {
      hide EntryBytes;
      DataGrows(items, Item(shared, key, value));
      AppendEntry(shared, key, value);
      lastKey := lastKey[..shared] + key[shared..];
      assert lastKey == key;
      counter := counter + 1;
      items := items + [Item(shared, key, value)];
    }

    method SharedWith(last: Bytes, key: Bytes) returns (shared: nat)
      ensures shared == Common(last, key)
    {
      shared := 0;
      var minLength := if |last| < |key| then |last| else |key|;
      while shared < minLength && last[shared] == key[shared]
        invariant shared <= minLength && last[..shared] == key[..shared]
      {
        shared := shared + 1;
      }
      CommonIs(last, key, shared);
    }

    method AppendEntry(shared: nat, key: Bytes, value: Bytes)
      requires shared <= |key| < WORD32 && |value| < WORD32
      modifies this`buffer
      ensures buffer == old(buffer) + EntryBytes(Item(shared, key, value))
    {
      var a := EncodeVarint32(shared);
      var b := EncodeVarint32(|key| - shared);
      var c := EncodeVarint32(|value|);
      ConcatFive(buffer, a, b, c, key[shared..], value);
      buffer := buffer + a;
      buffer := buffer + b;
      buffer := buffer + c;
      buffer := buffer + key[shared..];
      buffer := buffer + value;
    }

    method Finish() returns (r: Bytes)
      requires Open()
      modifies this`buffer, this`finished
      ensures items == old(items) && Valid() && finished && Laid(items, points, interval) && PointsOk(items, points)
      ensures r == Contents(items, points)
    {
      hide Data, Offset;
      PointsInRange(items, points);
      ghost var before := buffer;
      for i := 0 to |restarts|
        invariant buffer == before + RestartArray(items, points, i)
      {
        RestartArrayStep(items, points, restarts, i, before);
        buffer := buffer + Fixed(restarts[i], 4);
      }
      buffer := buffer + Fixed(|restarts|, 4);
      finished := true;
      r := buffer;
    }

    method Reset()
      requires interval >= 1
      modifies this
      ensures Open() && items == []
    {
      buffer := [];
      restarts := [0];
      counter := 0;
      finished := false;
      lastKey := [];
      items := [];
      points := [0];
    }

    method Empty() returns (b: bool)
      requires Open()
      ensures b <==> items == []
    {
      b := buffer == [];
      if items != [] {
        assert |Data(items, |items|)| >= |EntryBytes(items[|items| - 1])|;
      }
    }

    method CurrentSizeEstimate() returns (n: nat)
      requires Open()
      ensures n == SizeEstimate(items, points)
    {
      n := |buffer| + 4 * |restarts| + 4;
    }
  }

  lemma RestartArrayStep(items: seq<Item>, points: seq<nat>, restarts: seq<nat>, i: nat, before: Bytes)
    requires AreOffsets(items, points, restarts) && i < |points|
    ensures before + RestartArray(items, points, i + 1) == before + RestartArray(items, points, i) + Fixed(restarts[i], 4)
  {
    ConcatAssoc(before, RestartArray(items, points, i), Fixed(restarts[i], 4));
  }

  lemma ConcatFive(x: Bytes, a: Bytes, b: Bytes, c: Bytes, d: Bytes, e: Bytes)
    ensures x + a + b + c + d + e == x + (a + (b + (c + (d + e))))
  {
    ConcatAssoc(c, d, e);
    ConcatAssoc(b, c + d, e);
    ConcatAssoc(b, c, d);
    ConcatAssoc(a, b + c + d, e);
    ConcatAssoc(a, b + c, d);
    ConcatAssoc(a, b, c);
    ConcatAssoc(x, a + b + c + d, e);
    ConcatAssoc(x, a + b + c, d);
    ConcatAssoc(x, a + b, c);
    ConcatAssoc(x, a, b);
  }
}
