/** Reading a block (`table/block.cc`): the iterator over a block that a
    BlockBuilder wrote is a cursor over the entries added, in both directions,
    and Seek finds the first key that is not before the target. */
module BlockReader {
  import opened Block
  import opened Coding
  import opened Keys

  // ----- one entry

  /** The three lengths at the start of an entry, and what follows them. */
  datatype Parsed = Parsed(shared: nat, nonShared: nat, valueLength: nat, rest: Bytes)

  function ParseLengths(data: Bytes): Option<Parsed> {
    match ParseVarint(data, 5)
    case None => None
    case Some(a) =>
      match ParseVarint(a.1, 5)
      case None => None
      case Some(b) =>
        match ParseVarint(b.1, 5)
        case None => None
        case Some(c) => Some(Parsed(a.0 % WORD32, b.0 % WORD32, c.0 % WORD32, c.1))
  }

  function ParseEntry(data: Bytes): Option<Parsed> {
    if |data| < 3 then None
    else match ParseLengths(data)
      case None => None
      case Some(p) => if |p.rest| < (p.nonShared + p.valueLength) % WORD32 then None else Some(p)
  }

  /** Three bytes below 128 are three lengths. */
  lemma FastPath(data: Bytes)
    requires |data| >= 3 && data[0] < 128 && data[1] < 128 && data[2] < 128
    ensures ParseLengths(data) == Some(Parsed(data[0] as nat, data[1] as nat, data[2] as nat, data[3..]))
  {
    assert ParseVarint(data, 5) == Some((data[0] as nat, data[1..]));
    assert ParseVarint(data[1..], 5) == Some((data[1] as nat, data[1..][1..]));
    assert data[1..][1..] == data[2..];
    assert ParseVarint(data[2..], 5) == Some((data[2] as nat, data[2..][1..]));
    assert data[2..][1..] == data[3..];
  }

  /** DecodeEntry: a fast path when all three lengths are one byte long. */
  method DecodeEntry(data: Bytes) returns (r: Option<Parsed>)
    ensures r == ParseEntry(data)
  {
    if |data| < 3 {
      return None;
    }
    var p;
    if data[0] < 128 && data[1] < 128 && data[2] < 128 {
      FastPath(data);
      p := Parsed(data[0] as nat, data[1] as nat, data[2] as nat, data[3..]);
    } else {
      var a := GetVarint32(data);
      if a == None {
        return None;
      }
      var b := GetVarint32(a.value.1);
      if b == None {
        return None;
      }
      var c := GetVarint32(b.value.1);
      if c == None {
        return None;
      }
      p := Parsed(a.value.0, b.value.0, c.value.0, c.value.1);
    }
    r := if |p.rest| < (p.nonShared + p.valueLength) % WORD32 then None else Some(p);
  }

  lemma {:induction false} VarintLeavesSuffix(data: Bytes, n: nat)
    ensures match ParseVarint(data, n)
            case None => true
            case Some(p) => |p.1| <= |data| && p.1 == data[|data| - |p.1|..]
    decreases n
  {
    if n > 0 && data != [] && data[0] >= 128 {
      VarintLeavesSuffix(data[1..], n - 1);
    }
  }

  lemma ParseLeavesSuffix(data: Bytes)
    ensures match ParseEntry(data)
            case None => true
            case Some(p) => |p.rest| <= |data| && p.rest == data[|data| - |p.rest|..]
  {
    hide ParseVarint;
    VarintLeavesSuffix(data, 5);
    var a := ParseVarint(data, 5);
    if a.Some? {
      VarintLeavesSuffix(a.value.1, 5);
      var b := ParseVarint(a.value.1, 5);
      if b.Some? {
        VarintLeavesSuffix(b.value.1, 5);
      }
    }
  }

  lemma ValueInPlace(data: Bytes, restarts: nat, current: nat, rest: Bytes, n: nat, len: nat)
    requires current <= restarts <= |data| && n + len <= |rest| <= restarts - current
    requires rest == data[current..restarts][restarts - current - |rest|..]
    ensures data[restarts - |rest| + n..restarts - |rest| + n + len] == rest[n..n + len]
  {
    SliceOfSlice(data, current, restarts, restarts - current - |rest|, restarts - current);
    SliceOfSlice(data, restarts - |rest|, restarts, n, n + len);
  }

  /** What an entry's bytes are parsed as. */
  lemma ParsesEntry(it: Item, rest: Bytes)
    requires it.shared < WORD32 && |Delta(it)| + |it.value| < WORD32
    ensures ParseEntry(EntryBytes(it) + rest)
         == Some(Parsed(it.shared, |Delta(it)|, |it.value|, Delta(it) + it.value + rest))
  {
    hide Varint, ParseVarint, Delta;
    var tail := Delta(it) + it.value + rest;
    var third := Varint(|it.value|) + tail;
    var second := Varint(|Delta(it)|) + third;
    EntryNests(Varint(it.shared), Varint(|Delta(it)|), Varint(|it.value|), Delta(it) + it.value, rest);
    assert EntryBytes(it) + rest == Varint(it.shared) + second;
    Varint32RoundTrip(it.shared, second);
    Varint32RoundTrip(|Delta(it)|, third);
    Varint32RoundTrip(|it.value|, tail);
  }

  lemma EntryNests(a: Bytes, b: Bytes, c: Bytes, d: Bytes, rest: Bytes)
    ensures a + (b + (c + d)) + rest == a + (b + (c + (d + rest)))
  {
    ConcatAssoc(a, b + (c + d), rest);
    ConcatAssoc(b, c + d, rest);
    ConcatAssoc(c, d, rest);
  }

  // ----- offsets

  lemma NextOffset(items: seq<Item>, i: nat)
    requires i < |items|
    ensures Data(items, i + 1) == Data(items, i) + EntryBytes(items[i])
    ensures Offset(items, i + 1) == Offset(items, i) + |EntryBytes(items[i])| > Offset(items, i)
  {
    hide EntryBytes;
  }

  lemma {:induction false} DataIsPrefix(items: seq<Item>, i: nat, j: nat)
    requires i <= j <= |items|
    ensures Data(items, i) <= Data(items, j)
    ensures i < j ==> Offset(items, i) < Offset(items, j)
    decreases j
  {
    hide *;
    if i < j {
      DataIsPrefix(items, i, j - 1);
      NextOffset(items, j - 1);
      StaysPrefix(Data(items, i), Data(items, j - 1), EntryBytes(items[j - 1]));
    }
  }

  lemma StaysPrefix(a: Bytes, b: Bytes, c: Bytes)
    requires a <= b
    ensures a <= b + c
  {
  }

  /** The bytes from entry `i` on start with that entry. */
  lemma EntryAt(items: seq<Item>, i: nat) returns (rest: Bytes)
    requires i < |items|
    ensures Offset(items, i) <= Offset(items, |items|)
    ensures Data(items, |items|)[Offset(items, i)..] == EntryBytes(items[i]) + rest
    ensures Offset(items, i + 1) == Offset(items, i) + |EntryBytes(items[i])|
  {
    hide EntryBytes;
    DataIsPrefix(items, i + 1, |items|);
    DataIsPrefix(items, i, i + 1);
    var d := Data(items, |items|);
    rest := d[Offset(items, i + 1)..];
    assert d[..Offset(items, i + 1)] == Data(items, i) + EntryBytes(items[i]);
    SplitAt(d, Data(items, i), EntryBytes(items[i]), Offset(items, i + 1));
  }

  lemma SplitAt(d: Bytes, a: Bytes, b: Bytes, n: nat)
    requires n == |a| + |b| <= |d| && d[..n] == a + b
    ensures d[|a|..] == b + d[n..]
  {
    assert d == d[..n] + d[n..];
    ConcatAssoc(a, b, d[n..]);
  }

  /** Which of two entries comes first shows in the offsets. */
  lemma OffsetsOrdered(items: seq<Item>, i: nat, j: nat)
    requires i <= |items| && j <= |items|
    ensures Offset(items, i) < Offset(items, j) <==> i < j
    ensures Offset(items, i) == Offset(items, j) <==> i == j
  {
    hide Offset;
    if i <= j {
      DataIsPrefix(items, i, j);
    } else {
      DataIsPrefix(items, j, i);
    }
  }

  // ----- opening a block

  /** `data` is a block that stores `items` with these restart points. */
  ghost predicate Stores(data: Bytes, restarts: nat, numRestarts: nat, items: seq<Item>, points: seq<nat>) {
    && ItemsOk(items) && PointsOk(items, points) && numRestarts == |points|
    && restarts == Offset(items, |items|) && restarts + 4 * numRestarts + 4 == |data| < WORD32
    && data[..restarts] == Data(items, |items|)
    && forall j: nat {:trigger points[j]} :: j < numRestarts ==> Little(data[restarts + 4 * j..restarts + 4 * j + 4]) == Offset(items, points[j])
  }

  lemma {:induction false} RestartArrayAt(items: seq<Item>, points: seq<nat>, n: nat, j: nat)
    requires j < n <= |points| && forall k :: 0 <= k < |points| ==> points[k] <= |items|
    ensures RestartArray(items, points, n)[4 * j..4 * j + 4] == Fixed(Offset(items, points[j]), 4)
  {
    hide Offset, Fixed;
    var before := RestartArray(items, points, n - 1);
    if j < n - 1 {
      RestartArrayAt(items, points, n - 1, j);
      assert RestartArray(items, points, n)[4 * j..4 * j + 4] == before[4 * j..4 * j + 4];
    }
  }

  lemma ContentsStore(items: seq<Item>, points: seq<nat>)
    requires ItemsOk(items) && PointsOk(items, points)
    requires (forall j :: 0 <= j < |points| ==> points[j] <= |items|) && |Contents(items, points)| < WORD32
    ensures var data := Contents(items, points);
            Stores(data, Offset(items, |items|), |points|, items, points) && DecodeFixed32(data[|data| - 4..]) == |points|
  {
    hide Data, RestartArray;
    var d, r, n := Data(items, |items|), RestartArray(items, points, |points|), Fixed(|points|, 4);
    var data := Contents(items, points);
    assert data[..|d|] == d;
    assert data[|data| - 4..] == n;
    FixedRoundTrip(|points|, 4);
    assert n[..4] == n;
    forall j: nat | j < |points|
      ensures Little(data[|d| + 4 * j..|d| + 4 * j + 4]) == Offset(items, points[j])
    {
      RestartArrayAt(items, points, |points|, j);
      assert data[|d| + 4 * j..|d| + 4 * j + 4] == r[4 * j..4 * j + 4];
      DataIsPrefix(items, points[j], |items|);
      FixedRoundTrip(Offset(items, points[j]), 4);
    }
  }

  lemma StoresFacts(data: Bytes, restarts: nat, numRestarts: nat, items: seq<Item>, points: seq<nat>)
    requires Stores(data, restarts, numRestarts, items, points)
    ensures restarts == Offset(items, |items|) && restarts + 4 * numRestarts + 4 == |data|
    ensures numRestarts == |points| > 0 && points[0] == 0
    ensures forall j :: 0 <= j < |points| ==> points[j] <= |items| && (points[j] < |items| ==> items[points[j]].shared == 0)
    ensures forall a, b :: 0 <= a < b < |points| ==> points[a] < points[b]
    ensures forall j :: 0 < j < |points| ==> points[j] < |items|
  {
    if |items| > 0 {
      assert Follows(items, 0);
    }
  }

  /** The entry stored at the offset of entry `i`, and where the next one begins. */
  lemma ReadsEntry(data: Bytes, restarts: nat, numRestarts: nat, items: seq<Item>, points: seq<nat>, i: nat) returns (rest: Bytes)
    requires Stores(data, restarts, numRestarts, items, points) && i < |items|
    ensures Offset(items, i) < Offset(items, i + 1) <= restarts <= |data|
    ensures var it := items[i];
            && ParseEntry(data[Offset(items, i)..restarts]) == Some(Parsed(it.shared, |Delta(it)|, |it.value|, Delta(it) + it.value + rest))
            && Offset(items, i + 1) == restarts - |rest|
    ensures Follows(items, i)
  {
    assert Follows(items, i);
    var it := items[i];
    rest := EntryAt(items, i);
    var stored := Data(items, |items|);
    assert data[Offset(items, i)..restarts] == stored[Offset(items, i)..];
    ShortEntry(data, restarts, it, rest, Offset(items, i));
    ParsesEntry(it, rest);
    NextOffset(items, i);
    DataIsPrefix(items, i + 1, |items|);
  }

  /** An entry of a block shorter than 4 GB has lengths that fit. */
  lemma ShortEntry(data: Bytes, restarts: nat, it: Item, rest: Bytes, at: nat)
    requires at <= restarts <= |data| < WORD32 && data[at..restarts] == EntryBytes(it) + rest
    ensures |Delta(it)| + |it.value| < WORD32
  {
  }

  // ----- the iterator

  /** Among sorted keys, those before `target` come first. */
  ghost predicate Cuts(lt: (Bytes, Bytes) -> bool, items: seq<Item>, target: Bytes) {
    forall i, j :: 0 <= i < j < |items| && lt(items[j].key, target) ==> lt(items[i].key, target)
  }

  /** Behind a restart point that is not before the target, none is. */
  lemma PointsAfter(lt: (Bytes, Bytes) -> bool, items: seq<Item>, points: seq<nat>, target: Bytes, mid: nat)
    requires Cuts(lt, items, target) && mid < |points| && (forall a, b :: 0 <= a < b < |points| ==> points[a] < points[b])
    requires (forall j :: mid <= j < |points| ==> points[j] < |items|) && !lt(items[points[mid]].key, target)
    ensures forall j :: mid <= j < |points| ==> !lt(items[points[j]].key, target)
  {
  }

  lemma SortedCuts(lt: (Bytes, Bytes) -> bool, items: seq<Item>, target: Bytes)
    requires forall i, j :: 0 <= i < j < |items| ==> lt(items[i].key, items[j].key)
    requires forall a, b, c :: lt(a, b) && lt(b, c) ==> lt(a, c)
    ensures Cuts(lt, items, target)
  {
  }

  class Iter {
    const lt: (Bytes, Bytes) -> bool
    const data: Bytes
    const restarts: nat
    const numRestarts: nat
    ghost const items: seq<Item>
    ghost const points: seq<nat>
    var current: nat
    var restartIndex: nat
    var key: Bytes
    var valueStart: nat
    var valueLength: nat
    ghost var pos: nat    // |items| when not valid

    ghost predicate Block() {
      Stores(data, restarts, numRestarts, items, points)
    }

    function NextEntryOffset(): nat
      reads this
    {
      valueStart + valueLength
    }

    /** The restart index belongs to entry `i`. */
    ghost predicate Indexed(i: nat)
      reads this
    {
      restartIndex < numRestarts == |points| && points[restartIndex] <= i
    }

    /** Parsing from here on reads entry `i`. */
    ghost predicate Ready(i: nat)
      reads this
    {
      && i <= |items| && NextEntryOffset() == Offset(items, i) && Indexed(i)
      && (i < |items| ==> items[i].shared <= |key| && items[i].shared <= |items[i].key| && key[..items[i].shared] == items[i].key[..items[i].shared])
    }

    /** The fields describe entry `i`. */
    ghost predicate At(i: nat)
      reads this
    {
      && i < |items| && current == Offset(items, i) && key == items[i].key
      && NextEntryOffset() == Offset(items, i + 1) <= |data| && data[valueStart..NextEntryOffset()] == items[i].value
      && Indexed(i) && (restartIndex + 1 < numRestarts ==> i <= points[restartIndex + 1])
    }

    ghost predicate Ok()
      reads this
    {
      && Block() && pos <= |items|
      && if pos < |items| then At(pos) else current == restarts && restartIndex == numRestarts
    }

    constructor (lt: (Bytes, Bytes) -> bool, data: Bytes, restarts: nat, numRestarts: nat, ghost items: seq<Item>, ghost points: seq<nat>)
      requires Stores(data, restarts, numRestarts, items, points)
      ensures Ok() && this.items == items && this.points == points && this.lt == lt && pos == |items|
    {
      this.lt := lt;
      this.data := data;
      this.restarts := restarts;
      this.numRestarts := numRestarts;
      this.items := items;
      this.points := points;
      current := restarts;
      restartIndex := numRestarts;
      key := [];
      valueStart := 0;
      valueLength := 0;
      pos := |items|;
    }

    lemma InRange()
      requires Ok()
      ensures pos <= |items|
    {
      hide Stores;
    }

    method Valid() returns (b: bool)
      requires Ok()
      ensures b <==> pos < |items|
    {
      hide Stores, Offset;
      StoresFacts(data, restarts, numRestarts, items, points);
      OffsetsOrdered(items, pos, |items|);
      b := current < restarts;
    }

    method Current() returns (k: Bytes, value: Bytes)
      requires Ok() && pos < |items|
      ensures k == items[pos].key && value == items[pos].value
    {
      k, value := key, data[valueStart..NextEntryOffset()];
    }

    method GetRestartPoint(index: nat) returns (offset: nat)
      requires Block() && index < numRestarts == |points|
      ensures points[index] <= |items| && offset == Offset(items, points[index])
    {
      StoresFacts(data, restarts, numRestarts, items, points);
      assert points[index] <= |items|;
      var word := data[restarts + 4 * index..restarts + 4 * index + 4];
      assert word[..4] == word;
      offset := DecodeFixed32(word);
    }

    method SeekToRestartPoint(index: nat)
      requires Block() && index < numRestarts == |points|
      modifies this
      ensures Ready(points[index])
    {
      hide Stores, Offset;
      StoresFacts(data, restarts, numRestarts, items, points);
      key := [];
      restartIndex := index;
      var offset := GetRestartPoint(index);
      valueStart, valueLength := offset, 0;
    }

    /** Moves the restart index up to the last restart point before the current entry. */
    method AdvanceRestartIndex(ghost i: nat)
      requires Block() && i < |items| && current == Offset(items, i) && Indexed(i)
      modifies this`restartIndex
      ensures Indexed(i) && (restartIndex + 1 < numRestarts ==> i <= points[restartIndex + 1])
    {
      hide Stores, Offset;
      StoresFacts(data, restarts, numRestarts, items, points);
      while restartIndex + 1 < numRestarts
        invariant Indexed(i)
        invariant restartIndex + 1 < numRestarts ==> points[restartIndex + 1] <= |items|
        decreases numRestarts - restartIndex
      {
        var next := GetRestartPoint(restartIndex + 1);
        OffsetsOrdered(items, points[restartIndex + 1], i);
        if next >= current {
          return;
        }
        restartIndex := restartIndex + 1;
      }
    }

    /** Reads the entry the iterator stands before; says whether there was one. */
    method ParseNextKey(ghost i: nat) returns (ok: bool)
      requires Block() && Ready(i)
      modifies this
      ensures Ok() && pos == i && (ok <==> i < |items|)
    {
      hide Stores, Offset, ParseEntry, Delta;
      StoresFacts(data, restarts, numRestarts, items, points);
      OffsetsOrdered(items, i, |items|);
      current := NextEntryOffset();
      pos := i;
      if current >= restarts {
        current := restarts;
        restartIndex := numRestarts;
        return false;
      }
      LoadEntry(i);
      AdvanceRestartIndex(i);
      ok := true;
    }

    /** Takes key and value from the entry at `current`. */
    method LoadEntry(ghost i: nat)
      requires Block() && Ready(i) && i < |items| && current == Offset(items, i)
      modifies this`key, this`valueStart, this`valueLength
      ensures key == items[i].key
      ensures NextEntryOffset() == Offset(items, i + 1) <= |data| && data[valueStart..NextEntryOffset()] == items[i].value
    {
      hide Stores, Offset, ParseEntry, Delta;
      StoresFacts(data, restarts, numRestarts, items, points);
      EntryLoads(data, restarts, numRestarts, items, points, i, key);
      var p := DecodeEntry(data[current..restarts]);
      if p == None || |key| < p.value.shared {
        assert false;    // a corrupt block: not one that a builder wrote
      }
      var parsed := p.value;
      key := key[..parsed.shared] + parsed.rest[..parsed.nonShared];
      valueStart := restarts - |parsed.rest| + parsed.nonShared;
      valueLength := parsed.valueLength;
    }

    /** After one entry the next one can be read. */
    lemma ReadyForNext(i: nat)
      requires Block() && At(i)
      ensures Ready(i + 1)
    {
      if i + 1 < |items| {
        assert Follows(items, i + 1);
      }
    }

    method Next()
      requires Ok() && pos < |items|
      modifies this
      ensures Ok() && pos == old(pos) + 1
    {
      hide Stores, Offset;
      ReadyForNext(pos);
      var ok := ParseNextKey(pos + 1);
    }

    method SeekToFirst()
      requires Ok()
      modifies this
      ensures Ok() && pos == 0
    {
      hide Stores;
      StoresFacts(data, restarts, numRestarts, items, points);
      SeekToRestartPoint(0);
      var ok := ParseNextKey(0);
    }

    /** Reads entries from `from` on until one ends at or past `limit`, the offset of entry `end`. */
    method ParseUpTo(ghost from: nat, limit: nat, ghost end: nat)
      requires Block() && Ready(from) && from <= end <= |items| && limit == Offset(items, end) && (from == end ==> |items| == 0)
      modifies this
      ensures Ok() && pos == if end == 0 then 0 else end - 1
    {
      hide Stores, Offset;
      ghost var i := from;
      while true
        invariant Block() && Ready(i) && from <= i && (i < end || |items| == 0)
        decreases end - i
      {
        var ok := ParseNextKey(i);
        if ok {
          ReadyForNext(i);
          OffsetsOrdered(items, i + 1, end);
        }
        if !ok || NextEntryOffset() >= limit {
          return;
        }
        i := i + 1;
      }
    }

    method SeekToLast()
      requires Ok()
      modifies this
      ensures Ok() && pos == if |items| == 0 then 0 else |items| - 1
    {
      hide Stores, Offset;
      StoresFacts(data, restarts, numRestarts, items, points);
      var index := numRestarts - 1;
      SeekToRestartPoint(index);
      ParseUpTo(points[index], restarts, |items|);
    }

    method Prev()
      requires Ok() && pos < |items|
      modifies this
      ensures Ok() && pos == if old(pos) == 0 then |items| else old(pos) - 1
    {
      hide Stores, Offset;
      StoresFacts(data, restarts, numRestarts, items, points);
      var original := current;
      ghost var was := pos;
      while true
        invariant Block() && Indexed(was) && current == original && pos == was
        decreases restartIndex
      {
        var offset := GetRestartPoint(restartIndex);
        OffsetsOrdered(items, points[restartIndex], was);
        if offset < original {
          break;
        }
        if restartIndex == 0 {
          current := restarts;
          restartIndex := numRestarts;
          pos := |items|;
          return;
        }
        restartIndex := restartIndex - 1;
      }
      ghost var index := restartIndex;
      SeekToRestartPoint(restartIndex);
      ParseUpTo(points[index], original, was);
    }

    /** The key of the entry at a restart point. */
    method KeyAtRestart(index: nat) returns (k: Bytes)
      requires Block() && index < numRestarts == |points| && points[index] < |items|
      ensures k == items[points[index]].key
    {
      hide Stores, Offset, ParseEntry, Delta;
      StoresFacts(data, restarts, numRestarts, items, points);
      ghost var i := points[index];
      var offset := GetRestartPoint(index);
      ghost var rest := ReadsEntry(data, restarts, numRestarts, items, points, i);
      var p := DecodeEntry(data[offset..restarts]);
      if p == None || p.value.shared != 0 {
        assert false;    // a corrupt block: not one that a builder wrote
      }
      KeyRebuilt(items[i], [], p.value.rest, rest);
      k := p.value.rest[..p.value.nonShared];
    }

    /** The binary search of Seek: a restart point whose key is before `target`, or
        the first one, such that no later one is. */
    method LastRestartBefore(target: Bytes) returns (left: nat)
      requires Block() && Cuts(lt, items, target)
      ensures left < numRestarts == |points| && points[left] <= |items|
      ensures left > 0 ==> points[left] < |items| && lt(items[points[left]].key, target)
      ensures forall j :: left < j < numRestarts ==> points[j] < |items| && !lt(items[points[j]].key, target)
    {
      hide Stores, Cuts;
      StoresFacts(data, restarts, numRestarts, items, points);
      left := 0;
      var right := numRestarts - 1;
      while left < right
        invariant 0 <= left <= right < numRestarts
        invariant left > 0 ==> lt(items[points[left]].key, target)
        invariant forall j :: right < j < numRestarts ==> !lt(items[points[j]].key, target)
      {
        var mid := (left + right + 1) / 2;
        var midKey := KeyAtRestart(mid);
        if lt(midKey, target) {
          left := mid;
        } else {
          PointsAfter(lt, items, points, target, mid);
          right := mid - 1;
        }
      }
    }

    method Seek(target: Bytes)
      requires Ok() && Cuts(lt, items, target)
      modifies this
      ensures Ok()
      ensures forall k :: 0 <= k < pos ==> lt(items[k].key, target)
      ensures pos < |items| ==> !lt(items[pos].key, target)
    {
      hide Stores, Offset;
      StoresFacts(data, restarts, numRestarts, items, points);
      var left := LastRestartBefore(target);
      SeekToRestartPoint(left);
      ghost var i := points[left];
      while true
        invariant Block() && Ready(i)
        invariant forall k :: 0 <= k < i ==> lt(items[k].key, target)
        decreases |items| - i
      {
        var ok := ParseNextKey(i);
        if !ok {
          return;
        }
        if !lt(key, target) {
          return;
        }
        ReadyForNext(i);
        i := i + 1;
      }
    }
  }

  /** What ParseNextKey makes of the stored entry `i`: its key, where its value is, and
      where the next entry begins. */
  lemma EntryLoads(data: Bytes, restarts: nat, numRestarts: nat, items: seq<Item>, points: seq<nat>, i: nat, key: Bytes)
    requires Stores(data, restarts, numRestarts, items, points) && i < |items|
    requires items[i].shared <= |items[i].key| && items[i].shared <= |key| && key[..items[i].shared] == items[i].key[..items[i].shared]
    ensures Offset(items, i) <= restarts <= |data| && Offset(items, i + 1) <= restarts
    ensures var p := ParseEntry(data[Offset(items, i)..restarts]);
            && p.Some? && p.value.shared == items[i].shared && p.value.nonShared + p.value.valueLength <= |p.value.rest| <= restarts
            && key[..p.value.shared] + p.value.rest[..p.value.nonShared] == items[i].key
            && var start := restarts - |p.value.rest| + p.value.nonShared;
               start + p.value.valueLength == Offset(items, i + 1) && data[start..start + p.value.valueLength] == items[i].value
  {
    hide Stores, Offset, ParseEntry, Delta;
    var rest := ReadsEntry(data, restarts, numRestarts, items, points, i);
    var current := Offset(items, i);
    ParseLeavesSuffix(data[current..restarts]);
    var p := ParseEntry(data[current..restarts]).value;
    KeyRebuilt(items[i], key, p.rest, rest);
    ValueInPlace(data, restarts, current, p.rest, p.nonShared, p.valueLength);
  }

  /** The shared part of the key before and the stored part make the key. */
  lemma KeyRebuilt(it: Item, key: Bytes, stored: Bytes, rest: Bytes)
    requires it.shared <= |it.key| && it.shared <= |key| && key[..it.shared] == it.key[..it.shared]
    requires stored == Delta(it) + it.value + rest
    ensures key[..it.shared] + stored[..|Delta(it)|] == it.key
    ensures stored[|Delta(it)|..|Delta(it)| + |it.value|] == it.value
  {
    assert stored[..|Delta(it)|] == Delta(it);
    assert it.key == it.key[..it.shared] + it.key[it.shared..];
  }

  // ----- builder and iterator together

  /** The constructor of Block: where the restart array begins, and how many restart points there are. */
  function OpenBlock(contents: Bytes): Option<(nat, nat)> {
    if |contents| < 4 then None
    else
      var n := DecodeFixed32(contents[|contents| - 4..]);
      if n > (|contents| - 4) / 4 then None else Some((|contents| - (1 + n) * 4, n))
  }

  lemma OpensContents(items: seq<Item>, points: seq<nat>)
    requires ItemsOk(items) && PointsOk(items, points)
    requires (forall j :: 0 <= j < |points| ==> points[j] <= |items|) && |Contents(items, points)| < WORD32
    ensures OpenBlock(Contents(items, points)) == Some((Offset(items, |items|), |points|))
  {
    hide RestartArray, Data;
    ContentsStore(items, points);
  }

  /** What is stored under the keys. */
  ghost predicate Holds(items: seq<Item>, pairs: seq<(Bytes, Bytes)>) {
    |items| == |pairs| && forall i :: 0 <= i < |items| ==> items[i].key == pairs[i].0 && items[i].value == pairs[i].1
  }

  method BuildBlock(pairs: seq<(Bytes, Bytes)>, interval: nat) returns (block: Bytes, ghost items: seq<Item>, ghost points: seq<nat>)
    requires interval >= 1 && forall p :: p in pairs ==> |p.0| < WORD32 && |p.1| < WORD32
    ensures Laid(items, points, interval) && PointsOk(items, points) && (forall j :: 0 <= j < |points| ==> points[j] <= |items|)
    ensures block == Contents(items, points) && Holds(items, pairs)
  {
    hide *;
    var b := new BlockBuilder(interval);
    NothingHeld();
    for i := 0 to |pairs|
      invariant b.Open() && b.interval == interval && Holds(b.items, pairs[..i])
    {
      ghost var was := b.items;
      HeldCount(was, pairs[..i]);
      b.Add(pairs[i].0, pairs[i].1);
      HoldsGrows(was, b.items, pairs, i);
    }
    assert pairs[..|pairs|] == pairs;
    block := b.Finish();
    items, points := b.items, b.points;
    PointsInRange(items, points);
  }

  lemma NothingHeld()
    ensures Holds([], [])
  {
  }

  lemma HoldsGrows(was: seq<Item>, items: seq<Item>, pairs: seq<(Bytes, Bytes)>, i: nat)
    requires i < |pairs| && Holds(was, pairs[..i]) && |items| == i + 1 && items[..i] == was
    requires items[i].key == pairs[i].0 && items[i].value == pairs[i].1
    ensures Holds(items, pairs[..i + 1])
  {
    forall k | 0 <= k < i + 1
      ensures items[k].key == pairs[k].0 && items[k].value == pairs[k].1
    {
      if k < i {
        assert items[k] == was[k] && pairs[..i][k] == pairs[k];
      }
    }
  }

  /** Scans a block from its first entry to its last. */
  method ScanBlock(it: Iter, ghost pairs: seq<(Bytes, Bytes)>) returns (read: seq<(Bytes, Bytes)>)
    requires it.Ok() && Holds(it.items, pairs)
    modifies it
    ensures it.Ok() && read == pairs
  {
    hide *;
    it.SeekToFirst();
    var more := it.Valid();
    read := [];
    HeldCount(it.items, pairs);
    while more
      invariant it.Ok() && it.pos <= |pairs| && (more <==> it.pos < |pairs|) && read == pairs[..it.pos]
      decreases |pairs| - it.pos
    {
      var key, value := it.Current();
      HeldAt(it.items, pairs, it.pos);
      read := read + [(key, value)];
      it.Next();
      more := it.Valid();
    }
  }

  lemma HeldCount(items: seq<Item>, pairs: seq<(Bytes, Bytes)>)
    requires Holds(items, pairs)
    ensures |items| == |pairs|
  {
  }

  lemma HeldAt(items: seq<Item>, pairs: seq<(Bytes, Bytes)>, i: nat)
    requires Holds(items, pairs) && i < |items|
    ensures i < |pairs| && (items[i].key, items[i].value) == pairs[i]
  {
  }

  /** A built block that is shorter than 4 GB is read back as the pairs added to it,
      whatever the restart interval. */
  method BuildAndScan(pairs: seq<(Bytes, Bytes)>, interval: nat, lt: (Bytes, Bytes) -> bool)
    returns (block: Bytes, read: seq<(Bytes, Bytes)>)
    requires interval >= 1 && forall p :: p in pairs ==> |p.0| < WORD32 && |p.1| < WORD32
    ensures |block| < WORD32 ==> read == pairs
  {
    hide *;
    ghost var items, points;
    read := [];
    block, items, points := BuildBlock(pairs, interval);
    if |block| >= WORD32 {
      return;
    }
    LaidIsOk(items, points, interval);
    OpensContents(items, points);
    ContentsStore(items, points);
    var shape := OpenBlock(block).value;
    var it := new Iter(lt, block, shape.0, shape.1, items, points);
    read := ScanBlock(it, pairs);
  }

  lemma LaidIsOk(items: seq<Item>, points: seq<nat>, interval: nat)
    requires Laid(items, points, interval)
    ensures ItemsOk(items) && PointsOk(items, points)
  {
  }
}
