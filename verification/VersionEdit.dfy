/** A change to the set of files as the MANIFEST stores it (`db/version_edit.cc`):
    fields with a tag each, one after the other. */
module VersionEdit {
  import opened Keys
  import opened Coding

  /** One field. Keys are encoded internal keys. */
  datatype Item =
    | Comparator(name: Bytes)
    | LogNumber(number: nat)
    | PrevLogNumber(number: nat)
    | NextFileNumber(number: nat)
    | LastSequence(number: nat)
    | CompactPointer(level: nat, key: Bytes)
    | DeletedFile(level: nat, number: nat)
    | NewFile(level: nat, number: nat, size: nat, smallest: Bytes, largest: Bytes)

  const WORD: nat := 0x1_0000_0000
  const LONG: nat := 0x1_0000_0000_0000_0000

  /** A string whose length 32 bits can hold; an internal key is never empty. */
  predicate IsString(s: Bytes) {
    |s| < WORD
  }

  predicate IsKey(k: Bytes) {
    k != [] && |k| < WORD
  }

  /** What the types and the levels of the engine allow. */
  predicate Storable(item: Item) {
    match item
    case Comparator(name) => IsString(name)
    case CompactPointer(level, key) => level < NUM_LEVELS && IsKey(key)
    case DeletedFile(level, number) => level < NUM_LEVELS && number < LONG
    case NewFile(level, number, size, smallest, largest) =>
      level < NUM_LEVELS && number < LONG && size < LONG && IsKey(smallest) && IsKey(largest)
    case _ => item.number < LONG
  }

  function TagOf(item: Item): (tag: nat)
    ensures 1 <= tag <= 9
  {
    match item
    case Comparator(_) => 1
    case LogNumber(_) => 2
    case NextFileNumber(_) => 3
    case LastSequence(_) => 4
    case CompactPointer(_, _) => 5
    case DeletedFile(_, _) => 6
    case NewFile(_, _, _, _, _) => 7
    case PrevLogNumber(_) => 9
  }

  function Body(item: Item): Bytes {
    match item
    case Comparator(name) => LengthPrefixed(name)
    case CompactPointer(level, key) => Varint(level) + LengthPrefixed(key)
    case DeletedFile(level, number) => Varint(level) + Varint(number)
    case NewFile(level, number, size, smallest, largest) =>
      Varint(level) + (Varint(number) + (Varint(size) + (LengthPrefixed(smallest) + LengthPrefixed(largest))))
    case _ => Varint(item.number)
  }

  function Encode(item: Item): Bytes {
    Varint(TagOf(item)) + Body(item)
  }

  function EncodeAll(items: seq<Item>): Bytes {
    if items == [] then [] else EncodeAll(items[..|items| - 1]) + Encode(items[|items| - 1])
  }

  // ----- reading

  function GetWord(data: Bytes): Option<(nat, Bytes)> {
    match ParseVarint(data, 5)
    case None => None
    case Some(p) => Some((p.0 % WORD, p.1))
  }

  function GetLong(data: Bytes): Option<(nat, Bytes)> {
    match ParseVarint(data, 10)
    case None => None
    case Some(p) => Some((p.0 % LONG, p.1))
  }

  function GetLevel(data: Bytes): Option<(nat, Bytes)> {
    var p := GetWord(data);
    if p.Some? && p.value.0 < NUM_LEVELS then p else None
  }

  /** GetInternalKey: an empty string is no key. */
  function GetKey(data: Bytes): Option<(Bytes, Bytes)> {
    var p := ParseLengthPrefixed(data);
    if p.Some? && p.value.0 != [] then p else None
  }

  function Then<T, U>(p: Option<(T, Bytes)>, f: (T, Bytes) -> Option<(U, Bytes)>): Option<(U, Bytes)> {
    match p
    case None => None
    case Some(v) => f(v.0, v.1)
  }

  function ParseBody(tag: nat, data: Bytes): Option<(Item, Bytes)> {
    if tag == 1 then Then(ParseLengthPrefixed(data), (s, r) => Some((Comparator(s), r)))
    else if tag == 2 then Then(GetLong(data), (n, r) => Some((LogNumber(n), r)))
    else if tag == 9 then Then(GetLong(data), (n, r) => Some((PrevLogNumber(n), r)))
    else if tag == 3 then Then(GetLong(data), (n, r) => Some((NextFileNumber(n), r)))
    else if tag == 4 then Then(GetLong(data), (n, r) => Some((LastSequence(n), r)))
    else if tag == 5 then
      Then(GetLevel(data), (l, r) => Then(GetKey(r), (k, r) => Some((CompactPointer(l, k), r))))
    else if tag == 6 then
      Then(GetLevel(data), (l, r) => Then(GetLong(r), (n, r) => Some((DeletedFile(l, n), r))))
    else if tag == 7 then
      Then(GetLevel(data), (l, r) => Then(GetLong(r), (n, r) => Then(GetLong(r), (s, r) => ParseBounds(l, n, s, r))))
    else None
  }

  function ParseBounds(level: nat, number: nat, size: nat, data: Bytes): Option<(Item, Bytes)> {
    Then(GetKey(data), (a, r) => Then(GetKey(r), (b, r) => Some((NewFile(level, number, size, a, b), r))))
  }

  function ParseItem(data: Bytes): Option<(Item, Bytes)> {
    Then(GetWord(data), (tag, r) => ParseBody(tag, r))
  }

  lemma ItemConsumes(data: Bytes)
    ensures ParseItem(data).Some? ==> |ParseItem(data).value.1| < |data|
  {
    hide ParseVarint;
    WordConsumes(data);
    var p := GetWord(data);
    if p.Some? {
      BodyConsumes(p.value.0, p.value.1);
    }
  }

  lemma WordConsumes(data: Bytes)
    ensures GetWord(data).Some? ==> |GetWord(data).value.1| < |data|
    ensures GetLong(data).Some? ==> |GetLong(data).value.1| < |data|
    ensures ParseLengthPrefixed(data).Some? ==> |ParseLengthPrefixed(data).value.1| < |data|
  {
    hide ParseVarint;
    VarintConsumes(data, 5);
    VarintConsumes(data, 10);
    PrefixedConsumes(data);
  }

  lemma BodyConsumes(tag: nat, data: Bytes)
    ensures ParseBody(tag, data).Some? ==> |ParseBody(tag, data).value.1| < |data|
  {
    hide ParseLengthPrefixed, GetWord, GetLong;
    forall d: Bytes ensures GetWord(d).Some? ==> |GetWord(d).value.1| < |d| { WordConsumes(d); }
    forall d: Bytes ensures GetLong(d).Some? ==> |GetLong(d).value.1| < |d| { WordConsumes(d); }
    forall d: Bytes ensures ParseLengthPrefixed(d).Some? ==> |ParseLengthPrefixed(d).value.1| < |d| { WordConsumes(d); }
  }

  /** The fields up to the end of the string, or up to the first that cannot be read. */
  function ParseItems(data: Bytes): (seq<Item>, bool)
    decreases |data|
  {
    if data == [] then ([], true)
    else
      ItemConsumes(data);
      match ParseItem(data)
      case None => ([], false)
      case Some(p) =>
        var r := ParseItems(p.1);
        ([p.0] + r.0, r.1)
  }

  // ----- what is written is read back

  lemma WordRoundTrip(v: nat, rest: Bytes)
    requires v < WORD
    ensures GetWord(Varint(v) + rest) == Some((v, rest))
    ensures v < NUM_LEVELS ==> GetLevel(Varint(v) + rest) == Some((v, rest))
  {
    hide ParseVarint, Varint;
    Varint32RoundTrip(v, rest);
  }

  lemma LongRoundTrip(v: nat, rest: Bytes)
    requires v < LONG
    ensures GetLong(Varint(v) + rest) == Some((v, rest))
  {
    hide ParseVarint, Varint;
    Varint64RoundTrip(v, rest);
  }

  lemma KeyRoundTrip(k: Bytes, rest: Bytes)
    requires IsKey(k)
    ensures GetKey(LengthPrefixed(k) + rest) == Some((k, rest))
  {
    hide ParseLengthPrefixed, LengthPrefixed;
    LengthPrefixedRoundTrip(k, rest);
  }

  lemma BodyRoundTrip(item: Item, rest: Bytes)
    requires Storable(item)
    ensures ParseBody(TagOf(item), Body(item) + rest) == Some((item, rest))
  {
    hide ParseLengthPrefixed, LengthPrefixed, GetLevel, GetWord, GetLong, GetKey, Varint, ParseBounds;
    match item
    case Comparator(name) =>
      LengthPrefixedRoundTrip(name, rest);
    case CompactPointer(level, key) =>
      ConcatAssoc(Varint(level), LengthPrefixed(key), rest);
      WordRoundTrip(level, LengthPrefixed(key) + rest);
      KeyRoundTrip(key, rest);
    case DeletedFile(level, number) =>
      ConcatAssoc(Varint(level), Varint(number), rest);
      WordRoundTrip(level, Varint(number) + rest);
      LongRoundTrip(number, rest);
    case NewFile(level, number, size, smallest, largest) =>
      NewFileRoundTrip(item, rest);
    case _ =>
      LongRoundTrip(item.number, rest);
  }

  lemma NewFileRoundTrip(item: Item, rest: Bytes)
    requires Storable(item) && item.NewFile?
    ensures ParseBody(7, Body(item) + rest) == Some((item, rest))
  {
    hide ParseLengthPrefixed, LengthPrefixed, GetLevel, GetWord, GetLong, GetKey, Varint;
    var keys := LengthPrefixed(item.smallest) + LengthPrefixed(item.largest);
    var sized := Varint(item.size) + keys;
    var numbered := Varint(item.number) + sized;
    ConcatAssoc(Varint(item.level), numbered, rest);
    ConcatAssoc(Varint(item.number), sized, rest);
    ConcatAssoc(Varint(item.size), keys, rest);
    ConcatAssoc(LengthPrefixed(item.smallest), LengthPrefixed(item.largest), rest);
    WordRoundTrip(item.level, numbered + rest);
    LongRoundTrip(item.number, sized + rest);
    LongRoundTrip(item.size, keys + rest);
    KeyRoundTrip(item.smallest, LengthPrefixed(item.largest) + rest);
    KeyRoundTrip(item.largest, rest);
  }

  lemma ItemRoundTrip(item: Item, rest: Bytes)
    requires Storable(item)
    ensures ParseItem(Encode(item) + rest) == Some((item, rest))
  {
    hide ParseBody, Body, GetWord, Varint;
    ConcatAssoc(Varint(TagOf(item)), Body(item), rest);
    WordRoundTrip(TagOf(item), Body(item) + rest);
    BodyRoundTrip(item, rest);
  }

  lemma {:induction false} EncodeConcat(a: seq<Item>, b: seq<Item>)
    ensures EncodeAll(a + b) == EncodeAll(a) + EncodeAll(b)
  {
    if b == [] {
      assert a + b == a && EncodeAll(a) + EncodeAll(b) == EncodeAll(a);
    } else {
      var last := |b| - 1;
      EncodeConcat(a, b[..last]);
      assert (a + b)[..|a + b| - 1] == a + b[..last] && (a + b)[|a + b| - 1] == b[last];
      ConcatAssoc(EncodeAll(a), EncodeAll(b[..last]), Encode(b[last]));
    }
  }

  lemma EncodeOne(item: Item)
    ensures EncodeAll([item]) == Encode(item)
  {
    assert [item][..0] == [] && EncodeAll([]) == [];
    assert EncodeAll([]) + Encode(item) == Encode(item);
  }

  lemma {:induction false} ItemsRoundTrip(items: seq<Item>)
    requires forall item :: item in items ==> Storable(item)
    ensures ParseItems(EncodeAll(items)) == (items, true)
  {
    hide ParseItem, Encode;
    if items != [] {
      ItemsRoundTrip(items[1..]);
      assert items == [items[0]] + items[1..];
      EncodeConcat([items[0]], items[1..]);
      EncodeOne(items[0]);
      ItemRoundTrip(items[0], EncodeAll(items[1..]));
      ItemConsumes(EncodeAll(items));
    }
  }

  // ----- the edit

  datatype Fields = Fields(
    comparator: Option<Bytes>, logNumber: Option<nat>, prevLogNumber: Option<nat>, nextFileNumber: Option<nat>,
    lastSequence: Option<nat>, compactPointers: seq<(nat, Bytes)>, deletedFiles: seq<(nat, nat)>, newFiles: seq<Item>)

  predicate Less(a: (nat, nat), b: (nat, nat)) {
    a.0 < b.0 || (a.0 == b.0 && a.1 < b.1)
  }

  /** The set of deleted files, in the order it is gone through. */
  predicate Ordered(d: seq<(nat, nat)>) {
    forall i, j :: 0 <= i < j < |d| ==> Less(d[i], d[j])
  }

  function WithFile(d: seq<(nat, nat)>, x: (nat, nat)): seq<(nat, nat)> {
    if d == [] || Less(x, d[0]) then [x] + d
    else if x == d[0] then d
    else [d[0]] + WithFile(d[1..], x)
  }

  lemma {:induction false} WithFileHolds(d: seq<(nat, nat)>, x: (nat, nat))
    requires Ordered(d)
    ensures Ordered(WithFile(d, x)) && forall y :: y in WithFile(d, x) <==> y in d || y == x
  {
    if d != [] && !Less(x, d[0]) && x != d[0] {
      WithFileHolds(d[1..], x);
      var r := WithFile(d[1..], x);
      assert WithFile(d, x) == [d[0]] + r && forall y :: y in r <==> y in d[1..] || y == x;
      assert d == [d[0]] + d[1..];
      forall k | 0 <= k < |r| ensures Less(d[0], r[k]) {
        assert r[k] in r;
      }
    }
  }

  lemma {:induction false} WithFileLast(d: seq<(nat, nat)>, x: (nat, nat))
    requires Ordered(d + [x])
    ensures WithFile(d, x) == d + [x]
  {
    if d != [] {
      assert Less(d[0], x) by { assert (d + [x])[0] == d[0] && (d + [x])[|d|] == x; }
      assert Ordered(d[1..] + [x]) by {
        assert d[1..] + [x] == (d + [x])[1..];
      }
      WithFileLast(d[1..], x);
    }
  }

  function Apply(e: Fields, item: Item): Fields {
    match item
    case Comparator(name) => e.(comparator := Some(name))
    case LogNumber(n) => e.(logNumber := Some(n))
    case PrevLogNumber(n) => e.(prevLogNumber := Some(n))
    case NextFileNumber(n) => e.(nextFileNumber := Some(n))
    case LastSequence(n) => e.(lastSequence := Some(n))
    case CompactPointer(level, key) => e.(compactPointers := e.compactPointers + [(level, key)])
    case DeletedFile(level, number) => e.(deletedFiles := WithFile(e.deletedFiles, (level, number)))
    case NewFile(_, _, _, _, _) => e.(newFiles := e.newFiles + [item])
  }

  function ApplyAll(e: Fields, items: seq<Item>): Fields {
    if items == [] then e else Apply(ApplyAll(e, items[..|items| - 1]), items[|items| - 1])
  }

  /** Clear leaves the compaction pointers. */
  function Cleared(e: Fields): Fields {
    Fields(None, None, None, None, None, e.compactPointers, [], [])
  }

  function Maybe(has: bool, item: Item): seq<Item> {
    if has then [item] else []
  }

  function Get(v: Option<nat>): nat {
    if v.Some? then v.value else 0
  }

  function Name(v: Option<Bytes>): Bytes {
    if v.Some? then v.value else []
  }

  function Scalars(e: Fields): seq<Item> {
    Maybe(e.comparator.Some?, Comparator(Name(e.comparator))) + Maybe(e.logNumber.Some?, LogNumber(Get(e.logNumber)))
    + Maybe(e.prevLogNumber.Some?, PrevLogNumber(Get(e.prevLogNumber)))
    + Maybe(e.nextFileNumber.Some?, NextFileNumber(Get(e.nextFileNumber)))
    + Maybe(e.lastSequence.Some?, LastSequence(Get(e.lastSequence)))
  }

  function Pointers(ps: seq<(nat, Bytes)>): (r: seq<Item>)
    ensures |r| == |ps| && forall i :: 0 <= i < |r| ==> r[i] == CompactPointer(ps[i].0, ps[i].1)
  {
    seq(|ps|, i requires 0 <= i < |ps| => CompactPointer(ps[i].0, ps[i].1))
  }

  function Deletions(d: seq<(nat, nat)>): (r: seq<Item>)
    ensures |r| == |d| && forall i :: 0 <= i < |r| ==> r[i] == DeletedFile(d[i].0, d[i].1)
  {
    seq(|d|, i requires 0 <= i < |d| => DeletedFile(d[i].0, d[i].1))
  }

  /** The fields in the order EncodeTo writes them. */
  function ItemsOf(e: Fields): seq<Item> {
    Scalars(e) + Pointers(e.compactPointers) + Deletions(e.deletedFiles) + e.newFiles
  }

  /** What the callers of the setters see to: every field can be stored. */
  ghost predicate IsEdit(e: Fields) {
    && (forall item :: item in ItemsOf(e) ==> Storable(item)) && Ordered(e.deletedFiles)
    && forall item :: item in e.newFiles ==> item.NewFile?
  }

  lemma {:induction false} ApplyConcat(e: Fields, a: seq<Item>, b: seq<Item>)
    ensures ApplyAll(e, a + b) == ApplyAll(ApplyAll(e, a), b)
  {
    if b == [] {
      assert a + b == a;
    } else {
      var last := |b| - 1;
      ApplyConcat(e, a, b[..last]);
      assert (a + b)[..|a + b| - 1] == a + b[..last] && (a + b)[|a + b| - 1] == b[last];
    }
  }

  lemma {:induction false} ApplyPointers(e: Fields, ps: seq<(nat, Bytes)>)
    ensures ApplyAll(e, Pointers(ps)) == e.(compactPointers := e.compactPointers + ps)
  {
    if ps != [] {
      var last := |ps| - 1;
      ApplyPointers(e, ps[..last]);
      assert Pointers(ps)[..last] == Pointers(ps[..last]);
      assert ps == ps[..last] + [ps[last]];
    }
  }

  lemma {:induction false} ApplyDeletions(e: Fields, d: seq<(nat, nat)>)
    requires Ordered(d) && e.deletedFiles == []
    ensures ApplyAll(e, Deletions(d)) == e.(deletedFiles := d)
  {
    if d != [] {
      var last := |d| - 1;
      ApplyDeletions(e, d[..last]);
      assert Deletions(d)[..last] == Deletions(d[..last]);
      assert d == d[..last] + [d[last]];
      WithFileLast(d[..last], d[last]);
    }
  }

  lemma {:induction false} ApplyNewFiles(e: Fields, files: seq<Item>)
    requires forall item :: item in files ==> item.NewFile?
    ensures ApplyAll(e, files) == e.(newFiles := e.newFiles + files)
  {
    if files != [] {
      var last := |files| - 1;
      ApplyNewFiles(e, files[..last]);
      assert files[last] in files && e.newFiles + files == e.newFiles + files[..last] + [files[last]];
    }
  }

  lemma ApplyMaybe(e: Fields, has: bool, item: Item)
    ensures ApplyAll(e, Maybe(has, item)) == if has then Apply(e, item) else e
  {
    if has {
      assert [item][..0] == [];
    }
  }

  lemma ApplyScalars(e: Fields, x: Fields)
    requires e == Cleared(e)
    ensures ApplyAll(e, Scalars(x)) == x.(compactPointers := e.compactPointers, deletedFiles := [], newFiles := [])
  {
    hide ApplyAll, Maybe;
    var name, log, prev := Comparator(Name(x.comparator)), LogNumber(Get(x.logNumber)), PrevLogNumber(Get(x.prevLogNumber));
    var next, last := NextFileNumber(Get(x.nextFileNumber)), LastSequence(Get(x.lastSequence));
    ApplyFive(e, Maybe(x.comparator.Some?, name), Maybe(x.logNumber.Some?, log), Maybe(x.prevLogNumber.Some?, prev),
              Maybe(x.nextFileNumber.Some?, next), Maybe(x.lastSequence.Some?, last));
    ApplyMaybe(e, x.comparator.Some?, name);
    var e1 := e.(comparator := x.comparator);
    ApplyMaybe(e1, x.logNumber.Some?, log);
    var e2 := e1.(logNumber := x.logNumber);
    ApplyMaybe(e2, x.prevLogNumber.Some?, prev);
    var e3 := e2.(prevLogNumber := x.prevLogNumber);
    ApplyMaybe(e3, x.nextFileNumber.Some?, next);
    var e4 := e3.(nextFileNumber := x.nextFileNumber);
    ApplyMaybe(e4, x.lastSequence.Some?, last);
  }

  lemma ApplyFive(e: Fields, a: seq<Item>, b: seq<Item>, c: seq<Item>, d: seq<Item>, f: seq<Item>)
    ensures ApplyAll(e, a + b + c + d + f) == ApplyAll(ApplyAll(ApplyAll(ApplyAll(ApplyAll(e, a), b), c), d), f)
  {
    hide ApplyAll;
    ApplyConcat(e, a + b + c + d, f);
    ApplyConcat(e, a + b + c, d);
    ApplyConcat(e, a + b, c);
    ApplyConcat(e, a, b);
  }

  /** The fields of an edit, applied to what Clear leaves, give the edit. Compaction
      pointers that were there before stay in front. */
  lemma ItemsRebuild(e: Fields, x: Fields)
    requires IsEdit(x) && e == Cleared(e)
    ensures ApplyAll(e, ItemsOf(x)) == x.(compactPointers := e.compactPointers + x.compactPointers)
  {
    hide ApplyAll, Scalars, Storable;
    var s, p, d := Scalars(x), Pointers(x.compactPointers), Deletions(x.deletedFiles);
    ApplyConcat(e, s + p + d, x.newFiles);
    ApplyConcat(e, s + p, d);
    ApplyConcat(e, s, p);
    ApplyScalars(e, x);
    ApplyPointers(ApplyAll(e, s), x.compactPointers);
    ApplyDeletions(ApplyAll(e, s + p), x.deletedFiles);
    ApplyNewFiles(ApplyAll(e, s + p + d), x.newFiles);
  }

  /** Decoding an encoded edit gives the edit back, for a fresh one; into an edit with
      compaction pointers it adds them. So it is exact if and only if there were none. */
  lemma EditRoundTrip(old': Fields, x: Fields)
    requires IsEdit(x)
    ensures var p := ParseItems(EncodeAll(ItemsOf(x)));
            && p.1 && ApplyAll(Cleared(old'), p.0) == x.(compactPointers := old'.compactPointers + x.compactPointers)
            && (ApplyAll(Cleared(old'), p.0) == x <==> old'.compactPointers == [])
  {
    hide ItemsOf, ApplyAll, EncodeAll, ParseItems;
    ItemsRoundTrip(ItemsOf(x));
    ItemsRebuild(Cleared(old'), x);
    if old'.compactPointers == [] {
      assert old'.compactPointers + x.compactPointers == x.compactPointers;
    } else {
      assert |old'.compactPointers + x.compactPointers| > |x.compactPointers|;
    }
  }

  class VersionEdit {
    var comparator: Option<Bytes>
    var logNumber: Option<nat>
    var prevLogNumber: Option<nat>
    var nextFileNumber: Option<nat>
    var lastSequence: Option<nat>
    var compactPointers: seq<(nat, Bytes)>
    var deletedFiles: seq<(nat, nat)>
    var newFiles: seq<Item>

    ghost function Contents(): Fields
      reads this
    {
      Fields(comparator, logNumber, prevLogNumber, nextFileNumber, lastSequence, compactPointers, deletedFiles, newFiles)
    }

    constructor ()
      ensures Contents() == Fields(None, None, None, None, None, [], [], [])
    {
      comparator, logNumber, prevLogNumber, nextFileNumber, lastSequence := None, None, None, None, None;
      compactPointers, deletedFiles, newFiles := [], [], [];
    }

    /** Clear: everything but the compaction pointers. */
    method Clear()
      modifies this
      ensures Contents() == Cleared(old(Contents()))
    {
      comparator, logNumber, prevLogNumber, nextFileNumber, lastSequence := None, None, None, None, None;
      deletedFiles, newFiles := [], [];
    }

    /** RemoveFile. */
    method RemoveFile(level: nat, number: nat)
      requires level < NUM_LEVELS && number < LONG && IsEdit(Contents())
      modifies this`deletedFiles
      ensures IsEdit(Contents()) && forall y :: y in deletedFiles <==> y in old(deletedFiles) || y == (level, number)
    {
      WithFileHolds(deletedFiles, (level, number));
      deletedFiles := WithFile(deletedFiles, (level, number));
      StillEdit(old(Contents()), Contents());
    }

    /** AddFile. */
    method AddFile(level: nat, number: nat, size: nat, smallest: Bytes, largest: Bytes)
      requires level < NUM_LEVELS && number < LONG && size < LONG && IsKey(smallest) && IsKey(largest) && IsEdit(Contents())
      modifies this`newFiles
      ensures IsEdit(Contents()) && newFiles == old(newFiles) + [NewFile(level, number, size, smallest, largest)]
    {
      newFiles := newFiles + [NewFile(level, number, size, smallest, largest)];
      StillEdit(old(Contents()), Contents());
    }

    /** The first half of EncodeTo. */
    method EncodeScalars(dst: Bytes) returns (r: Bytes)
      ensures r == dst + EncodeAll(Scalars(Contents()))
    {
      hide EncodeAll, Encode, Maybe;
      r := dst;
      ghost var r0 := r;
      if comparator.Some? {
        r := r + Encode(Comparator(comparator.value));
      }
      ghost var a := Maybe(comparator.Some?, Comparator(Name(comparator)));
      MaybeEncoded(r0, r, comparator.Some?, Comparator(Name(comparator)));
      r0 := r;
      if logNumber.Some? {
        r := r + Encode(LogNumber(logNumber.value));
      }
      ghost var b := Maybe(logNumber.Some?, LogNumber(Get(logNumber)));
      MaybeEncoded(r0, r, logNumber.Some?, LogNumber(Get(logNumber)));
      r0 := r;
      if prevLogNumber.Some? {
        r := r + Encode(PrevLogNumber(prevLogNumber.value));
      }
      ghost var c := Maybe(prevLogNumber.Some?, PrevLogNumber(Get(prevLogNumber)));
      MaybeEncoded(r0, r, prevLogNumber.Some?, PrevLogNumber(Get(prevLogNumber)));
      r0 := r;
      if nextFileNumber.Some? {
        r := r + Encode(NextFileNumber(nextFileNumber.value));
      }
      ghost var d := Maybe(nextFileNumber.Some?, NextFileNumber(Get(nextFileNumber)));
      MaybeEncoded(r0, r, nextFileNumber.Some?, NextFileNumber(Get(nextFileNumber)));
      r0 := r;
      if lastSequence.Some? {
        r := r + Encode(LastSequence(lastSequence.value));
      }
      ghost var f := Maybe(lastSequence.Some?, LastSequence(Get(lastSequence)));
      MaybeEncoded(r0, r, lastSequence.Some?, LastSequence(Get(lastSequence)));
      r0 := r;
      EncodeFive(dst, a, b, c, d, f);
    }

    /** EncodeTo: the fields, appended to a string. */
    method EncodeTo(dst: Bytes) returns (r: Bytes)
      ensures r == dst + EncodeAll(ItemsOf(Contents()))
    {
      hide EncodeAll, Encode, Scalars;
      ghost var done := Scalars(Contents());
      r := EncodeScalars(dst);
      assert done + Pointers(compactPointers)[..0] == done;
      for i := 0 to |compactPointers|
        invariant r == dst + EncodeAll(done + Pointers(compactPointers)[..i])
      {
        var item := CompactPointer(compactPointers[i].0, compactPointers[i].1);
        EncodeNext(dst, done + Pointers(compactPointers)[..i], item);
        assert done + Pointers(compactPointers)[..i + 1] == done + Pointers(compactPointers)[..i] + [item];
        r := r + Encode(item);
      }
      assert Pointers(compactPointers)[..|compactPointers|] == Pointers(compactPointers);
      done := done + Pointers(compactPointers);
      assert done + Deletions(deletedFiles)[..0] == done;
      for i := 0 to |deletedFiles|
        invariant r == dst + EncodeAll(done + Deletions(deletedFiles)[..i])
      {
        var item := DeletedFile(deletedFiles[i].0, deletedFiles[i].1);
        EncodeNext(dst, done + Deletions(deletedFiles)[..i], item);
        assert done + Deletions(deletedFiles)[..i + 1] == done + Deletions(deletedFiles)[..i] + [item];
        r := r + Encode(item);
      }
      assert Deletions(deletedFiles)[..|deletedFiles|] == Deletions(deletedFiles);
      done := done + Deletions(deletedFiles);
      assert done + newFiles[..0] == done;
      for i := 0 to |newFiles|
        invariant r == dst + EncodeAll(done + newFiles[..i])
      {
        EncodeNext(dst, done + newFiles[..i], newFiles[i]);
        assert done + newFiles[..i + 1] == done + newFiles[..i] + [newFiles[i]];
        r := r + Encode(newFiles[i]);
      }
      assert newFiles[..|newFiles|] == newFiles;
    }

    /** DecodeFrom: the fields are set one by one until the string ends or one of them
        cannot be read; what was set before that stays set. */
    method DecodeFrom(src: Bytes) returns (ok: bool)
      modifies this
      ensures var p := ParseItems(src);
              ok == p.1 && Contents() == ApplyAll(Cleared(old(Contents())), p.0)
    {
      hide ParseItem, ApplyAll, Apply;
      Clear();
      var input := src;
      ghost var start, done, all := Contents(), [], ParseItems(src);
      ApplyNothing(start);
      assert [] + all.0 == all.0;
      while input != []
        invariant Contents() == ApplyAll(start, done)
        invariant all.0 == done + ParseItems(input).0 && all.1 == ParseItems(input).1
        decreases |input|
      {
        ghost var rest := ParseItems(input);
        ItemConsumes(input);
        var p := ReadItem(input);
        if p.None? {
          assert done + [] == done;
          return false;
        }
        var item := p.value.0;
        ApplyNext(start, done, item);
        SetField(item);
        input := p.value.1;
        assert done + ([item] + ParseItems(input).0) == done + [item] + ParseItems(input).0;
        done := done + [item];
      }
      assert done + [] == done;
      ok := true;
    }

    /** What the cases of the switch store. */
    method SetField(item: Item)
      modifies this
      ensures Contents() == Apply(old(Contents()), item)
    {
      match item
      case Comparator(name) => comparator := Some(name);
      case LogNumber(n) => logNumber := Some(n);
      case PrevLogNumber(n) => prevLogNumber := Some(n);
      case NextFileNumber(n) => nextFileNumber := Some(n);
      case LastSequence(n) => lastSequence := Some(n);
      case CompactPointer(level, key) => compactPointers := compactPointers + [(level, key)];
      case DeletedFile(level, number) => deletedFiles := WithFile(deletedFiles, (level, number));
      case NewFile(_, _, _, _, _) => newFiles := newFiles + [item];
    }
  }

  /** What the cases of the switch read. */
  method ReadItem(data: Bytes) returns (r: Option<(Item, Bytes)>)
    ensures r == ParseItem(data)
  {
    hide ParseVarint, ParseLengthPrefixed;
    var tag := GetVarint32(data);
    if tag.None? {
      return None;
    }
    var input := tag.value.1;
    match tag.value.0
    case 1 =>
      var name := GetLengthPrefixedSlice(input);
      r := if name.Some? then Some((Comparator(name.value.0), name.value.1)) else None;
    case 2 =>
      var n := GetVarint64(input);
      r := if n.Some? then Some((LogNumber(n.value.0), n.value.1)) else None;
    case 9 =>
      var n := GetVarint64(input);
      r := if n.Some? then Some((PrevLogNumber(n.value.0), n.value.1)) else None;
    case 3 =>
      var n := GetVarint64(input);
      r := if n.Some? then Some((NextFileNumber(n.value.0), n.value.1)) else None;
    case 4 =>
      var n := GetVarint64(input);
      r := if n.Some? then Some((LastSequence(n.value.0), n.value.1)) else None;
    case 5 =>
      var level := ReadLevel(input);
      if level.None? {
        return None;
      }
      var key := ReadKey(level.value.1);
      r := if key.Some? then Some((CompactPointer(level.value.0, key.value.0), key.value.1)) else None;
    case 6 =>
      var level := ReadLevel(input);
      if level.None? {
        return None;
      }
      var n := GetVarint64(level.value.1);
      r := if n.Some? then Some((DeletedFile(level.value.0, n.value.0), n.value.1)) else None;
    case 7 =>
      r := ReadNewFile(input);
    case _ =>
      r := None;
  }

  method ReadNewFile(data: Bytes) returns (r: Option<(Item, Bytes)>)
    ensures r == ParseBody(7, data)
  {
    hide ParseVarint, ParseLengthPrefixed;
    var level := ReadLevel(data);
    if level.None? {
      return None;
    }
    var number := GetVarint64(level.value.1);
    if number.None? {
      return None;
    }
    var size := GetVarint64(number.value.1);
    if size.None? {
      return None;
    }
    var smallest := ReadKey(size.value.1);
    if smallest.None? {
      return None;
    }
    var largest := ReadKey(smallest.value.1);
    if largest.None? {
      return None;
    }
    r := Some((NewFile(level.value.0, number.value.0, size.value.0, smallest.value.0, largest.value.0), largest.value.1));
  }

  method ReadLevel(data: Bytes) returns (r: Option<(nat, Bytes)>)
    ensures r == GetLevel(data)
  {
    hide ParseVarint;
    r := GetVarint32(data);
    if r.Some? && r.value.0 >= NUM_LEVELS {
      r := None;
    }
  }

  method ReadKey(data: Bytes) returns (r: Option<(Bytes, Bytes)>)
    ensures r == GetKey(data)
  {
    hide ParseLengthPrefixed;
    r := GetLengthPrefixedSlice(data);
    if r.Some? && r.value.0 == [] {
      r := None;
    }
  }

  lemma EncodeNext(dst: Bytes, done: seq<Item>, item: Item)
    ensures dst + EncodeAll(done) + Encode(item) == dst + EncodeAll(done + [item])
  {
    assert (done + [item])[..|done|] == done;
    ConcatAssoc(dst, EncodeAll(done), Encode(item));
  }

  lemma MaybeEncoded(dst: Bytes, r: Bytes, has: bool, item: Item)
    requires r == if has then dst + Encode(item) else dst
    ensures r == dst + EncodeAll(Maybe(has, item))
  {
    hide Encode;
    if has {
      EncodeOne(item);
    }
  }

  lemma EncodeFive(dst: Bytes, a: seq<Item>, b: seq<Item>, c: seq<Item>, d: seq<Item>, f: seq<Item>)
    ensures dst + EncodeAll(a + b + c + d + f) == dst + EncodeAll(a) + EncodeAll(b) + EncodeAll(c) + EncodeAll(d) + EncodeAll(f)
  {
    hide EncodeAll;
    EncodeConcat(a + b + c + d, f);
    EncodeConcat(a + b + c, d);
    EncodeConcat(a + b, c);
    EncodeConcat(a, b);
    var x, y, z, w, u := EncodeAll(a), EncodeAll(b), EncodeAll(c), EncodeAll(d), EncodeAll(f);
    ConcatAssoc(dst, x + y + z + w, u);
    ConcatAssoc(dst, x + y + z, w);
    ConcatAssoc(dst, x + y, z);
    ConcatAssoc(dst, x, y);
  }

  lemma ApplyNothing(e: Fields)
    ensures ApplyAll(e, []) == e
  {
  }

  lemma ApplyNext(e: Fields, done: seq<Item>, item: Item)
    ensures ApplyAll(e, done + [item]) == Apply(ApplyAll(e, done), item)
  {
    assert (done + [item])[..|done|] == done;
  }

  /** An edit with more files, or other deleted files that can be stored, is one still. */
  lemma StillEdit(e: Fields, e': Fields)
    requires IsEdit(e) && e' == e.(deletedFiles := e'.deletedFiles, newFiles := e'.newFiles)
    requires Ordered(e'.deletedFiles) && forall d :: d in e'.deletedFiles ==> d in e.deletedFiles || (d.0 < NUM_LEVELS && d.1 < LONG)
    requires forall f :: f in e'.newFiles ==> f in e.newFiles || (f.NewFile? && Storable(f))
    ensures IsEdit(e')
  {
    hide Storable, Scalars;
    assert Scalars(e') == Scalars(e) by { SameScalars(e, e'); }
    forall item | item in ItemsOf(e')
      ensures Storable(item)
    {
      if item in Scalars(e') || item in Pointers(e'.compactPointers) {
        assert item in ItemsOf(e);
      } else if item in Deletions(e'.deletedFiles) {
        var i :| 0 <= i < |Deletions(e'.deletedFiles)| && Deletions(e'.deletedFiles)[i] == item;
        DeletionStorable(e, e'.deletedFiles[i]);
      } else {
        assert item in e'.newFiles;
        assert item in e.newFiles ==> item in ItemsOf(e);
      }
    }
  }

  lemma SameScalars(e: Fields, e': Fields)
    requires e' == e.(deletedFiles := e'.deletedFiles, newFiles := e'.newFiles)
    ensures Scalars(e') == Scalars(e)
  {
  }

  lemma DeletionStorable(e: Fields, d: (nat, nat))
    requires IsEdit(e) && (d in e.deletedFiles || (d.0 < NUM_LEVELS && d.1 < LONG))
    ensures Storable(DeletedFile(d.0, d.1))
  {
    if d in e.deletedFiles {
      var i :| 0 <= i < |e.deletedFiles| && e.deletedFiles[i] == d;
      assert Deletions(e.deletedFiles)[i] in ItemsOf(e);
    }
  }
}
