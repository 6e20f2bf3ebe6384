/** The entries of the memtable as they are stored (`db/memtable.cc`): one string each,
    found again by seeking to a lookup key. */
module MemTable {
  import opened Coding
  import opened Comparator
  import opened Keys

  /** What Add stores. */
  datatype MemOp = MemOp(user: Bytes, seqno: nat, kind: ValueType, value: Bytes)

  function OpTag(op: MemOp): nat {
    op.seqno * 256 + (if op.kind == Value then 1 else 0)
  }

  function InternalKeyOf(op: MemOp): (k: Bytes)
    ensures |k| == |op.user| + 8
  {
    Encoded(op.user, OpTag(op))
  }

  /** The length-prefixed internal key, then the length-prefixed value. */
  function EncodeOp(op: MemOp): Bytes {
    LengthPrefixed(InternalKeyOf(op)) + LengthPrefixed(op.value)
  }

  /** Sequence numbers of 56 bits and lengths of 32. */
  predicate Fits(op: MemOp) {
    op.seqno <= MAX_SEQUENCE && |op.user| + 8 < 0x1_0000_0000 && |op.value| < 0x1_0000_0000
  }

  /** The key that a read of `user` at a sequence number seeks to. */
  function LookupKey(user: Bytes, seqno: nat): Bytes {
    Encoded(user, seqno * 256 + 1)
  }

  lemma OpRoundTrip(op: MemOp)
    requires Fits(op)
    ensures ParseLengthPrefixed(EncodeOp(op)) == Some((InternalKeyOf(op), LengthPrefixed(op.value)))
    ensures ParseLengthPrefixed(LengthPrefixed(op.value)) == Some((op.value, []))
    ensures ExtractUserKey(InternalKeyOf(op)) == op.user && ExtractTag(InternalKeyOf(op)) == OpTag(op)
  {
    hide LengthPrefixed, ParseLengthPrefixed, Little, Fixed;
    LengthPrefixedRoundTrip(InternalKeyOf(op), LengthPrefixed(op.value));
    LengthPrefixedRoundTrip(op.value, []);
    assert LengthPrefixed(op.value) + [] == LengthPrefixed(op.value);
    ExtractsParts(op.user, OpTag(op));
  }

  /** MemTable::Add. */
  method Add(seqno: nat, kind: ValueType, user: Bytes, value: Bytes) returns (entry: Bytes)
    requires Fits(MemOp(user, seqno, kind, value))
    ensures entry == EncodeOp(MemOp(user, seqno, kind, value))
  {
    hide Varint, Fixed;
    ghost var op := MemOp(user, seqno, kind, value);
    var size := EncodeVarint32(|user| + 8);
    entry := size + user;
    entry := entry + Fixed(seqno * 256 + (if kind == Value then 1 else 0), 8);
    ConcatAssoc(size, user, Fixed(OpTag(op), 8));
    var valueSize := EncodeVarint32(|value|);
    entry := entry + valueSize;
    entry := entry + value;
    ConcatAssoc(LengthPrefixed(InternalKeyOf(op)), valueSize, value);
  }

  // ----- the table in order

  /** Entries in the order of their internal keys, no two with the same. */
  ghost predicate InOrder(ops: seq<MemOp>) {
    && (forall i :: 0 <= i < |ops| ==> Fits(ops[i]))
    && forall i, j :: 0 <= i < j < |ops| ==> Comes(ops[i], ops[j])
  }

  predicate Comes(a: MemOp, b: MemOp) {
    Less(a.user, b.user) || (a.user == b.user && OpTag(a) > OpTag(b))
  }

  ghost predicate Stores(table: seq<Bytes>, ops: seq<MemOp>) {
    InOrder(ops) && |table| == |ops| && forall i :: 0 <= i < |ops| ==> table[i] == EncodeOp(ops[i])
  }

  /** KeyComparator: entries compare as their internal keys. */
  method KeyBefore(entry: Bytes, key: Bytes, ghost op: MemOp) returns (b: bool)
    requires Fits(op) && entry == EncodeOp(op) && |key| >= 8
    ensures b <==> InternalLess(InternalKeyOf(op), key)
  {
    hide LengthPrefixed, ParseLengthPrefixed, Little, Less;
    OpRoundTrip(op);
    var r := GetLengthPrefixedSlice(entry);
    var a := r.value.0;
    var c := Compare(ExtractUserKey(a), ExtractUserKey(key));
    LessIsTotal(ExtractUserKey(a), ExtractUserKey(key));
    b := c < 0 || (c == 0 && ExtractTag(a) > ExtractTag(key));
  }

  /** The newest entry of a user key that a read at a sequence number may see. */
  ghost predicate IsNewest(ops: seq<MemOp>, user: Bytes, seqno: nat, i: nat) {
    && i < |ops| && ops[i].user == user && ops[i].seqno <= seqno
    && forall j :: 0 <= j < |ops| && ops[j].user == user && ops[j].seqno <= seqno ==> ops[j].seqno <= ops[i].seqno
  }

  /** What a read finds: nothing, a deletion, or a value. */
  datatype Found = Nothing | Deleted | Found(value: Bytes)

  /** MemTable::Get: the first entry from the lookup key on is the newest that the read
      may see, if it is of the user key; and otherwise there is none. */
  method Get(table: seq<Bytes>, user: Bytes, seqno: nat, ghost ops: seq<MemOp>) returns (r: Found)
    requires Stores(table, ops) && seqno <= MAX_SEQUENCE
    ensures r == Nothing ==> forall i: nat :: !IsNewest(ops, user, seqno, i)
    ensures r == Deleted ==> exists i: nat :: IsNewest(ops, user, seqno, i) && ops[i].kind == Deletion
    ensures r.Found? ==> exists i: nat :: IsNewest(ops, user, seqno, i) && ops[i].kind == Value && ops[i].value == r.value
  {
    hide LengthPrefixed, ParseLengthPrefixed, Little, Less, Encoded;
    var key := LookupKey(user, seqno);
    ExtractsParts(user, seqno * 256 + 1);
    var n := 0;
    while n < |table|
      invariant n <= |table| && forall j :: 0 <= j < n ==> InternalLess(InternalKeyOf(ops[j]), key)
    {
      var before := KeyBefore(table[n], key, ops[n]);
      if !before {
        break;
      }
      n := n + 1;
    }
    SeekLeads(ops, user, seqno, n);
    if n == |table| {
      return Nothing;
    }
    OpRoundTrip(ops[n]);
    var entry := GetLengthPrefixedSlice(table[n]);
    var k := entry.value.0;
    var c := Compare(ExtractUserKey(k), user);
    if c != 0 {
      return Nothing;
    }
    var tag := ExtractTag(k);
    if tag % 256 == 1 {
      var v := GetLengthPrefixedSlice(entry.value.1);
      return Found(v.value.0);
    }
    r := Deleted;
  }

  /** Where the seek ends. */
  lemma SeekLeads(ops: seq<MemOp>, user: Bytes, seqno: nat, n: nat)
    requires InOrder(ops) && seqno <= MAX_SEQUENCE && n <= |ops|
    requires forall j :: 0 <= j < n ==> InternalLess(InternalKeyOf(ops[j]), LookupKey(user, seqno))
    requires n < |ops| ==> !InternalLess(InternalKeyOf(ops[n]), LookupKey(user, seqno))
    ensures n < |ops| && ops[n].user == user ==> IsNewest(ops, user, seqno, n)
    ensures n == |ops| || ops[n].user != user ==> forall i: nat :: !IsNewest(ops, user, seqno, i)
  {
    hide Less, Little, Encoded;
    ExtractsParts(user, seqno * 256 + 1);
    forall j | 0 <= j < |ops|
      ensures j < n ==> !(ops[j].user == user && ops[j].seqno <= seqno)
      ensures j >= n && n < |ops| && ops[n].user == user && ops[j].user == user ==> ops[j].seqno <= ops[n].seqno <= seqno
      ensures j >= n && n < |ops| && ops[n].user != user ==> ops[j].user != user
    {
      ExtractsParts(ops[j].user, OpTag(ops[j]));
      LessIsTotal(ops[j].user, user);
      if n < |ops| {
        ExtractsParts(ops[n].user, OpTag(ops[n]));
        LessIsTotal(ops[n].user, user);
        if j > n {
          assert Comes(ops[n], ops[j]);
          if ops[n].user != user && Less(ops[n].user, ops[j].user) {
            LessIsTransitive(user, ops[n].user, ops[j].user);
          }
        }
      }
    }
  }
}
