/** The batch of updates (`db/write_batch.cc`): a string that holds a sequence number,
    a count, and the updates one after the other. */
module WriteBatch {
  import opened Keys
  import opened Coding

  datatype Update = Put(key: Bytes, value: Bytes) | Delete(key: Bytes)

  datatype Status = Ok | TooSmall | BadPut | BadDelete | UnknownTag | WrongCount

  const DELETION: Byte := 0
  const VALUE: Byte := 1
  const HEADER: nat := 12

  /** Strings of an update, which a 32-bit length must be able to count. */
  predicate Fits(op: Update) {
    |op.key| < 0x1_0000_0000 && (op.Put? ==> |op.value| < 0x1_0000_0000)
  }

  predicate AllFit(ops: seq<Update>) {
    forall op :: op in ops ==> Fits(op)
  }

  function Record(op: Update): Bytes {
    match op
    case Put(key, value) => [VALUE] + LengthPrefixed(key) + LengthPrefixed(value)
    case Delete(key) => [DELETION] + LengthPrefixed(key)
  }

  function Records(ops: seq<Update>): Bytes {
    if ops == [] then [] else Records(ops[..|ops| - 1]) + Record(ops[|ops| - 1])
  }

  /** The string of a batch. */
  function Rep(seqno: nat, ops: seq<Update>): Bytes {
    Fixed(seqno, 8) + Fixed(|ops|, 4) + Records(ops)
  }

  /** Reading one update: the update and what follows it, or what is wrong with it. */
  function ParseRecord(data: Bytes): (r: (Status, Option<(Update, Bytes)>))
    requires data != []
    ensures r.0 == Ok ==> r.1.Some? && |r.1.value.1| < |data|
  {
    var rest := data[1..];
    if data[0] == VALUE then
      match ParseLengthPrefixed(rest)
      case None => (BadPut, None)
      case Some(k) =>
        match ParseLengthPrefixed(k.1)
        case None => (BadPut, None)
        case Some(v) =>
          PrefixedConsumes(rest);
          PrefixedConsumes(k.1);
          (Ok, Some((Put(k.0, v.0), v.1)))
    else if data[0] == DELETION then
      match ParseLengthPrefixed(rest)
      case None => (BadDelete, None)
      case Some(k) =>
        PrefixedConsumes(rest);
        (Ok, Some((Delete(k.0), k.1)))
    else (UnknownTag, None)
  }

  /** What Iterate hands to its handler before it stops, and why it stops. */
  function ParseRecords(data: Bytes): (seq<Update>, Status)
    decreases |data|
  {
    if data == [] then ([], Ok)
    else
      var p := ParseRecord(data);
      if p.0 != Ok then ([], p.0)
      else
        var r := ParseRecords(p.1.value.1);
        ([p.1.value.0] + r.0, r.1)
  }

  /** An update is read back, with what follows it untouched. */
  lemma RecordRoundTrip(op: Update, rest: Bytes)
    requires Fits(op)
    ensures ParseRecord(Record(op) + rest) == (Ok, Some((op, rest)))
  {
    hide LengthPrefixed, ParseLengthPrefixed;
    match op
    case Put(key, value) =>
      PutRoundTrip(key, value, rest);
    case Delete(key) =>
      LengthPrefixedRoundTrip(key, rest);
      var data := Record(op) + rest;
      assert data[1..] == LengthPrefixed(key) + rest;
  }

  lemma PutRoundTrip(key: Bytes, value: Bytes, rest: Bytes)
    requires Fits(Put(key, value))
    ensures ParseRecord(Record(Put(key, value)) + rest) == (Ok, Some((Put(key, value), rest)))
  {
    hide LengthPrefixed, ParseLengthPrefixed;
    var k, v := LengthPrefixed(key), LengthPrefixed(value);
    LengthPrefixedRoundTrip(key, v + rest);
    LengthPrefixedRoundTrip(value, rest);
    assert Record(Put(key, value)) + rest == [VALUE] + (k + (v + rest)) by {
      ConcatAssoc([VALUE], k, v);
      ConcatAssoc([VALUE], k + v, rest);
      ConcatAssoc(k, v, rest);
    }
    Tail(VALUE, k + (v + rest));
  }

  lemma Tail(b: Byte, rest: Bytes)
    ensures ([b] + rest)[0] == b && ([b] + rest)[1..] == rest
  {
  }

  lemma {:induction false} RecordsConcat(a: seq<Update>, b: seq<Update>)
    ensures Records(a + b) == Records(a) + Records(b)
  {
    if b == [] {
      assert a + b == a && Records(a) + Records(b) == Records(a);
    } else {
      var last := |b| - 1;
      RecordsConcat(a, b[..last]);
      assert (a + b)[..|a + b| - 1] == a + b[..last] && (a + b)[|a + b| - 1] == b[last];
      ConcatAssoc(Records(a), Records(b[..last]), Record(b[last]));
    }
  }

  lemma RecordsOne(op: Update)
    ensures Records([op]) == Record(op)
  {
    assert [op][..0] == [] && Records([]) == [];
    assert Records([]) + Record(op) == Record(op);
  }

  /** What was put into a batch is what Iterate hands out, in order. */
  lemma {:induction false} RecordsRoundTrip(ops: seq<Update>)
    requires AllFit(ops)
    ensures ParseRecords(Records(ops)) == (ops, Ok)
  {
    if ops != [] {
      RecordsRoundTrip(ops[1..]);
      assert ops == [ops[0]] + ops[1..];
      RecordsConcat([ops[0]], ops[1..]);
      RecordsOne(ops[0]);
      RecordRoundTrip(ops[0], Records(ops[1..]));
      assert Record(ops[0]) != [];
    }
  }

  class WriteBatch {
    var rep: Bytes
    /** The updates put in so far. */
    ghost var ops: seq<Update>

    ghost predicate Valid()
      reads this
    {
      |ops| < 0x8000_0000 && |rep| >= HEADER && rep[8..] == Fixed(|ops|, 4) + Records(ops)
    }

    constructor ()
      ensures Valid() && ops == [] && Little(rep[..8]) == 0
    {
      rep := seq(HEADER, _ => 0);
      ops := [];
      new;
      ZeroHeader();
    }

    method Clear()
      modifies this
      ensures Valid() && ops == [] && Little(rep[..8]) == 0
    {
      rep := seq(HEADER, _ => 0);
      ops := [];
      ZeroHeader();
    }

    method Count() returns (n: nat)
      requires |rep| >= HEADER
      ensures n == Little(rep[8..12])
      ensures Valid() ==> n == |ops|
    {
      var word := rep[8..];
      n := DecodeFixed32(word);
      assert rep[8..][..4] == rep[8..12];
      if Valid() {
        CountIs(rep, ops);
      }
    }

    method SetCount(n: nat)
      requires |rep| >= HEADER
      modifies this`rep
      ensures rep == old(rep)[..8] + Fixed(n, 4) + old(rep)[12..]
    {
      rep := rep[..8] + Fixed(n, 4) + rep[12..];
    }

    method Sequence() returns (s: nat)
      requires |rep| >= HEADER
      ensures s == Little(rep[..8])
    {
      s := Little(rep[..8]);
    }

    /** SetSequence: the updates stay. */
    method SetSequence(s: nat)
      requires Valid()
      modifies this`rep
      ensures Valid() && rep == Rep(s, ops)
    {
      ConcatAssoc(Fixed(s, 8), Fixed(|ops|, 4), Records(ops));
      rep := Fixed(s, 8) + rep[8..];
    }

    /** What the three below do: the count goes up and records are appended. */
    method AppendRecords(more: Bytes, n: nat, ghost added: seq<Update>)
      requires Valid() && more == Records(added) && n == |added| && |ops| + n < 0x8000_0000
      modifies this
      ensures Valid() && ops == old(ops) + added && rep[..8] == old(rep[..8])
    {
      hide Records, Fixed, Little;
      CountIs(rep, ops);
      var was := Count();
      SetCount(was + n);
      assert rep[8..] == Fixed(was + n, 4) + Records(ops);
      rep := rep + more;
      ConcatAssoc(Fixed(was + n, 4), Records(ops), more);
      RecordsConcat(ops, added);
      ops := ops + added;
    }

    /** Put. */
    method Put(key: Bytes, value: Bytes)
      requires Valid() && |ops| + 1 < 0x8000_0000
      modifies this
      ensures Valid() && ops == old(ops) + [Update.Put(key, value)] && rep[..8] == old(rep[..8])
    {
      RecordsOne(Update.Put(key, value));
      AppendRecords([VALUE] + LengthPrefixed(key) + LengthPrefixed(value), 1, [Update.Put(key, value)]);
    }

    method Delete(key: Bytes)
      requires Valid() && |ops| + 1 < 0x8000_0000
      modifies this
      ensures Valid() && ops == old(ops) + [Update.Delete(key)] && rep[..8] == old(rep[..8])
    {
      RecordsOne(Update.Delete(key));
      AppendRecords([DELETION] + LengthPrefixed(key), 1, [Update.Delete(key)]);
    }

    /** Append: the updates of another batch follow. */
    method Append(src: WriteBatch)
      requires src != this && Valid() && src.Valid() && |ops| + |src.ops| < 0x8000_0000
      modifies this
      ensures Valid() && ops == old(ops) + src.ops && rep[..8] == old(rep[..8])
    {
      hide Records, Fixed, Little;
      CountIs(src.rep, src.ops);
      var n := src.Count();
      AppendRecords(src.rep[HEADER..], n, src.ops);
    }

    /** Iterate: hand the updates out one by one; the calls to the handler are listed. */
    method Iterate() returns (calls: seq<Update>, status: Status)
      ensures |rep| < HEADER ==> calls == [] && status == TooSmall
      ensures |rep| >= HEADER ==>
                var p := ParseRecords(rep[HEADER..]);
                && calls == p.0
                && status == if p.1 == Ok && |calls| != Little(rep[8..12]) then WrongCount else p.1
    {
      hide ParseRecord, Little;
      calls := [];
      if |rep| < HEADER {
        return [], TooSmall;
      }
      var input := rep[HEADER..];
      var found := 0;
      ghost var all := ParseRecords(input);
      assert [] + all.0 == all.0;
      while input != []
        invariant found == |calls|
        invariant all.0 == calls + ParseRecords(input).0 && all.1 == ParseRecords(input).1
        decreases |input|
      {
        found := found + 1;
        ghost var rest := ParseRecords(input);
        var p := ReadUpdate(input);
        if p.0 != Ok {
          assert calls + [] == calls;
          return calls, p.0;
        }
        input := p.1.value.1;
        assert calls + ([p.1.value.0] + ParseRecords(input).0) == calls + [p.1.value.0] + ParseRecords(input).0;
        calls := calls + [p.1.value.0];
      }
      assert calls + [] == calls;
      var n := Count();
      status := if found != n then WrongCount else Ok;
    }

    /** The switch in the loop of Iterate. */
    static method ReadUpdate(data: Bytes) returns (r: (Status, Option<(Update, Bytes)>))
      requires data != []
      ensures r == ParseRecord(data)
    {
      hide ParseLengthPrefixed;
      var tag := data[0];
      var input := data[1..];
      if tag == VALUE {
        var key := GetLengthPrefixedSlice(input);
        if key.None? {
          return (BadPut, None);
        }
        var value := GetLengthPrefixedSlice(key.value.1);
        if value.None? {
          return (BadPut, None);
        }
        r := (Ok, Some((Update.Put(key.value.0, value.value.0), value.value.1)));
      } else if tag == DELETION {
        var key := GetLengthPrefixedSlice(input);
        if key.None? {
          return (BadDelete, None);
        }
        r := (Ok, Some((Update.Delete(key.value.0), key.value.1)));
      } else {
        r := (UnknownTag, None);
      }
    }

    /** InsertInto: the updates go into the memtable with consecutive sequence numbers
        from the batch's own on. */
    method InsertInto(mem: seq<Stamped>) returns (mem': seq<Stamped>, status: Status)
      requires |rep| >= HEADER
      ensures mem' == mem + StampedFrom(ParseRecords(rep[HEADER..]).0, Little(rep[..8]))
      ensures status == Ok <==> ParseRecords(rep[HEADER..]).1 == Ok && |ParseRecords(rep[HEADER..]).0| == Little(rep[8..12])
    {
      hide ParseRecords, Little, StampedFrom;
      var sequence := Sequence();
      var updates, s := Iterate();
      mem' := mem;
      ghost var first := sequence;
      assert mem + StampedFrom([], first) == mem;
      for i := 0 to |updates|
        invariant sequence == first + i
        invariant mem' == mem + StampedFrom(updates[..i], first)
      {
        StampedNext(mem, updates, first, i);
        mem' := mem' + [Stamped(sequence, updates[i])];
        sequence := sequence + 1;
      }
      assert updates[..|updates|] == updates;
      status := s;
    }
  }

  /** An update in the memtable. */
  datatype Stamped = Stamped(seqno: nat, op: Update)

  function StampedFrom(ops: seq<Update>, first: nat): (r: seq<Stamped>)
    ensures |r| == |ops| && forall i :: 0 <= i < |r| ==> r[i] == Stamped(first + i, ops[i])
  {
    if ops == [] then [] else StampedFrom(ops[..|ops| - 1], first) + [Stamped(first + |ops| - 1, ops[|ops| - 1])]
  }

  lemma StampedNext(mem: seq<Stamped>, ops: seq<Update>, first: nat, i: nat)
    requires i < |ops|
    ensures mem + StampedFrom(ops[..i + 1], first) == mem + StampedFrom(ops[..i], first) + [Stamped(first + i, ops[i])]
  {
    assert ops[..i + 1][..i] == ops[..i];
  }

  /** A batch that was filled by Put, Delete and Append goes into the memtable whole. */
  lemma RepIsParsed(s: nat, ops: seq<Update>)
    requires AllFit(ops) && |ops| < 0x8000_0000 && s < 0x1_0000_0000_0000_0000
    ensures var rep := Rep(s, ops);
            && |rep| >= HEADER && ParseRecords(rep[HEADER..]) == (ops, Ok)
            && Little(rep[8..12]) == |ops| && Little(rep[..8]) == s
  {
    RepParts(s, ops);
    RecordsRoundTrip(ops);
    CountIs(Rep(s, ops), ops);
    FixedRoundTrip(s, 8);
  }

  lemma ZeroHeader()
    ensures var r := seq(HEADER, _ => 0);
            r[8..] == Fixed(0, 4) + Records([]) && Little(r[..8]) == 0
  {
    ZeroFixed(8);
    ZeroFixed(4);
    Pow256();
    LittleOfFixed(0, 8);
    var r: Bytes := seq(HEADER, _ => 0);
    assert r[..8] == Fixed(0, 8) && r[8..] == Fixed(0, 4) + Records([]);
  }

  lemma {:induction false} ZeroFixed(n: nat)
    ensures Fixed(0, n) == seq(n, _ => 0)
  {
    if n > 0 {
      ZeroFixed(n - 1);
    }
  }

  lemma RepParts(s: nat, ops: seq<Update>)
    ensures var r := Rep(s, ops);
            |r| >= HEADER && r[..8] == Fixed(s, 8) && r[8..] == Fixed(|ops|, 4) + Records(ops)
  {
    ConcatAssoc(Fixed(s, 8), Fixed(|ops|, 4), Records(ops));
  }

  lemma CountIs(rep: Bytes, ops: seq<Update>)
    requires |ops| < 0x8000_0000 && |rep| >= HEADER && rep[8..] == Fixed(|ops|, 4) + Records(ops)
    ensures Little(rep[8..12]) == |ops| && rep[12..] == Records(ops)
  {
    hide Records, Little;
    FixedRoundTrip(|ops|, 4);
    assert rep[8..12] == rep[8..][..4] && rep[12..] == rep[8..][4..];
  }
}
