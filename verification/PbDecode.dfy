/** The decoder (`pb_decode.c`): reading a message from a stream, field after field in
    whatever order they come. */
module PbDecode {
  import opened Coding
  import opened Keys
  import opened Pb
  import opened PbIter
  import opened PbMessage

  /** pb_istream_t over a buffer: the bytes that are left. */
  class IStream {
    var left: Bytes

    constructor (b: Bytes)
      ensures left == b
    {
      left := b;
    }

    method ReadByte() returns (ok: bool, byte: Byte)
      modifies this
      ensures ok <==> old(left) != []
      ensures ok ==> byte == old(left)[0] && left == old(left)[1..]
      ensures !ok ==> left == old(left)
    {
      if left == [] {
        return false, 0;
      }
      byte := left[0];
      left := left[1..];
      ok := true;
    }

    /** pb_read. */
    method Read(count: nat) returns (ok: bool, b: Bytes)
      modifies this
      ensures ok <==> Take(old(left), count).Some?
      ensures ok ==> (b, left) == Take(old(left), count).value
    {
      b := [];
      if count == 0 {
        return true, [];
      }
      if |left| < count {
        return false, [];
      }
      b := left[..count];
      left := left[count..];
      ok := true;
    }

    /** pb_decode_varint32. */
    method DecodeVarint32() returns (ok: bool, dest: nat)
      modifies this
      ensures ok <==> ReadVarint32(old(left)).Some?
      ensures ok ==> (dest, left) == ReadVarint32(old(left)).value
    {
      hide AddBits;
      dest := 0;
      var byte;
      ok, byte := ReadByte();
      if !ok {
        return;
      }
      if byte < 128 {
        dest := byte;
        return;
      }
      var bitpos := 7;
      var result: nat := byte - 128;
      ghost var all := ReadTail32(left, bitpos, result);
      while true
        invariant 0 <= bitpos < 256
        invariant ReadTail32(left, bitpos, result) == all == ReadVarint32(old(left))
        decreases |left|
      {
        ok, byte := ReadByte();
        if !ok {
          return;
        }
        if bitpos >= 32 {
          var signExtension := if bitpos < 63 then 255 else 1;
          if byte % 128 != 0 && (result < 0x8000_0000 || byte != signExtension) {
            return false, 0;
          }
        } else {
          result := AddBits(result, byte, bitpos);
        }
        bitpos := (bitpos + 7) % 256;
        if byte < 128 {
          break;
        }
      }
      if bitpos == 35 && byte / 16 % 8 != 0 {
        return false, 0;
      }
      dest := result;
    }

    /** pb_decode_varint. */
    method DecodeVarint() returns (ok: bool, dest: nat)
      modifies this
      ensures ok <==> ReadVarint(old(left)).Some?
      ensures ok ==> (dest, left) == ReadVarint(old(left)).value
    {
      var r := GetVarint(left, 10, LONG);
      if r.None? {
        return false, 0;
      }
      dest, left := r.value.0, r.value.1;
      ok := true;
    }

    /** pb_skip_varint. */
    method SkipVarint() returns (ok: bool)
      modifies this
      ensures ok <==> PbMessage.SkipVarint(old(left)).Some?
      ensures ok ==> left == PbMessage.SkipVarint(old(left)).value
    {
      var byte;
      ok, byte := ReadByte();
      while ok && byte >= 128
        invariant ok && byte < 128 ==> PbMessage.SkipVarint(old(left)) == Some(left)
        invariant ok && byte >= 128 ==> PbMessage.SkipVarint(old(left)) == PbMessage.SkipVarint(left)
        invariant !ok ==> PbMessage.SkipVarint(old(left)) == None
        decreases ok, |left|
      {
        ok, byte := ReadByte();
      }
    }

    /** pb_make_string_substream, and what closing it does to this stream. */
    method MakeSubstream() returns (ok: bool, sub: Bytes)
      modifies this
      ensures ok <==> Substream(old(left)).Some?
      ensures ok ==> (sub, left) == Substream(old(left)).value
    {
      hide ReadVarint32;
      var size;
      ok, size := DecodeVarint32();
      sub := [];
      if ok {
        if |left| < size {
          return false, [];
        }
        sub := left[..size];
        left := left[size..];
      }
    }

    /** pb_skip_field. */
    method SkipField(wireType: nat) returns (ok: bool)
      modifies this
      ensures ok <==> Skip(wireType, old(left)).Some?
      ensures ok ==> left == Skip(wireType, old(left)).value
    {
      hide ReadVarint32;
      var b;
      if wireType == 0 {
        ok := SkipVarint();
      } else if wireType == 1 {
        ok, b := Read(8);
      } else if wireType == 2 {
        ok, b := MakeSubstream();
      } else if wireType == 5 {
        ok, b := Read(4);
      } else {
        ok := false;
      }
    }

    /** The decoders of numbers. */
    method ReadNumber(kind: Kind) returns (ok: bool, n: int)
      requires Packable(kind)
      modifies this
      ensures ok <==> DecodeNumber(kind, old(left)).Some?
      ensures ok ==> (n, left) == DecodeNumber(kind, old(left)).value
    {
      hide ReadVarint, ReadVarint32, FitsNumber, Signed, UnZigZag, Half, Little;
      n := 0;
      var v: nat;
      var b;
      match kind
      case Bool =>
        ok, v := DecodeVarint32();
        n := if ok && v != 0 then 1 else 0;
      case Int(size) =>
        ok, v := DecodeVarint();
        if ok {
          n := if size == 8 then Signed(v, Half(8)) else Signed(v % WORD, Half(4));
          ok := FitsNumber(kind, n);
        }
      case UInt(size) =>
        ok, v := DecodeVarint();
        n := v;
        ok := ok && FitsNumber(kind, n);
      case SInt(size) =>
        ok, v := DecodeVarint();
        n := UnZigZag(v);
        ok := ok && FitsNumber(kind, n);
      case Fixed32 =>
        ok, b := Read(4);
        n := Little(b);
      case Fixed64 =>
        ok, b := Read(8);
        n := Little(b);
    }
  }

  // ----- values and fields

  /** The decoders of strings and bytes, on what the length says is theirs. */
  method ReadString(kind: Kind, b: Bytes) returns (r: Option<Value>)
    ensures r == DecodeString(kind, b)
  {
    match kind
    case Blob(capacity) =>
      r := if |b| > capacity then None else Some(Raw(b));
    case Str(size) =>
      if |b| + 1 > size {
        return None;
      }
      var s := TakeCString(b);
      r := Some(Raw(s));
    case FixedBlob(size) =>
      if |b| == 0 {
        return Some(Raw(seq(size, _ => 0)));
      }
      r := if |b| != size then None else Some(Raw(b));
    case _ =>
      r := None;
  }

  method TakeCString(b: Bytes) returns (s: Bytes)
    ensures s == CString(b)
  {
    var n := 0;
    while n < |b| && b[n] != 0
      invariant n <= |b| && CString(b) == b[..n] + CString(b[n..])
    {
      assert b[n..][1..] == b[n + 1..] && b[..n] + [b[n]] == b[..n + 1];
      n := n + 1;
    }
    s := b[..n];
  }

  /** What comes of decoding: nothing, or what was decoded. */
  ghost predicate Agrees<T>(ok: bool, v: T, left: Bytes, spec: Option<(T, Bytes)>) {
    ok == spec.Some? && (ok ==> (v, left) == spec.value)
  }

  method ReadValue(s: IStream, kind: Kind, base: seq<Slot>) returns (ok: bool, v: Value)
    requires KindOk(kind)
    modifies s
    ensures Agrees(ok, v, s.left, DecodeValue(kind, base, old(s.left)))
    decreases |s.left|, 0
  {
    hide Substream, DecodeNumber, DecodeMsg, DecodeString, DescOk;
    v := Num(0);
    SubstreamShrinks(s.left);
    if Packable(kind) {
      var n;
      ok, n := s.ReadNumber(kind);
      v := Num(n);
      return;
    }
    var sub;
    ok, sub := s.MakeSubstream();
    if !ok {
      return;
    }
    if kind.Sub? {
      var substream := new IStream(sub);
      var slots;
      ok, slots := DecodeNoinit(substream, kind.fields, base);
      v := Msg(slots);
    } else {
      var r := ReadString(kind, sub);
      ok := r.Some?;
      v := if ok then r.value else v;
    }
  }

  /** decode_static_field on a packed array. */
  method ReadPacked(sub: IStream, kind: Kind, vs: seq<Value>, max: nat) returns (ok: bool, r: seq<Value>)
    requires Packable(kind)
    modifies sub
    ensures ok == DecodePacked(kind, vs, max, old(sub.left)).Some? && (ok ==> r == DecodePacked(kind, vs, max, old(sub.left)).value)
  {
    hide DecodeNumber;
    r := vs;
    while |sub.left| > 0 && |r| < max
      invariant DecodePacked(kind, vs, max, old(sub.left)) == DecodePacked(kind, r, max, sub.left)
      decreases |sub.left|
    {
      NumberShrinks(kind, sub.left);
      var n;
      ok, n := sub.ReadNumber(kind);
      if !ok {
        return;
      }
      r := r + [Num(n)];
    }
    ok := |sub.left| == 0;
  }

  /** decode_static_field. */
  method DecodeStaticField(s: IStream, f: Field, slot: Slot, wireType: nat) returns (ok: bool, slot': Slot)
    requires FieldOk(f)
    modifies s
    ensures Agrees(ok, slot', s.left, DecodeSlot(f, slot, wireType, old(s.left)))
    decreases |s.left|, 1
  {
    hide Substream, DecodeValue, Base, FieldOk, KindOk;
    FieldFacts(f);
    slot' := slot;
    match slot
    case One(v) =>
      var v';
      ok, v' := ReadValue(s, f.kind, BaseOf(f.kind, v));
      slot' := One(v');
    case Opt(o) =>
      var v';
      ok, v' := ReadValue(s, f.kind, if o.Some? then BaseOf(f.kind, o.value) else Base(f.kind));
      slot' := Opt(Some(v'));
    case Many(vs) =>
      var max := if f.rule.Repeated? then f.rule.max else 0;
      if wireType == 2 && Packable(f.kind) {
        var sub;
        ok, sub := s.MakeSubstream();
        if !ok {
          return;
        }
        var substream := new IStream(sub);
        var r;
        ok, r := ReadPacked(substream, f.kind, vs, max);
        slot' := Many(r);
      } else {
        if |vs| >= max {
          return false, slot;
        }
        var v';
        ok, v' := ReadValue(s, f.kind, Base(f.kind));
        slot' := Many(vs + [v']);
      }
  }

  // ----- messages

  /** The bits that stand for the required fields among those seen. */
  ghost predicate Marked(fields: seq<Field>, seen: set<nat>, bits: set<nat>) {
    && (forall i: nat {:trigger i in seen} :: i in seen ==> i < |fields|)
    && (forall i: nat {:trigger i in seen} :: i < |fields| && fields[i].rule == Required && RequiredBefore(EntriesOf(fields), i) < MAX_REQUIRED ==>
          (i in seen <==> RequiredBefore(EntriesOf(fields), i) in bits))
    && (fields != [] ==> forall j: nat {:trigger j in bits} :: j in bits ==> j < RequiredBefore(EntriesOf(fields), |fields|))
  }

  /** A required field's bit is set when it is seen. */
  lemma MarksRequired(fields: seq<Field>, seen: set<nat>, bits: set<nat>, i: nat)
    requires Marked(fields, seen, bits) && i < |fields| && fields[i].rule == Required
    ensures var k := RequiredBefore(EntriesOf(fields), i);
            Marked(fields, seen + {i}, if k < MAX_REQUIRED then bits + {k} else bits)
  {
    hide EntriesOf, RequiredBefore;
    var entries, k := EntriesOf(fields), RequiredBefore(EntriesOf(fields), i);
    RequiredGrows(entries, i, |fields|);
    forall j: nat | j < |fields| && j != i && fields[j].rule == Required
      ensures RequiredBefore(entries, j) != k
    {
      if i < j {
        RequiredGrows(entries, i, j);
      } else {
        RequiredGrows(entries, j, i);
      }
    }
  }

  /** The bits answer whether all required fields were seen. */
  lemma BitsAnswer(fields: seq<Field>, seen: set<nat>, bits: set<nat>)
    requires Marked(fields, seen, bits)
    ensures RequiredSeen(fields, seen)
       <==> forall j: nat {:trigger j in bits} :: j < RequiredBefore(EntriesOf(fields), |fields|) && j < MAX_REQUIRED ==> j in bits
  {
    hide EntriesOf, RequiredBefore;
    var entries := EntriesOf(fields);
    if RequiredSeen(fields, seen) {
      forall j: nat {:trigger j in bits} | j < RequiredBefore(entries, |fields|) && j < MAX_REQUIRED
        ensures j in bits
      {
        var i := RequiredAt(entries, |fields|, j);
        assert i in seen;
      }
    }
    if forall j: nat {:trigger j in bits} :: j < RequiredBefore(entries, |fields|) && j < MAX_REQUIRED ==> j in bits {
      forall i | 0 <= i < |fields| && fields[i].rule == Required && RequiredBefore(entries, i) < MAX_REQUIRED
        ensures i in seen
      {
        RequiredGrows(entries, i, |fields|);
        assert RequiredBefore(entries, i) in bits;
      }
    }
  }

  /** The number of required fields: the iterator goes on to the last field. */
  method CountRequired(iter: FieldIter) returns (count: nat)
    requires iter.Valid()
    modifies iter
    ensures iter.Valid() && count == RequiredBefore(iter.entries, |iter.entries|)
  {
    var last := iter.At(iter.pos);
    var more := true;
    count := 0;
    while more
      invariant iter.Valid() && (!more ==> iter.pos == 0)
      invariant !more && iter.entries != [] ==>
        last == iter.entries[|iter.entries| - 1] && count == RequiredBefore(iter.entries, |iter.entries| - 1)
      invariant iter.entries == [] ==> count == 0
      decreases more, |iter.entries| - iter.pos
    {
      count := iter.requiredFieldIndex;
      last := iter.At(iter.pos);
      more := iter.Next();
    }
    if last.required && iter.At(iter.pos).tag != 0 {
      count := count + 1;
    }
  }

  method DecodeAt(s: IStream, fields: seq<Field>, slots: seq<Slot>, i: nat, wireType: nat) returns (ok: bool, dest: seq<Slot>)
    requires DescOk(fields) && i < |fields| == |slots|
    modifies s
    ensures var r := DecodeSlot(fields[i], slots[i], wireType, old(s.left));
            ok == r.Some? && (ok ==> dest == Stored(fields, slots, i, r.value.0) && s.left == r.value.1)
    decreases |s.left|, 2
  {
    hide KindOk, DecodeSlot, Stored;
    assert FieldOk(fields[i]);
    var slot;
    ok, slot := DecodeStaticField(s, fields[i], slots[i], wireType);
    dest := Stored(fields, slots, i, slot);
  }

  /** What the iterator found is what the descriptors have. */
  lemma FoundIs(fields: seq<Field>, tag: nat, index: nat)
    requires DescOk(fields)
    ensures HasField(EntriesOf(fields), tag) <==> FindTag(fields, tag).Some?
    ensures index < |fields| && fields[index].tag == tag ==> FindTag(fields, tag) == Some(index)
    ensures fields == [] ==> FindTag(fields, tag) == None
  {
    hide FieldOk;
    var r := FindTag(fields, tag);
    if r.Some? {
      assert EntriesOf(fields)[r.value].tag == tag;
    }
    if index < |fields| && fields[index].tag == tag {
      FindsTag(fields, index, 0);
    }
  }

  lemma SkipIs(fields: seq<Field>, tag: nat, wireType: nat, data: Bytes)
    ensures fields != [] || tag != 0 ==> SkipUnknown(fields, tag, wireType, data) == Skip(wireType, data)
    ensures fields == [] && tag == 0 ==>
              SkipUnknown(fields, tag, wireType, data) == match ReadVarint32(data) { case None => None case Some(p) => Some(p.1) }
    ensures SkipUnknown(fields, tag, wireType, data).Some? ==> |SkipUnknown(fields, tag, wireType, data).value| <= |data|
  {
    SkipShrinks(fields, tag, wireType, data);
  }

  /** What is marked for a field, required or not. */
  lemma MarksField(fields: seq<Field>, seen: set<nat>, bits: set<nat>, i: nat)
    requires Marked(fields, seen, bits) && (if fields == [] then i == 0 else i < |fields|)
    ensures if i >= |fields| then Marked(fields, seen, bits + {0})
            else if fields[i].rule == Required then
              var k := RequiredBefore(EntriesOf(fields), i);
              Marked(fields, seen + {i}, if k < MAX_REQUIRED then bits + {k} else bits)
            else Marked(fields, seen + {i}, bits)
  {
    hide RequiredBefore;
    if i < |fields| && fields[i].rule == Required {
      MarksRequired(fields, seen, bits, i);
    }
  }

  lemma IndexIs(iter: FieldIter)
    requires iter.Valid()
    ensures iter.pos < |iter.entries| ==> iter.requiredFieldIndex == RequiredBefore(iter.entries, iter.pos)
    ensures iter.pos < |iter.entries| ==> iter.At(iter.pos) == iter.entries[iter.pos]
    ensures iter.entries == [] ==> iter.pos == 0 && iter.requiredFieldIndex == 0 && iter.At(iter.pos) == TERMINATOR
    ensures iter.entries != [] ==> iter.pos < |iter.entries|
  {
  }

  /** How a turn of the loop of pb_decode_noinit ends. */
  datatype Step = Fail | Stop | Go

  /** One turn of the loop: a tag, and the field it is of. */
  method DecodeField(s: IStream, iter: FieldIter, fieldsSeen: FieldsSeen, fields: seq<Field>, slots: seq<Slot>, ghost seen: set<nat>)
    returns (step: Step, dest: seq<Slot>, ghost seen': set<nat>)
    requires DescOk(fields) && s.left != [] && iter.Valid() && iter.entries == EntriesOf(fields) && fieldsSeen.Valid()
    requires Marked(fields, seen, fieldsSeen.seen)
    modifies s, iter, fieldsSeen, fieldsSeen.words
    ensures iter.Valid() && fieldsSeen.Valid() && fieldsSeen.words == old(fieldsSeen.words) && Marked(fields, seen', fieldsSeen.seen)
    ensures |s.left| < |old(s.left)| || step == Fail
    ensures DecodeMsg(fields, slots, old(s.left), seen)
         == match step { case Fail => None case Stop => Outcome(fields, slots, seen) case Go => DecodeMsg(fields, dest, s.left, seen') }
    ensures step == Stop ==> dest == slots && seen' == seen
    decreases |s.left|, 2
  {
    hide *;
    step, dest, seen' := Fail, slots, seen;
    TagIs(s.left);
    Turn(fields, slots, s.left, seen);
    var ok, temp := s.DecodeVarint32();
    if !ok {
      return;
    }
    if temp == 0 {
      step := Stop;
      return;
    }
    var tag, wireType := temp / 8, temp % 8;
    var found := iter.Find(tag);
    FoundIs(fields, tag, iter.pos);
    if !found {
      SkipIs(fields, tag, wireType, s.left);
      ok := s.SkipField(wireType);
      step := if ok then Go else Fail;
      return;
    }
    var index := iter.pos;
    MarksField(fields, seen, fieldsSeen.seen, index);
    IndexIs(iter);
    if iter.At(index).required && iter.requiredFieldIndex < MAX_REQUIRED {
      fieldsSeen.Mark(iter.requiredFieldIndex);
    }
    seen' := if fields == [] then seen else seen + {index};
    if |fields| == 0 {
      SkipIs(fields, tag, wireType, s.left);
      var value;
      ok, value := s.DecodeVarint32();
      step := if ok then Go else Fail;
      return;
    }
    if |slots| != |fields| {
      return;    // a struct of another type
    }
    ok, dest := DecodeAt(s, fields, slots, index, wireType);
    step := if ok then Go else Fail;
  }

  /** pb_decode_noinit. */
  method DecodeNoinit(s: IStream, fields: seq<Field>, slots: seq<Slot>) returns (ok: bool, dest: seq<Slot>)
    requires DescOk(fields)
    modifies s
    ensures ok == DecodeMsg(fields, slots, old(s.left), {}).Some?
    ensures ok ==> dest == DecodeMsg(fields, slots, old(s.left), {}).value
    decreases |s.left|, 3
  {
    hide *;
    dest := slots;
    TagsAreNotZero(fields);
    var iter := new FieldIter(EntriesOf(fields));
    var fieldsSeen := new FieldsSeen();
    ghost var seen: set<nat> := {};
    ghost var all := DecodeMsg(fields, slots, s.left, {});
    NothingMarked(fields);
    var running := |s.left| > 0;
    NoBytes(fields, slots, {});
    while running
      invariant iter.Valid() && iter.entries == EntriesOf(fields) && fieldsSeen.Valid() && fresh(iter) && fresh(fieldsSeen) && fresh(fieldsSeen.words)
      invariant Marked(fields, seen, fieldsSeen.seen)
      invariant |s.left| <= |old(s.left)|
      invariant if running then |s.left| > 0 && DecodeMsg(fields, dest, s.left, seen) == all else Outcome(fields, dest, seen) == all
      decreases running, |s.left|
    {
      var step;
      step, dest, seen := DecodeField(s, iter, fieldsSeen, fields, dest, seen);
      if step == Fail {
        return false, dest;
      }
      running := step == Go && |s.left| > 0;
      NoBytes(fields, dest, seen);
    }
    var count := CountRequired(iter);
    EntriesCount(fields);
    MarkedBits(fields, seen, fieldsSeen.seen);
    ok := fieldsSeen.Complete(count);
    BitsAnswer(fields, seen, fieldsSeen.seen);
    OutcomeIs(fields, dest, seen);
  }

  /** pb_decode: over the defaults. */
  method Decode(s: IStream, fields: seq<Field>) returns (ok: bool, dest: seq<Slot>)
    requires DescOk(fields)
    modifies s
    ensures ok == DecodeMsg(fields, Defaults(fields), old(s.left), {}).Some?
    ensures ok ==> dest == DecodeMsg(fields, Defaults(fields), old(s.left), {}).value
  {
    hide *;
    ok, dest := DecodeNoinit(s, fields, Defaults(fields));
  }

  lemma TagsAreNotZero(fields: seq<Field>)
    requires DescOk(fields)
    ensures forall i :: 0 <= i < |fields| ==> EntriesOf(fields)[i].tag != 0
  {
    hide KindOk;
    forall i | 0 <= i < |fields|
      ensures EntriesOf(fields)[i].tag != 0
    {
      assert FieldOk(fields[i]);
    }
  }

  lemma NothingMarked(fields: seq<Field>)
    ensures Marked(fields, {}, {})
  {
  }

  /** A message without bytes left is finished. */
  lemma NoBytes(fields: seq<Field>, slots: seq<Slot>, seen: set<nat>)
    ensures DecodeMsg(fields, slots, [], seen) == Outcome(fields, slots, seen)
  {
  }

  lemma OutcomeIs(fields: seq<Field>, slots: seq<Slot>, seen: set<nat>)
    ensures Outcome(fields, slots, seen) == if RequiredSeen(fields, seen) then Some(slots) else None
  {
  }

  lemma EntriesCount(fields: seq<Field>)
    ensures |EntriesOf(fields)| == |fields|
  {
  }

  lemma MarkedBits(fields: seq<Field>, seen: set<nat>, bits: set<nat>)
    requires Marked(fields, seen, bits)
    ensures var count := RequiredBefore(EntriesOf(fields), |fields|);
            count > 0 ==> forall j :: j in bits ==> j < count
  {
  }

  lemma TagIs(data: Bytes)
    ensures DecodeTag(data) == match ReadVarint32(data) { case None => None case Some(p) => Some((if p.0 == 0 then Zero else Tag(p.0 / 8, p.0 % 8), p.1)) }
  {
  }

  /** What a tag does to the rest of the decoding. */
  lemma Turn(fields: seq<Field>, slots: seq<Slot>, data: Bytes, seen: set<nat>)
    requires data != []
    ensures DecodeTag(data).Some? ==> |DecodeTag(data).value.1| < |data|
    ensures DecodeMsg(fields, slots, data, seen) ==
      match DecodeTag(data) {
        case None => None
        case Some(p) =>
          if p.0 == Zero then Outcome(fields, slots, seen)
          else match FindTag(fields, p.0.tag) {
            case None =>
              (match SkipUnknown(fields, p.0.tag, p.0.wireType, p.1) {
                case None => None
                case Some(rest) => DecodeMsg(fields, slots, rest, seen) })
            case Some(i) =>
              if |slots| != |fields| then None
              else match DecodeSlot(fields[i], slots[i], p.0.wireType, p.1) {
                case None => None
                case Some(r) => DecodeMsg(fields, Stored(fields, slots, i, r.0), r.1, seen + {i}) } } }
  {
    hide DecodeTag, DecodeSlot, SkipUnknown, FindTag, Outcome;
    TagShrinks(data);
  }
}
