/** The encoder (`pb_encode.c`): writing to a stream that may only count. A message is
    written if and only if it may be and there is room, and the pass that only counts
    finds the size the other pass writes. */
module PbEncode {
  import opened Coding
  import opened Keys
  import opened Pb
  import opened PbIter
  import opened PbMessage

  datatype Error = NoError | StreamFull | ArrayTooLong | InvalidSize | BytesTooLong | SizeChanged

  /** pb_ostream_t. A stream without a callback only counts. */
  class OStream {
    const sizing: bool
    const maxSize: nat
    var out: Bytes
    var bytesWritten: nat
    var error: Error

    constructor Sizing()
      ensures sizing && out == [] && bytesWritten == 0 && error == NoError
    {
      sizing, maxSize, out, bytesWritten, error := true, 0, [], 0, NoError;
    }

    constructor FromBuffer(size: nat)
      ensures !sizing && maxSize == size && out == [] && bytesWritten == 0 && error == NoError
    {
      sizing, maxSize, out, bytesWritten, error := false, size, [], 0, NoError;
    }

    /** There is room for this many bytes more. */
    ghost predicate Room(n: nat)
      reads this
    {
      sizing || n == 0 || bytesWritten + n <= maxSize
    }

    /** pb_write: whether there was room. */
    method Write(b: Bytes) returns (ok: bool)
      modifies this
      ensures ok <==> old(Room(|b|))
      ensures ok ==> bytesWritten == old(bytesWritten) + |b| && out == (if sizing then old(out) else old(out) + b) && error == old(error)
      ensures !ok ==> error == StreamFull
    {
      if |b| > 0 && !sizing {
        if bytesWritten + |b| > maxSize {
          error := StreamFull;
          return false;
        }
        out := out + b;
      }
      bytesWritten := bytesWritten + |b|;
      assert sizing || b != [] || old(out) + b == old(out);
      ok := true;
    }

    /** pb_write without data, on a stream that only counts. */
    method Skip(n: nat) returns (ok: bool)
      requires sizing
      modifies this
      ensures ok && bytesWritten == old(bytesWritten) + n && out == old(out) && error == old(error)
    {
      bytesWritten := bytesWritten + n;
      ok := true;
    }
  }

  /** `b` has been written since the stream was as given. */
  ghost predicate Wrote(s: OStream, out: Bytes, written: nat, b: Bytes)
    reads s
  {
    s.bytesWritten == written + |b| && s.out == if s.sizing then out else out + b
  }

  lemma WroteMore(s: OStream, out: Bytes, written: nat, a: Bytes, b: Bytes, middle: Bytes)
    requires middle == (if s.sizing then out else out + a) && Wrote(s, middle, written + |a|, b)
    ensures Wrote(s, out, written, a + b)
  {
    ConcatAssoc(out, a, b);
  }

  /** No error comes up where there was none. */
  predicate KeepsError(before: Error, after: Error) {
    before == NoError ==> after == NoError
  }

  // ----- what may be encoded

  /** The struct has the shape its descriptor gives it. */
  ghost predicate ShapedValue(kind: Kind, v: Value)
    decreases kind
  {
    match kind
    case Sub(fields) => v.Msg? && Shaped(fields, v.slots)
    case Blob(_) => v.Raw?
    case Str(size) => v.Raw? && |v.b| <= size && 0 !in v.b
    case FixedBlob(size) => v.Raw? && |v.b| == size
    case _ => v.Num?
  }

  ghost predicate ShapedSlot(f: Field, slot: Slot)
    decreases f
  {
    match f.rule
    case Required => slot.One? && ShapedValue(f.kind, slot.v)
    case Implicit => slot.One? && ShapedValue(f.kind, slot.v)
    case Repeated(_) => slot.Many? && forall v :: v in slot.vs ==> ShapedValue(f.kind, v)
    case _ => slot.Opt? && (slot.o.Some? ==> ShapedValue(f.kind, slot.o.value))
  }

  ghost predicate Shaped(fields: seq<Field>, slots: seq<Slot>)
    decreases fields
  {
    |slots| == |fields| && forall i :: 0 <= i < |fields| ==> fields[i].tag != 0 && ShapedSlot(fields[i], slots[i])
  }

  /** No array and no bytes field is longer than it may be. */
  predicate MayEncode(kind: Kind, v: Value)
    decreases kind, 0
  {
    match kind
    case Sub(fields) => v.Msg? && MayEncodeFrom(fields, v.slots, 0)
    case Blob(capacity) => v.Raw? && |v.b| <= capacity
    case Int(size) => IsSize(size)
    case UInt(size) => IsSize(size)
    case SInt(size) => IsSize(size)
    case _ => true
  }

  predicate MayEncodeAll(kind: Kind, vs: seq<Value>)
    decreases kind, 1, |vs|
  {
    vs != [] ==> MayEncode(kind, vs[0]) && MayEncodeAll(kind, vs[1..])
  }

  predicate MayEncodeSlot(f: Field, slot: Slot)
    decreases f, 1
  {
    match slot
    case One(v) => (f.rule == Implicit && IsZero(f.kind, v)) || MayEncode(f.kind, v)
    case Opt(o) => o.Some? ==> MayEncode(f.kind, o.value)
    case Many(vs) => vs == [] || (f.rule.Repeated? && |vs| <= f.rule.max && MayEncodeAll(f.kind, vs))
  }

  predicate MayEncodeFrom(fields: seq<Field>, slots: seq<Slot>, i: nat)
    decreases fields, |fields| - i
  {
    i < |fields| && i < |slots| ==> MayEncodeSlot(fields[i], slots[i]) && MayEncodeFrom(fields, slots, i + 1)
  }

  // ----- varints

  /** pb_encode_varint: seven bits a byte, and the top bit of the last byte taken back. */
  method VarintBytes(value: nat) returns (buffer: Bytes)
    ensures buffer == Varint(value)
  {
    if value <= 0x7f {
      return [value];
    }
    buffer := [];
    var left: nat := value;
    while left > 0
      invariant left > 0 ==> buffer + Varint(left) == Varint(value)
      invariant left == 0 ==> buffer != [] && buffer[|buffer| - 1] >= 128 && buffer[..|buffer| - 1] + [buffer[|buffer| - 1] - 128] == Varint(value)
    {
      ghost var before := buffer;
      buffer := buffer + [left % 128 + 128];
      assert buffer[..|buffer| - 1] == before;
      if left >= 128 {
        ConcatAssoc(before, [left % 128 + 128], Varint(left / 128));
      }
      left := left / 128;
    }
    buffer := buffer[..|buffer| - 1] + [buffer[|buffer| - 1] - 128];
  }

  method EncodeVarint(s: OStream, value: nat) returns (ok: bool)
    modifies s
    ensures ok <==> old(s.Room(|Varint(value)|))
    ensures ok ==> Wrote(s, old(s.out), old(s.bytesWritten), Varint(value)) && s.error == old(s.error)
    ensures !ok ==> s.error == StreamFull
  {
    var buffer := VarintBytes(value);
    ok := s.Write(buffer);
  }

  method EncodeTag(s: OStream, wireType: nat, tag: nat) returns (ok: bool)
    requires wireType < 8
    modifies s
    ensures ok <==> old(s.Room(|TagOf(tag, wireType)|))
    ensures ok ==> Wrote(s, old(s.out), old(s.bytesWritten), TagOf(tag, wireType)) && s.error == old(s.error)
    ensures !ok ==> s.error == StreamFull
  {
    ok := EncodeVarint(s, tag * 8 + wireType);
  }

  /** pb_encode_string. */
  method EncodeString(s: OStream, b: Bytes) returns (ok: bool)
    modifies s
    ensures ok <==> old(s.Room(|Prefixed(b)|))
    ensures ok ==> Wrote(s, old(s.out), old(s.bytesWritten), Prefixed(b)) && s.error == old(s.error)
    ensures !ok ==> s.error == StreamFull
  {
    hide Varint;
    ok := EncodeVarint(s, |b|);
    if ok {
      ghost var middle := s.out;
      ok := s.Write(b);
      if ok {
        WroteMore(s, old(s.out), old(s.bytesWritten), Varint(|b|), b, middle);
      }
    }
  }

  /** The encoders of numbers. */
  method WriteNumber(s: OStream, kind: Kind, n: int) returns (ok: bool)
    requires Packable(kind)
    modifies s
    ensures ok <==> MayEncode(kind, Num(n)) && old(s.Room(|EncodeNumber(kind, n)|))
    ensures ok ==> Wrote(s, old(s.out), old(s.bytesWritten), EncodeNumber(kind, n)) && s.error == old(s.error)
    ensures !ok ==> s.error != SizeChanged
  {
    hide Varint, Fixed;
    match kind
    case Bool => ok := EncodeVarint(s, if n != 0 then 1 else 0);
    case Int(size) => ok := WriteSized(s, size, ToLong(n));
    case UInt(size) => ok := WriteSized(s, size, ToLong(n));
    case SInt(size) => ok := WriteSized(s, size, ZigZag(n));
    case Fixed32 => ok := s.Write(Fixed(ToLong(n), 4));
    case Fixed64 => ok := s.Write(Fixed(ToLong(n), 8));
  }

  method WriteSized(s: OStream, size: nat, v: nat) returns (ok: bool)
    modifies s
    ensures ok <==> IsSize(size) && old(s.Room(|Varint(v)|))
    ensures ok ==> Wrote(s, old(s.out), old(s.bytesWritten), Varint(v)) && s.error == old(s.error)
    ensures !ok ==> s.error != SizeChanged
  {
    if !(size == 1 || size == 2 || size == 4 || size == 8) {
      s.error := InvalidSize;
      return false;
    }
    ok := EncodeVarint(s, v);
  }

  /** The encoder of a value: by its kind. */
  method WriteValue(s: OStream, kind: Kind, v: Value) returns (ok: bool)
    requires ShapedValue(kind, v)
    modifies s
    ensures ok <==> MayEncode(kind, v) && old(s.Room(|EncodeValue(kind, v)|))
    ensures ok ==> Wrote(s, old(s.out), old(s.bytesWritten), EncodeValue(kind, v)) && KeepsError(old(s.error), s.error)
    ensures !ok ==> s.error != SizeChanged
    decreases kind, 1
  {
    hide EncodeNumber, Prefixed, EncodeFrom, MayEncodeFrom, Shaped;
    if kind.Sub? {
      ok := EncodeSubmessage(s, kind.fields, v.slots);
    } else if Packable(kind) {
      ok := WriteNumber(s, kind, v.n);
    } else {
      if kind.Blob? && |v.b| > kind.capacity {
        s.error := BytesTooLong;
        return false;
      }
      ok := EncodeString(s, v.b);
    }
  }

  /** pb_encode_submessage: first the size from a stream that only counts, then the
      message into a stream with just that much room. The sizes never differ. */
  method EncodeSubmessage(s: OStream, fields: seq<Field>, slots: seq<Slot>) returns (ok: bool)
    requires Shaped(fields, slots)
    modifies s
    ensures ok <==> MayEncodeFrom(fields, slots, 0) && old(s.Room(|Prefixed(EncodeFrom(fields, slots, 0))|))
    ensures ok ==> Wrote(s, old(s.out), old(s.bytesWritten), Prefixed(EncodeFrom(fields, slots, 0))) && KeepsError(old(s.error), s.error)
    ensures !ok ==> s.error != SizeChanged
    decreases fields, |fields| + 2
  {
    hide Varint, EncodeFrom, MayEncodeFrom, Shaped;
    ghost var message := EncodeFrom(fields, slots, 0);
    var substream := new OStream.Sizing();
    var status := Encode(substream, fields, slots);
    if !status {
      s.error := substream.error;
      return false;
    }
    var size := substream.bytesWritten;
    status := EncodeVarint(s, size);
    if !status {
      return false;
    }
    ghost var middle := s.out;
    if s.sizing {
      ok := s.Skip(size);
      return;
    }
    if s.bytesWritten + size > s.maxSize {
      s.error := StreamFull;
      return false;
    }
    substream := new OStream.FromBuffer(size);
    status := Encode(substream, fields, slots);
    s.bytesWritten := s.bytesWritten + substream.bytesWritten;
    s.out := s.out + substream.out;
    s.error := substream.error;
    if substream.bytesWritten != size {
      assert false;    // "submsg size changed" is never reported
    }
    ConcatAssoc(old(s.out), Varint(|message|), message);
    ok := status;
  }

  /** encode_array: packed when the kind allows it. */
  method EncodeArray(s: OStream, f: Field, vs: seq<Value>) returns (ok: bool)
    requires f.rule.Repeated? && forall v :: v in vs ==> ShapedValue(f.kind, v)
    modifies s
    ensures ok <==> MayEncodeSlot(f, Many(vs)) && old(s.Room(|EncodeSlot(f, Many(vs))|))
    ensures ok ==> Wrote(s, old(s.out), old(s.bytesWritten), EncodeSlot(f, Many(vs))) && KeepsError(old(s.error), s.error)
    ensures !ok ==> s.error != SizeChanged
    decreases f, 2
  {
    hide ShapedValue, EncodePacked, TagOf, Prefixed, MayEncodeAll, EncodeEach;
    if vs == [] {
      assert old(s.out) + [] == old(s.out);
      return true;
    }
    if |vs| > f.rule.max {
      s.error := ArrayTooLong;
      return false;
    }
    if Packable(f.kind) {
      ok := EncodePackedArray(s, f, vs);
    } else {
      ok := EncodeElements(s, f, vs);
    }
  }

  /** The elements one after the other, without tags. */
  method WriteAll(s: OStream, kind: Kind, vs: seq<Value>) returns (ok: bool)
    requires Packable(kind) && forall v :: v in vs ==> ShapedValue(kind, v)
    modifies s
    ensures ok <==> MayEncodeAll(kind, vs) && old(s.Room(|EncodePacked(kind, vs)|))
    ensures ok ==> Wrote(s, old(s.out), old(s.bytesWritten), EncodePacked(kind, vs)) && KeepsError(old(s.error), s.error)
    ensures !ok ==> s.error != SizeChanged
  {
    hide EncodeNumber, EncodePacked, MayEncode, MayEncodeAll;
    ghost var done: Bytes := [];
    assert old(s.out) + [] == old(s.out);
    FromFirst(kind, vs);
    for i := 0 to |vs|
      invariant Wrote(s, old(s.out), old(s.bytesWritten), done) && KeepsError(old(s.error), s.error) && old(s.Room(|done|))
      invariant EncodePacked(kind, vs) == done + EncodePacked(kind, vs[i..])
      invariant MayEncodeAll(kind, vs) <==> MayEncodeAll(kind, vs[i..])
    {
      PackedNext(kind, vs, i);
      ghost var middle := s.out;
      ghost var number := EncodeNumber(kind, vs[i].n);
      ok := WriteNumber(s, kind, vs[i].n);
      ConcatAssoc(done, number, EncodePacked(kind, vs[i + 1..]));
      if !ok {
        return;
      }
      WroteMore(s, old(s.out), old(s.bytesWritten), done, number, middle);
      done := done + number;
    }
    AtEnd(kind, vs, done);
    ok := true;
  }

  lemma FromFirst(kind: Kind, vs: seq<Value>)
    ensures vs[0..] == vs && EncodePacked(kind, vs) == [] + EncodePacked(kind, vs[0..])
  {
  }

  lemma AtEnd(kind: Kind, vs: seq<Value>, done: Bytes)
    ensures vs[|vs|..] == [] && done + EncodePacked(kind, []) == done && MayEncodeAll(kind, [])
  {
  }

  lemma PackedNext(kind: Kind, vs: seq<Value>, i: nat)
    requires Packable(kind) && i < |vs| && forall v :: v in vs ==> ShapedValue(kind, v)
    ensures vs[i].Num? && EncodePacked(kind, vs[i..]) == EncodeNumber(kind, vs[i].n) + EncodePacked(kind, vs[i + 1..])
    ensures MayEncodeAll(kind, vs[i..]) <==> MayEncode(kind, vs[i]) && MayEncodeAll(kind, vs[i + 1..])
  {
    hide EncodeNumber, MayEncode;
    assert vs[i] in vs && vs[i..][0] == vs[i] && vs[i..][1..] == vs[i + 1..];
  }

  /** The size of a packed array: by counting, unless all elements are as long. */
  method PackedSize(s: OStream, kind: Kind, vs: seq<Value>) returns (ok: bool, size: nat)
    requires Packable(kind) && forall v :: v in vs ==> ShapedValue(kind, v)
    modifies s
    ensures ok <==> MayEncodeAll(kind, vs)
    ensures ok ==> size == |EncodePacked(kind, vs)|
    ensures s.out == old(s.out) && s.bytesWritten == old(s.bytesWritten) && s.error == old(s.error)
  {
    hide EncodeNumber, EncodePacked, MayEncode, MayEncodeAll, ShapedValue;
    if kind == Fixed32 {
      FixedSize(kind, vs, 4);
      return true, 4 * |vs|;
    } else if kind == Fixed64 {
      FixedSize(kind, vs, 8);
      return true, 8 * |vs|;
    }
    var sizestream := new OStream.Sizing();
    ok := WriteAll(sizestream, kind, vs);
    size := sizestream.bytesWritten;
  }

  lemma {:induction false} FixedSize(kind: Kind, vs: seq<Value>, n: nat)
    requires (kind == Fixed32 && n == 4) || (kind == Fixed64 && n == 8)
    requires forall v :: v in vs ==> ShapedValue(kind, v)
    ensures |EncodePacked(kind, vs)| == n * |vs| && MayEncodeAll(kind, vs)
  {
    if vs != [] {
      assert vs[0] in vs && forall v :: v in vs[1..] ==> v in vs;
      FixedSize(kind, vs[1..], n);
    }
  }

  method EncodePackedArray(s: OStream, f: Field, vs: seq<Value>) returns (ok: bool)
    requires Packable(f.kind) && forall v :: v in vs ==> ShapedValue(f.kind, v)
    modifies s
    ensures ok <==> MayEncodeAll(f.kind, vs) && old(s.Room(|TagOf(f.tag, 2) + Prefixed(EncodePacked(f.kind, vs))|))
    ensures ok ==> Wrote(s, old(s.out), old(s.bytesWritten), TagOf(f.tag, 2) + Prefixed(EncodePacked(f.kind, vs))) && KeepsError(old(s.error), s.error)
    ensures !ok ==> s.error != SizeChanged
  {
    hide ShapedValue, EncodePacked, TagOf, Varint, MayEncodeAll, EncodeNumber;
    ghost var tag, packed := TagOf(f.tag, 2), EncodePacked(f.kind, vs);
    ok := EncodeTag(s, 2, f.tag);
    if !ok {
      return;
    }
    ghost var middle := s.out;
    var size;
    ok, size := PackedSize(s, f.kind, vs);
    if !ok {
      s.error := InvalidSize;
      return;
    }
    ok := EncodeVarint(s, size);
    if !ok {
      return;
    }
    WroteMore(s, old(s.out), old(s.bytesWritten), tag, Varint(size), middle);
    ConcatAssoc(tag, Varint(size), packed);
    middle := s.out;
    if s.sizing {
      ok := s.Skip(size);
      return;
    }
    ok := WriteAll(s, f.kind, vs);
    if ok {
      WroteMore(s, old(s.out), old(s.bytesWritten), tag + Varint(size), packed, middle);
    }
  }

  /** The elements of an array that is not packed, a tag in front of each. */
  method EncodeElements(s: OStream, f: Field, vs: seq<Value>) returns (ok: bool)
    requires forall v :: v in vs ==> ShapedValue(f.kind, v)
    modifies s
    ensures ok <==> MayEncodeAll(f.kind, vs) && old(s.Room(|EncodeEach(f, vs)|))
    ensures ok ==> Wrote(s, old(s.out), old(s.bytesWritten), EncodeEach(f, vs)) && KeepsError(old(s.error), s.error)
    ensures !ok ==> s.error != SizeChanged
    decreases f, 1
  {
    hide ShapedValue, EncodeEach, TagOf, EncodeValue, MayEncodeAll, MayEncode;
    ghost var done: Bytes := [];
    assert old(s.out) + [] == old(s.out);
    EachFirst(f, vs);
    for i := 0 to |vs|
      invariant Wrote(s, old(s.out), old(s.bytesWritten), done) && KeepsError(old(s.error), s.error) && old(s.Room(|done|))
      invariant EncodeEach(f, vs) == done + EncodeEach(f, vs[i..])
      invariant MayEncodeAll(f.kind, vs) <==> MayEncodeAll(f.kind, vs[i..])
    {
      EachNext(f, vs, i);
      ghost var tag, value, rest := TagOf(f.tag, WireType(f.kind)), EncodeValue(f.kind, vs[i]), EncodeEach(f, vs[i + 1..]);
      ConcatAssoc(done, tag + value, rest);
      ConcatAssoc(done, tag, value);
      ghost var middle := s.out;
      ok := EncodeTag(s, WireType(f.kind), f.tag);
      if !ok {
        return;
      }
      WroteMore(s, old(s.out), old(s.bytesWritten), done, tag, middle);
      middle := s.out;
      ok := WriteElement(s, f, vs[i]);
      if !ok {
        return;
      }
      WroteMore(s, old(s.out), old(s.bytesWritten), done + tag, value, middle);
      done := done + tag + value;
    }
    EachEnd(f, vs, done);
    ok := true;
  }

  method WriteElement(s: OStream, f: Field, v: Value) returns (ok: bool)
    requires ShapedValue(f.kind, v)
    modifies s
    ensures ok <==> MayEncode(f.kind, v) && old(s.Room(|EncodeValue(f.kind, v)|))
    ensures ok ==> Wrote(s, old(s.out), old(s.bytesWritten), EncodeValue(f.kind, v)) && KeepsError(old(s.error), s.error)
    ensures !ok ==> s.error != SizeChanged
    decreases f, 0
  {
    hide *;
    ok := WriteValue(s, f.kind, v);
  }

  lemma EachFirst(f: Field, vs: seq<Value>)
    ensures vs[0..] == vs && EncodeEach(f, vs) == [] + EncodeEach(f, vs[0..])
  {
  }

  lemma EachEnd(f: Field, vs: seq<Value>, done: Bytes)
    ensures vs[|vs|..] == [] && done + EncodeEach(f, []) == done && MayEncodeAll(f.kind, [])
  {
  }

  lemma EachNext(f: Field, vs: seq<Value>, i: nat)
    requires i < |vs|
    ensures vs[i] in vs
    ensures EncodeEach(f, vs[i..]) == TagOf(f.tag, WireType(f.kind)) + EncodeValue(f.kind, vs[i]) + EncodeEach(f, vs[i + 1..])
    ensures MayEncodeAll(f.kind, vs[i..]) <==> MayEncode(f.kind, vs[i]) && MayEncodeAll(f.kind, vs[i + 1..])
  {
    hide EncodeValue, MayEncode, TagOf;
    assert vs[i..][0] == vs[i] && vs[i..][1..] == vs[i + 1..];
  }

  /** encode_basic_field. */
  method EncodeField(s: OStream, f: Field, slot: Slot) returns (ok: bool)
    requires ShapedSlot(f, slot)
    modifies s
    ensures ok <==> MayEncodeSlot(f, slot) && old(s.Room(|EncodeSlot(f, slot)|))
    ensures ok ==> Wrote(s, old(s.out), old(s.bytesWritten), EncodeSlot(f, slot)) && KeepsError(old(s.error), s.error)
    ensures !ok ==> s.error != SizeChanged
    decreases f, 3
  {
    hide ShapedValue, EncodeEach, TagOf, EncodeValue, MayEncodeAll, MayEncode, IsZero, EncodePacked, Prefixed;
    assert old(s.out) + [] == old(s.out);
    match slot
    case One(v) =>
      ok := true;
      if !(f.rule == Implicit && IsZero(f.kind, v)) {
        ok := EncodeTagged(s, f, v);
      }
    case Opt(o) =>
      ok := true;
      if o.Some? {
        ok := EncodeTagged(s, f, o.value);
      }
    case Many(vs) =>
      ok := EncodeArray(s, f, vs);
  }

  method EncodeTagged(s: OStream, f: Field, v: Value) returns (ok: bool)
    requires ShapedValue(f.kind, v)
    modifies s
    ensures var b := TagOf(f.tag, WireType(f.kind)) + EncodeValue(f.kind, v);
            ok <==> MayEncode(f.kind, v) && old(s.Room(|b|))
    ensures ok ==> Wrote(s, old(s.out), old(s.bytesWritten), TagOf(f.tag, WireType(f.kind)) + EncodeValue(f.kind, v)) && KeepsError(old(s.error), s.error)
    ensures !ok ==> s.error != SizeChanged
    decreases f, 2
  {
    hide ShapedValue, TagOf, EncodeValue, MayEncode;
    ok := EncodeTag(s, WireType(f.kind), f.tag);
    if !ok {
      return;
    }
    ghost var middle := s.out;
    ok := WriteElement(s, f, v);
    if ok {
      WroteMore(s, old(s.out), old(s.bytesWritten), TagOf(f.tag, WireType(f.kind)), EncodeValue(f.kind, v), middle);
    }
  }

  /** pb_encode: the fields in order. */
  method Encode(s: OStream, fields: seq<Field>, slots: seq<Slot>) returns (ok: bool)
    requires Shaped(fields, slots)
    modifies s
    ensures ok <==> MayEncodeFrom(fields, slots, 0) && old(s.Room(|EncodeFrom(fields, slots, 0)|))
    ensures ok ==> Wrote(s, old(s.out), old(s.bytesWritten), EncodeFrom(fields, slots, 0)) && KeepsError(old(s.error), s.error)
    ensures !ok ==> s.error != SizeChanged
    decreases fields, |fields| + 1
  {
    hide Shaped, ShapedSlot, EncodeSlot, MayEncodeSlot, EncodeFrom, MayEncodeFrom, RequiredBefore, EntriesOf;
    ShapedFacts(fields, slots);
    assert old(s.out) + [] == old(s.out);
    FromEnd(fields, slots, []);
    var iter := new FieldIter(EntriesOf(fields));
    var more := iter.Begin();
    if !more {
      return true;
    }
    ghost var done: Bytes := [];
    assert EncodeFrom(fields, slots, 0) == done + EncodeFrom(fields, slots, 0);
    while more
      invariant iter.Valid() && iter.entries == EntriesOf(fields) && fresh(iter)
      invariant more ==> iter.pos < |fields|
      invariant Wrote(s, old(s.out), old(s.bytesWritten), done) && KeepsError(old(s.error), s.error) && old(s.Room(|done|))
      invariant more ==> EncodeFrom(fields, slots, 0) == done + EncodeFrom(fields, slots, iter.pos)
      invariant more ==> (MayEncodeFrom(fields, slots, 0) <==> MayEncodeFrom(fields, slots, iter.pos))
      invariant !more ==> EncodeFrom(fields, slots, 0) == done && MayEncodeFrom(fields, slots, 0)
      decreases more, |fields| - iter.pos
    {
      ghost var i := iter.pos;
      ShapedAt(fields, slots, i);
      FromNext(fields, slots, i);
      ghost var slot, rest := EncodeSlot(fields[i], slots[i]), EncodeFrom(fields, slots, i + 1);
      ConcatAssoc(done, slot, rest);
      ghost var middle := s.out;
      ok := EncodeField(s, fields[iter.pos], slots[iter.pos]);
      if !ok {
        return;
      }
      WroteMore(s, old(s.out), old(s.bytesWritten), done, slot, middle);
      done := done + slot;
      FromEnd(fields, slots, done);
      more := iter.Next();
    }
    ok := true;
  }

  lemma ShapedFacts(fields: seq<Field>, slots: seq<Slot>)
    requires Shaped(fields, slots)
    ensures |slots| == |fields| && forall i :: 0 <= i < |fields| ==> EntriesOf(fields)[i].tag != 0
  {
    hide ShapedSlot;
  }

  lemma ShapedAt(fields: seq<Field>, slots: seq<Slot>, i: nat)
    requires Shaped(fields, slots) && i < |fields|
    ensures |slots| == |fields| && ShapedSlot(fields[i], slots[i])
  {
    hide ShapedSlot;
  }

  lemma FromNext(fields: seq<Field>, slots: seq<Slot>, i: nat)
    requires i < |fields| == |slots|
    ensures EncodeFrom(fields, slots, i) == EncodeSlot(fields[i], slots[i]) + EncodeFrom(fields, slots, i + 1)
    ensures MayEncodeFrom(fields, slots, i) <==> MayEncodeSlot(fields[i], slots[i]) && MayEncodeFrom(fields, slots, i + 1)
  {
    hide EncodeSlot, MayEncodeSlot;
  }

  lemma FromEnd(fields: seq<Field>, slots: seq<Slot>, done: Bytes)
    ensures done + EncodeFrom(fields, slots, |fields|) == done && MayEncodeFrom(fields, slots, |fields|)
  {
  }
}
