/** A message written to a buffer and read back from it, and where that fails. */
module PbTheorem {
  import opened Keys
  import opened Pb
  import opened PbDecode
  import opened PbEncode
  import opened PbMessage

  // ----- a message that fits can be encoded

  lemma {:induction false} FitsIsShaped(kind: Kind, v: Value)
    requires KindOk(kind) && FitsValue(kind, v)
    ensures ShapedValue(kind, v)
    decreases kind, 0
  {
    hide FitsNumber;
    if kind.Sub? {
      FitsIsShapedMsg(kind.fields, v.slots);
    }
  }

  lemma {:induction false} FitsIsShapedSlot(f: Field, slot: Slot)
    requires FieldOk(f) && FitsSlot(f, slot)
    ensures ShapedSlot(f, slot)
    decreases f, 0
  {
    hide FitsValue, ShapedValue;
    FieldFacts(f);
    match slot
    case One(v) => FitsIsShaped(f.kind, v);
    case Opt(o) =>
      if o.Some? {
        FitsIsShaped(f.kind, o.value);
      }
    case Many(vs) =>
      forall v | v in vs
        ensures ShapedValue(f.kind, v)
      {
        FitsIsShaped(f.kind, v);
      }
  }

  lemma {:induction false} FitsIsShapedMsg(fields: seq<Field>, slots: seq<Slot>)
    requires DescOk(fields) && FitsMsg(fields, slots)
    ensures Shaped(fields, slots)
    decreases fields, 0
  {
    hide FitsSlot, ShapedSlot, OneofsOk;
    forall i | 0 <= i < |fields|
      ensures fields[i].tag != 0 && ShapedSlot(fields[i], slots[i])
    {
      assert FieldOk(fields[i]);
      FitsIsShapedSlot(fields[i], slots[i]);
    }
  }

  lemma {:induction false} FitsMayEncode(kind: Kind, v: Value)
    requires FitsValue(kind, v)
    ensures MayEncode(kind, v)
    decreases kind, 0
  {
    hide Half;
    if kind.Sub? {
      FitsMayEncodeFrom(kind.fields, v.slots, 0);
    }
  }

  lemma {:induction false} FitsMayEncodeAll(f: Field, vs: seq<Value>)
    requires forall v :: v in vs ==> FitsValue(f.kind, v)
    ensures MayEncodeAll(f.kind, vs)
    decreases f, 0, |vs|
  {
    hide FitsValue, MayEncode;
    if vs != [] {
      assert vs[0] in vs && forall v :: v in vs[1..] ==> v in vs;
      FitsMayEncode(f.kind, vs[0]);
      FitsMayEncodeAll(f, vs[1..]);
    }
  }

  lemma {:induction false} FitsMayEncodeSlot(f: Field, slot: Slot)
    requires FitsSlot(f, slot)
    ensures MayEncodeSlot(f, slot)
    decreases f, 1
  {
    hide FitsValue, MayEncode, MayEncodeAll, IsZero;
    match slot
    case One(v) => FitsMayEncode(f.kind, v);
    case Opt(o) =>
      if o.Some? {
        FitsMayEncode(f.kind, o.value);
      }
    case Many(vs) => FitsMayEncodeAll(f, vs);
  }

  lemma {:induction false} FitsMayEncodeFrom(fields: seq<Field>, slots: seq<Slot>, i: nat)
    requires FitsMsg(fields, slots)
    ensures MayEncodeFrom(fields, slots, i)
    decreases fields, |fields| - i
  {
    hide FitsSlot, MayEncodeSlot, OneofsOk;
    if i < |fields| {
      FitsMayEncodeSlot(fields[i], slots[i]);
      FitsMayEncodeFrom(fields, slots, i + 1);
    }
  }

  // ----- through streams

  /** pb_get_encoded_size. */
  method GetEncodedSize(fields: seq<Field>, slots: seq<Slot>) returns (ok: bool, size: nat)
    requires Shaped(fields, slots)
    ensures ok <==> MayEncodeFrom(fields, slots, 0)
    ensures ok ==> size == |EncodeFrom(fields, slots, 0)|
  {
    hide Shaped, MayEncodeFrom, EncodeFrom;
    var stream := new OStream.Sizing();
    ok := Encode(stream, fields, slots);
    size := stream.bytesWritten;
  }

  /** A message that fits its descriptors, encoded into a buffer of just the size that
      the counting pass finds, and decoded: when that succeeds, what comes back, and
      when it is the message. */
  method EncodeAndDecode(fields: seq<Field>, slots: seq<Slot>) returns (ok: bool, decoded: seq<Slot>)
    requires DescOk(fields) && FitsMsg(fields, slots)
    ensures ok <==> EndedFrom(fields, slots, 0)
    ensures ok ==> decoded == BackMsg(fields, slots)
    ensures ok && decoded == slots <==> EndedFrom(fields, slots, 0) && ZerosKept(fields, slots)
  {
    hide Shaped, MayEncodeFrom, EncodeFrom, DescOk, FitsMsg, DecodeMsg, EndedFrom, BackMsg, ZerosKept;
    FitsIsShapedMsg(fields, slots);
    FitsMayEncodeFrom(fields, slots, 0);
    MsgRead(fields, slots);
    BackIsSame(fields, slots);
    var size;
    ok, size := GetEncodedSize(fields, slots);
    var stream := new OStream.FromBuffer(size);
    ok := Encode(stream, fields, slots);
    assert [] + EncodeFrom(fields, slots, 0) == EncodeFrom(fields, slots, 0);
    var input := new IStream(stream.out);
    ok, decoded := Decode(input, fields);
  }

  // ----- where the round trip fails

  /** A string that leaves no room for its zero is written and cannot be read. Among the
      strings a field can hold it is the only one. */
  lemma FullStringIsLost(size: nat, b: Bytes, rest: Bytes)
    requires |b| <= size && |b| < WORD && 0 !in b
    ensures DecodeValue(Str(size), [], EncodeValue(Str(size), Raw(b)) + rest) == Some((Raw(b), rest)) <==> |b| < size
  {
    SubstreamRoundTrip(b, rest);
    CStringWhole(b);
  }

  /** A field without a has_ flag that holds zero is not written, and is read as its
      default, whatever that is. */
  lemma ZeroIsLost(f: Field, v: Value)
    requires FieldOk(f) && f.rule == Implicit && FitsValue(f.kind, v) && IsZero(f.kind, v)
    ensures EncodeFrom([f], [One(v)], 0) == []
    ensures DecodeMsg([f], Defaults([f]), [], {}) == Some([DefaultSlot(f)])
  {
    hide IsZero, FitsValue, KindOk, DefaultSlot;
    assert EncodeFrom([f], [One(v)], 1) == [];
    assert Defaults([f]) == [DefaultSlot(f)];
  }

  /** When a field without a has_ flag keeps its value. */
  lemma ImplicitRoundTrip(f: Field, v: Value)
    requires FieldOk(f) && f.rule == Implicit && FitsValue(f.kind, v)
    ensures DecodeMsg([f], Defaults([f]), EncodeFrom([f], [One(v)], 0), {}) == Some([One(v)])
       <==> if IsZero(f.kind, v) then One(v) == DefaultSlot(f) else EndedValue(f.kind, v) && ZerosKeptValue(f.kind, v)
  {
    hide IsZero, FitsValue, KindOk, DefaultSlot, EndedValue, ZerosKeptValue, DecodeMsg, EncodeFrom, FieldOk;
    assert DescOk([f]) && FitsMsg([f], [One(v)]);
    MsgRoundTripExactly([f], [One(v)]);
    assert EndedFrom([f], [One(v)], 0) <==> EndedSlot([f][0], [One(v)][0]);
    assert ZerosKept([f], [One(v)]) <==> ZerosKeptSlot([f][0], [One(v)][0]);
  }
}
