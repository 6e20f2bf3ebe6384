/** What is written for a message and what is read back (`pb_encode.c`, `pb_decode.c`),
    and the round trip between the two. */
module PbMessage {
  import opened Coding
  import opened Keys
  import opened Pb
  import opened PbIter

  // ----- what the encoder writes

  /** pb_encode_tag_for_field: the wire type of a kind. */
  function WireType(kind: Kind): (wt: nat)
    ensures wt < 8
  {
    match kind
    case Fixed32 => 5
    case Fixed64 => 1
    case Blob(_) => 2
    case Str(_) => 2
    case FixedBlob(_) => 2
    case Sub(_) => 2
    case _ => 0
  }

  function TagOf(tag: nat, wireType: nat): Bytes {
    Varint(tag * 8 + wireType)
  }

  function Prefixed(b: Bytes): Bytes {
    Varint(|b|) + b
  }

  function EncodeValue(kind: Kind, v: Value): Bytes
    decreases kind
  {
    if kind.Sub? then (if v.Msg? then Prefixed(EncodeFrom(kind.fields, v.slots, 0)) else [])
    else if Packable(kind) then (if v.Num? then EncodeNumber(kind, v.n) else [])
    else if v.Raw? then Prefixed(v.b) else []
  }

  /** The elements of a packed array. */
  function EncodePacked(kind: Kind, vs: seq<Value>): Bytes {
    if vs == [] then []
    else (if vs[0].Num? then EncodeNumber(kind, vs[0].n) else []) + EncodePacked(kind, vs[1..])
  }

  /** The elements of an array that is not packed, a tag in front of each. */
  function EncodeEach(f: Field, vs: seq<Value>): Bytes
    decreases f, 0, |vs|
  {
    if vs == [] then [] else TagOf(f.tag, WireType(f.kind)) + EncodeValue(f.kind, vs[0]) + EncodeEach(f, vs[1..])
  }

  /** pb_check_proto3_default_value, for a value without a has_ flag. */
  predicate IsZero(kind: Kind, v: Value)
    decreases kind
  {
    match kind
    case Sub(fields) => v.Msg? && AllZero(fields, v.slots, 0)
    case Blob(_) => v == Raw([])
    case Str(_) => v == Raw([])
    case FixedBlob(size) => size == 0
    case _ => v == Num(0)
  }

  predicate SlotIsZero(f: Field, slot: Slot)
    decreases f
  {
    match f.rule
    case Required => false
    case Repeated(_) => slot == Many([])
    case Implicit => slot.One? && IsZero(f.kind, slot.v)
    case _ => slot == Opt(None)
  }

  predicate AllZero(fields: seq<Field>, slots: seq<Slot>, i: nat)
    decreases fields, |fields| - i
  {
    i < |fields| && i < |slots| ==> SlotIsZero(fields[i], slots[i]) && AllZero(fields, slots, i + 1)
  }

  /** A field without a has_ flag is not written when it is zero. */
  predicate LeftOut(f: Field, v: Value) {
    f.rule == Implicit && IsZero(f.kind, v)
  }

  /** encode_basic_field. */
  function EncodeSlot(f: Field, slot: Slot): Bytes
    decreases f, 1
  {
    match slot
    case One(v) => if LeftOut(f, v) then [] else TagOf(f.tag, WireType(f.kind)) + EncodeValue(f.kind, v)
    case Opt(o) => if o.None? then [] else TagOf(f.tag, WireType(f.kind)) + EncodeValue(f.kind, o.value)
    case Many(vs) =>
      if vs == [] then []
      else if Packable(f.kind) then TagOf(f.tag, 2) + Prefixed(EncodePacked(f.kind, vs))
      else EncodeEach(f, vs)
  }

  /** pb_encode: field after field. */
  function EncodeFrom(fields: seq<Field>, slots: seq<Slot>, i: nat): Bytes
    decreases fields, |fields| - i
  {
    if i < |fields| && i < |slots| then EncodeSlot(fields[i], slots[i]) + EncodeFrom(fields, slots, i + 1) else []
  }

  // ----- messages that fit their descriptors

  ghost predicate FitsValue(kind: Kind, v: Value)
    decreases kind
  {
    match kind
    case Sub(fields) => v.Msg? && FitsMsg(fields, v.slots) && |EncodeFrom(fields, v.slots, 0)| < WORD
    case Blob(capacity) => v.Raw? && |v.b| <= capacity && |v.b| < WORD
    case Str(size) => v.Raw? && |v.b| <= size && |v.b| < WORD && 0 !in v.b
    case FixedBlob(size) => v.Raw? && |v.b| == size < WORD
    case _ => v.Num? && FitsNumber(kind, v.n)
  }

  ghost predicate FitsSlot(f: Field, slot: Slot)
    decreases f
  {
    match f.rule
    case Required => slot.One? && FitsValue(f.kind, slot.v)
    case Implicit => slot.One? && FitsValue(f.kind, slot.v)
    case Repeated(max) =>
      && slot.Many? && |slot.vs| <= max && (forall v :: v in slot.vs ==> FitsValue(f.kind, v))
      && (Packable(f.kind) ==> |EncodePacked(f.kind, slot.vs)| < WORD)
    case _ => slot.Opt? && (slot.o.Some? ==> FitsValue(f.kind, slot.o.value))
  }

  /** At most one member of a oneof is set. */
  ghost predicate OneofsOk(fields: seq<Field>, slots: seq<Slot>) {
    forall i, j :: 0 <= i < j < |fields| && j < |slots| && fields[i].rule.Oneof? && fields[i].rule == fields[j].rule ==>
      slots[i] == Opt(None) || slots[j] == Opt(None)
  }

  ghost predicate FitsMsg(fields: seq<Field>, slots: seq<Slot>)
    decreases fields
  {
    |slots| == |fields| && OneofsOk(fields, slots) && forall i :: 0 <= i < |fields| ==> FitsSlot(fields[i], slots[i])
  }

  /** Descriptors as they are generated: every tag once. */
  ghost predicate DescOk(fields: seq<Field>)
    decreases fields
  {
    && (forall i :: 0 <= i < |fields| ==> FieldOk(fields[i]))
    && forall i, j :: 0 <= i < j < |fields| ==> fields[i].tag != fields[j].tag
  }

  ghost predicate FieldOk(f: Field)
    decreases f
  {
    0 < f.tag < 0x2000_0000 && KindOk(f.kind)
  }

  ghost predicate KindOk(kind: Kind)
    decreases kind
  {
    kind.Sub? ==> DescOk(kind.fields)
  }

  // ----- what the decoder starts from

  /** pb_message_set_to_defaults. */
  function Defaults(fields: seq<Field>): (r: seq<Slot>)
    ensures |r| == |fields|
    decreases fields
  {
    seq(|fields|, i requires 0 <= i < |fields| => DefaultSlot(fields[i]))
  }

  function DefaultSlot(f: Field): Slot
    decreases f
  {
    match f.rule
    case Repeated(_) => Many([])
    case Optional => Opt(None)
    case Oneof(_) => Opt(None)
    case _ => One(if f.kind.Sub? then Msg(Defaults(f.kind.fields)) else f.dflt)
  }

  /** What a submessage is decoded over when there was none. */
  function Base(kind: Kind): seq<Slot> {
    if kind.Sub? then Defaults(kind.fields) else []
  }

  function BaseOf(kind: Kind, v: Value): seq<Slot> {
    if v.Msg? then v.slots else Base(kind)
  }

  // ----- what the decoder reads

  /** pb_decode_tag: a zero ends the message. */
  datatype Tag = Zero | Tag(tag: nat, wireType: nat)

  function DecodeTag(data: Bytes): Option<(Tag, Bytes)> {
    match ReadVarint32(data)
    case None => None
    case Some(p) => Some((if p.0 == 0 then Zero else Tag(p.0 / 8, p.0 % 8), p.1))
  }

  /** pb_skip_varint. */
  function SkipVarint(data: Bytes): Option<Bytes> {
    if data == [] then None else if data[0] < 128 then Some(data[1..]) else SkipVarint(data[1..])
  }

  /** pb_skip_field. */
  function Skip(wireType: nat, data: Bytes): Option<Bytes> {
    if wireType == 0 then SkipVarint(data)
    else if wireType == 1 then Rest(Take(data, 8))
    else if wireType == 2 then Rest(Substream(data))
    else if wireType == 5 then Rest(Take(data, 4))
    else None
  }

  function Rest(p: Option<(Bytes, Bytes)>): Option<Bytes> {
    if p.Some? then Some(p.value.1) else None
  }

  /** pb_make_string_substream: the bytes that a length is in front of. */
  function Substream(data: Bytes): Option<(Bytes, Bytes)> {
    match ReadVarint32(data)
    case None => None
    case Some(p) => Take(p.1, p.0)
  }

  lemma SubstreamShrinks(data: Bytes)
    ensures Substream(data).Some? ==> |Substream(data).value.0| + |Substream(data).value.1| < |data|
  {
    hide ReadVarint32;
    Varint32Shrinks(data);
  }

  /** The bytes of a string up to its first zero. */
  function CString(b: Bytes): Bytes {
    if b == [] || b[0] == 0 then [] else [b[0]] + CString(b[1..])
  }

  /** The bytes a field of this kind takes of a string read for it. */
  function DecodeString(kind: Kind, b: Bytes): Option<Value> {
    match kind
    case Blob(capacity) => if |b| > capacity then None else Some(Raw(b))
    case Str(size) => if |b| + 1 > size then None else Some(Raw(CString(b)))
    case FixedBlob(size) => if b == [] then Some(Raw(seq(size, _ => 0))) else if |b| != size then None else Some(Raw(b))
    case _ => None
  }

  /** A value, which for a submessage is merged into what is there. */
  function DecodeValue(kind: Kind, base: seq<Slot>, data: Bytes): (r: Option<(Value, Bytes)>)
    ensures r.Some? ==> |r.value.1| < |data|
    decreases |data|, 0
  {
    NumberShrinks(kind, data);
    if Packable(kind) then
      match DecodeNumber(kind, data)
      case None => None
      case Some(p) => Some((Num(p.0), p.1))
    else
      SubstreamShrinks(data);
      match Substream(data)
      case None => None
      case Some(p) =>
        if kind.Sub? then
          match DecodeMsg(kind.fields, base, p.0, {})
          case None => None
          case Some(slots) => Some((Msg(slots), p.1))
        else
          match DecodeString(kind, p.0)
          case None => None
          case Some(v) => Some((v, p.1))
  }

  /** The elements of a packed array, of which there must not be more than fit. */
  function DecodePacked(kind: Kind, vs: seq<Value>, max: nat, data: Bytes): Option<seq<Value>>
    decreases |data|
  {
    if data == [] then Some(vs)
    else if |vs| >= max then None
    else
      NumberShrinks(kind, data);
      match DecodeNumber(kind, data)
      case None => None
      case Some(p) => DecodePacked(kind, vs + [Num(p.0)], max, p.1)
  }

  /** decode_static_field. */
  function DecodeSlot(f: Field, slot: Slot, wireType: nat, data: Bytes): (r: Option<(Slot, Bytes)>)
    ensures r.Some? ==> |r.value.1| < |data|
    decreases |data|, 1
  {
    SubstreamShrinks(data);
    match slot
    case One(v) =>
      (match DecodeValue(f.kind, BaseOf(f.kind, v), data)
       case None => None
       case Some(p) => Some((One(p.0), p.1)))
    case Opt(o) =>
      (match DecodeValue(f.kind, if o.Some? then BaseOf(f.kind, o.value) else Base(f.kind), data)
       case None => None
       case Some(p) => Some((Opt(Some(p.0)), p.1)))
    case Many(vs) =>
      var max := if f.rule.Repeated? then f.rule.max else 0;
      if wireType == 2 && Packable(f.kind) then
        match Substream(data)
        case None => None
        case Some(p) =>
          match DecodePacked(f.kind, vs, max, p.0)
          case None => None
          case Some(r) => Some((Many(r), p.1))
      else if |vs| >= max then None
      else
        match DecodeValue(f.kind, Base(f.kind), data)
        case None => None
        case Some(p) => Some((Many(vs + [p.0]), p.1))
  }

  /** Storing a member of a oneof takes the place of any other. */
  function Stored(fields: seq<Field>, slots: seq<Slot>, i: nat, slot: Slot): (r: seq<Slot>)
    requires i < |fields| == |slots|
    ensures |r| == |slots|
  {
    seq(|slots|, j requires 0 <= j < |slots| =>
      if j == i then slot
      else if fields[i].rule.Oneof? && fields[j].rule == fields[i].rule then Opt(None)
      else slots[j])
  }

  function FindTag(fields: seq<Field>, tag: nat): Option<nat> {
    FindFrom(fields, tag, 0)
  }

  function FindFrom(fields: seq<Field>, tag: nat, i: nat): (r: Option<nat>)
    ensures r.Some? ==> i <= r.value < |fields| && fields[r.value].tag == tag
    ensures r.None? ==> forall j :: i <= j < |fields| ==> fields[j].tag != tag
    decreases |fields| - i
  {
    if i >= |fields| then None else if fields[i].tag == tag then Some(i) else FindFrom(fields, tag, i + 1)
  }

  /** Every one of the first 64 required fields has been seen. */
  predicate RequiredSeen(fields: seq<Field>, seen: set<nat>) {
    forall i :: 0 <= i < |fields| && fields[i].rule == Required && RequiredBefore(EntriesOf(fields), i) < MAX_REQUIRED ==> i in seen
  }

  /** A field no descriptor is for is skipped. A message type without fields takes tag
      zero for its terminator's, whose type reads as a required bool. */
  function SkipUnknown(fields: seq<Field>, tag: nat, wireType: nat, data: Bytes): Option<Bytes> {
    if fields == [] && tag == 0 then
      match ReadVarint32(data)
      case None => None
      case Some(p) => Some(p.1)
    else Skip(wireType, data)
  }

  lemma {:induction false} SkipVarintShrinks(data: Bytes)
    ensures SkipVarint(data).Some? ==> |SkipVarint(data).value| < |data|
    decreases |data|
  {
    if data != [] && data[0] >= 128 {
      SkipVarintShrinks(data[1..]);
    }
  }

  lemma SkipShrinks(fields: seq<Field>, tag: nat, wireType: nat, data: Bytes)
    ensures SkipUnknown(fields, tag, wireType, data).Some? ==> |SkipUnknown(fields, tag, wireType, data).value| <= |data|
  {
    hide ReadVarint32;
    Varint32Shrinks(data);
    SkipVarintShrinks(data);
    SubstreamShrinks(data);
  }

  lemma TagShrinks(data: Bytes)
    ensures DecodeTag(data).Some? ==> |DecodeTag(data).value.1| < |data|
  {
    hide ReadVarint32;
    Varint32Shrinks(data);
  }

  function Outcome(fields: seq<Field>, slots: seq<Slot>, seen: set<nat>): Option<seq<Slot>> {
    if RequiredSeen(fields, seen) then Some(slots) else None
  }

  /** pb_decode_noinit: the message after all of the bytes, or none. */
  function DecodeMsg(fields: seq<Field>, slots: seq<Slot>, data: Bytes, seen: set<nat>): Option<seq<Slot>>
    decreases |data|, 2
  {
    if data == [] then Outcome(fields, slots, seen)
    else
      TagShrinks(data);
      match DecodeTag(data)
      case None => None
      case Some(p) =>
        if p.0 == Zero then Outcome(fields, slots, seen)
        else
          match FindTag(fields, p.0.tag)
          case None =>
            SkipShrinks(fields, p.0.tag, p.0.wireType, p.1);
            (match SkipUnknown(fields, p.0.tag, p.0.wireType, p.1)
             case None => None
             case Some(rest) => DecodeMsg(fields, slots, rest, seen))
          case Some(i) =>
            if |slots| != |fields| then None
            else
              match DecodeSlot(fields[i], slots[i], p.0.wireType, p.1)
              case None => None
              case Some(r) => DecodeMsg(fields, Stored(fields, slots, i, r.0), r.1, seen + {i})
  }

  // ----- what comes back

  /** What is read back for a value, a slot and a message: a zero that was left out comes
      back as the default of its field. */
  function BackValue(kind: Kind, v: Value): Value
    decreases kind, 0
  {
    if kind.Sub? && v.Msg? then Msg(BackMsg(kind.fields, v.slots)) else v
  }

  function BackAll(kind: Kind, vs: seq<Value>): (r: seq<Value>)
    ensures |r| == |vs| && forall k :: 0 <= k < |r| ==> r[k] == BackValue(kind, vs[k])
    decreases kind, 1
  {
    seq(|vs|, k requires 0 <= k < |vs| => BackValue(kind, vs[k]))
  }

  function BackSlot(f: Field, slot: Slot): Slot
    decreases f
  {
    match slot
    case One(v) => if LeftOut(f, v) then DefaultSlot(f) else One(BackValue(f.kind, v))
    case Opt(o) => if o.Some? then Opt(Some(BackValue(f.kind, o.value))) else slot
    case Many(vs) => Many(BackAll(f.kind, vs))
  }

  function BackMsg(fields: seq<Field>, slots: seq<Slot>): (r: seq<Slot>)
    ensures |r| == |slots| && forall i :: 0 <= i < |r| && i < |fields| ==> r[i] == BackSlot(fields[i], slots[i])
    decreases fields
  {
    seq(|slots|, i requires 0 <= i < |slots| => if i < |fields| then BackSlot(fields[i], slots[i]) else slots[i])
  }

  /** Every string that is written leaves room for the zero that ends it. */
  ghost predicate EndedValue(kind: Kind, v: Value)
    decreases kind, 0
  {
    match kind
    case Sub(fields) => v.Msg? ==> EndedFrom(fields, v.slots, 0)
    case Str(size) => v.Raw? ==> |v.b| < size
    case _ => true
  }

  ghost predicate EndedAll(kind: Kind, vs: seq<Value>)
    decreases kind, 1
  {
    forall v :: v in vs ==> EndedValue(kind, v)
  }

  ghost predicate EndedSlot(f: Field, slot: Slot)
    decreases f
  {
    match slot
    case One(v) => LeftOut(f, v) || EndedValue(f.kind, v)
    case Opt(o) => o.Some? ==> EndedValue(f.kind, o.value)
    case Many(vs) => EndedAll(f.kind, vs)
  }

  /** From field `from` on. */
  ghost predicate EndedFrom(fields: seq<Field>, slots: seq<Slot>, from: nat)
    decreases fields
  {
    forall i :: from <= i < |fields| && i < |slots| ==> EndedSlot(fields[i], slots[i])
  }

  /** Every slot that is left out for being zero, at every depth, is the default of its field. */
  ghost predicate ZerosKept(fields: seq<Field>, slots: seq<Slot>)
    decreases fields
  {
    forall i :: 0 <= i < |fields| && i < |slots| ==> ZerosKeptSlot(fields[i], slots[i])
  }

  ghost predicate ZerosKeptSlot(f: Field, slot: Slot)
    decreases f
  {
    match slot
    case One(v) => if LeftOut(f, v) then slot == DefaultSlot(f) else ZerosKeptValue(f.kind, v)
    case Opt(o) => o.Some? ==> ZerosKeptValue(f.kind, o.value)
    case Many(vs) => forall v :: v in vs ==> ZerosKeptValue(f.kind, v)
  }

  ghost predicate ZerosKeptValue(kind: Kind, v: Value)
    decreases kind
  {
    kind.Sub? && v.Msg? ==> ZerosKept(kind.fields, v.slots)
  }

  // ----- what is written is read back

  lemma TagRoundTrip(tag: nat, wireType: nat, rest: Bytes)
    requires 0 < tag < 0x2000_0000 && wireType < 8
    ensures DecodeTag(TagOf(tag, wireType) + rest) == Some((Tag(tag, wireType), rest)) && TagOf(tag, wireType) != []
  {
    hide Varint, ReadVarint32;
    Varint32Read(tag * 8 + wireType, rest);
  }

  lemma SubstreamRoundTrip(b: Bytes, rest: Bytes)
    requires |b| < WORD
    ensures Substream(Prefixed(b) + rest) == Some((b, rest))
  {
    hide Varint, ReadVarint32;
    ConcatAssoc(Varint(|b|), b, rest);
    Varint32Read(|b|, b + rest);
    TakeFirst(b, rest);
  }

  lemma {:induction false} CStringWhole(b: Bytes)
    requires 0 !in b
    ensures CString(b) == b
  {
    if b != [] {
      assert b[0] in b && forall x :: x in b[1..] ==> x in b;
      CStringWhole(b[1..]);
    }
  }

  lemma StringRead(kind: Kind, v: Value)
    requires !Packable(kind) && !kind.Sub? && FitsValue(kind, v)
    ensures v.Raw? && |v.b| < WORD && DecodeString(kind, v.b) == if EndedValue(kind, v) then Some(v) else None
  {
    match kind
    case Str(size) => CStringWhole(v.b);
    case FixedBlob(size) =>
      if v.b == [] {
        assert seq(size, _ => 0) == [];
      }
    case _ =>
  }

  lemma {:induction false} PackedRoundTrip(kind: Kind, before: seq<Value>, vs: seq<Value>, max: nat)
    requires Packable(kind) && |before| + |vs| <= max && forall v :: v in vs ==> v.Num? && FitsNumber(kind, v.n)
    ensures DecodePacked(kind, before, max, EncodePacked(kind, vs)) == Some(before + vs)
    decreases |vs|
  {
    hide EncodeNumber, DecodeNumber, FitsNumber;
    if vs == [] {
      assert before + vs == before;
    } else {
      assert vs[0] in vs && forall v :: v in vs[1..] ==> v in vs;
      var rest := EncodePacked(kind, vs[1..]);
      NumberRoundTrip(kind, vs[0].n, rest);
      NumberIsLong(kind, vs[0].n);
      PackedRoundTrip(kind, before + [vs[0]], vs[1..], max);
      assert before + [vs[0]] + vs[1..] == before + vs;
    }
  }

  lemma NumberIsLong(kind: Kind, n: int)
    requires Packable(kind)
    ensures EncodeNumber(kind, n) != []
  {
  }

  // ----- values, slots and messages

  /** A value is read, a submessage over the defaults, or it ends in a string without room. */
  lemma {:induction false} ValueRead(kind: Kind, v: Value, rest: Bytes)
    requires KindOk(kind) && FitsValue(kind, v)
    ensures DecodeValue(kind, Base(kind), EncodeValue(kind, v) + rest)
         == if EndedValue(kind, v) then Some((BackValue(kind, v), rest)) else None
    decreases kind, 1
  {
    hide EncodeNumber, DecodeNumber, FitsNumber, Substream, Prefixed, DecodeString, EncodeFrom, DecodeMsg;
    if Packable(kind) {
      NumberRoundTrip(kind, v.n, rest);
    } else if kind.Sub? {
      SubstreamRoundTrip(EncodeFrom(kind.fields, v.slots, 0), rest);
      MsgRead(kind.fields, v.slots);
    } else {
      StringRead(kind, v);
      SubstreamRoundTrip(v.b, rest);
    }
  }

  /** What decoding the encoding of a message over the defaults gives, in every case. */
  lemma {:induction false} MsgRead(fields: seq<Field>, slots: seq<Slot>)
    requires DescOk(fields) && FitsMsg(fields, slots)
    ensures DecodeMsg(fields, Defaults(fields), EncodeFrom(fields, slots, 0), {})
         == if EndedFrom(fields, slots, 0) then Some(BackMsg(fields, slots)) else None
    decreases fields, |fields| + 1
  {
    hide DecodeMsg, EncodeFrom, EndedFrom;
    FromRead(fields, slots, 0, Defaults(fields), {});
  }

  /** Halfway to `back`: the first `i` fields have been read. */
  ghost predicate Halfway(fields: seq<Field>, back: seq<Slot>, i: nat, cur: seq<Slot>, seen: set<nat>) {
    && |cur| == |fields| == |back| && i <= |fields|
    && (forall j :: 0 <= j < i ==> cur[j] == back[j])
    && (forall j :: i <= j < |fields| ==> cur[j] == DefaultSlot(fields[j]))
    && forall j :: 0 <= j < i && fields[j].rule == Required ==> j in seen
  }

  lemma {:induction false} FromRead(fields: seq<Field>, slots: seq<Slot>, i: nat, cur: seq<Slot>, seen: set<nat>)
    requires DescOk(fields) && FitsMsg(fields, slots) && Halfway(fields, BackMsg(fields, slots), i, cur, seen)
    ensures DecodeMsg(fields, cur, EncodeFrom(fields, slots, i), seen)
         == if EndedFrom(fields, slots, i) then Some(BackMsg(fields, slots)) else None
    decreases fields, |fields| - i
  {
    hide DescOk, FitsMsg, EncodeSlot, DecodeMsg, DefaultSlot, BackMsg, BackSlot, EndedFrom, EndedSlot, Halfway;
    HalfwayFacts(fields, slots, i, cur, seen);
    EndedNext(fields, slots, i);
    if i == |fields| {
      NothingLeft(fields, slots, BackMsg(fields, slots), cur, seen);
    } else {
      var rest := EncodeFrom(fields, slots, i + 1);
      var seen' := SlotRead(fields, slots, i, cur, seen, rest);
      if EndedSlot(fields[i], slots[i]) {
        FromRead(fields, slots, i + 1, cur[i := BackMsg(fields, slots)[i]], seen');
      }
    }
  }

  lemma EndedNext(fields: seq<Field>, slots: seq<Slot>, i: nat)
    requires |slots| == |fields| && i <= |fields|
    ensures i == |fields| ==> EndedFrom(fields, slots, i)
    ensures i < |fields| ==> (EndedFrom(fields, slots, i) <==> EndedSlot(fields[i], slots[i]) && EndedFrom(fields, slots, i + 1))
  {
    hide EndedSlot;
  }

  lemma HalfwayFacts(fields: seq<Field>, slots: seq<Slot>, i: nat, cur: seq<Slot>, seen: set<nat>)
    requires DescOk(fields) && FitsMsg(fields, slots) && Halfway(fields, BackMsg(fields, slots), i, cur, seen)
    ensures |slots| == |fields| == |cur| && i <= |fields|
    ensures i < |fields| ==> FieldOk(fields[i]) && FitsSlot(fields[i], slots[i]) && cur[i] == DefaultSlot(fields[i])
    ensures i < |fields| ==> BackMsg(fields, slots)[i] == BackSlot(fields[i], slots[i])
    ensures i == |fields| ==> cur == BackMsg(fields, slots) && forall j :: 0 <= j < |fields| && fields[j].rule == Required ==> j in seen
  {
    hide FieldOk, FitsSlot, DefaultSlot, BackSlot;
  }

  lemma NothingLeft(fields: seq<Field>, slots: seq<Slot>, back: seq<Slot>, cur: seq<Slot>, seen: set<nat>)
    requires |slots| == |fields| && cur == back && forall j :: 0 <= j < |fields| && fields[j].rule == Required ==> j in seen
    ensures DecodeMsg(fields, cur, EncodeFrom(fields, slots, |fields|), seen) == Some(back)
  {
  }

  lemma {:induction false} FindsTag(fields: seq<Field>, i: nat, k: nat)
    requires DescOk(fields) && k <= i < |fields|
    ensures FindFrom(fields, fields[i].tag, k) == Some(i)
    decreases i - k
  {
    hide FieldOk;
    if k < i {
      FindsTag(fields, i, k + 1);
    }
  }

  /** One tag and what follows it. */
  lemma OneRead(fields: seq<Field>, cur: seq<Slot>, i: nat, wireType: nat, payload: Bytes, rest: Bytes, seen: set<nat>)
    requires DescOk(fields) && |cur| == |fields| && i < |fields| && wireType < 8 && 0 < fields[i].tag < 0x2000_0000
    ensures DecodeMsg(fields, cur, TagOf(fields[i].tag, wireType) + payload + rest, seen)
         == match DecodeSlot(fields[i], cur[i], wireType, payload + rest)
            case None => None
            case Some(r) => DecodeMsg(fields, Stored(fields, cur, i, r.0), r.1, seen + {i})
  {
    hide DescOk, TagOf, DecodeTag, DecodeSlot, Stored, SkipUnknown;
    var tag := TagOf(fields[i].tag, wireType);
    ConcatAssoc(tag, payload, rest);
    TagRoundTrip(fields[i].tag, wireType, payload + rest);
    FindsTag(fields, i, 0);
  }

  /** Storing changes one slot when no other member of its oneof is set. */
  lemma StoredIsUpdate(fields: seq<Field>, slots: seq<Slot>, i: nat, cur: seq<Slot>, seen: set<nat>, slot: Slot)
    requires FitsMsg(fields, slots) && Halfway(fields, BackMsg(fields, slots), i, cur, seen) && i < |fields|
    requires fields[i].rule.Oneof? ==> slots[i] != Opt(None)
    ensures Stored(fields, cur, i, slot) == cur[i := slot]
  {
    hide FitsSlot, BackMsg;
    assert OneofsOk(fields, slots);
    forall j | 0 <= j < |fields| && j != i && fields[i].rule.Oneof? && fields[j].rule == fields[i].rule
      ensures cur[j] == Opt(None)
    {
      if j < i {
        assert BackMsg(fields, slots)[j] == BackSlot(fields[j], slots[j]);
      }
    }
  }

  lemma BaseIsUnused(kind: Kind, a: seq<Slot>, b: seq<Slot>, data: Bytes)
    requires !kind.Sub?
    ensures DecodeValue(kind, a, data) == DecodeValue(kind, b, data)
  {
    hide Substream, DecodeNumber, DecodeString;
  }

  /** One field is read, and only that field changes, or it ends in a string without room. */
  lemma SlotRead(fields: seq<Field>, slots: seq<Slot>, i: nat, cur: seq<Slot>, seen: set<nat>, rest: Bytes) returns (seen': set<nat>)
    requires DescOk(fields) && FitsMsg(fields, slots) && Halfway(fields, BackMsg(fields, slots), i, cur, seen) && i < |fields|
    requires |slots| == |cur| == |fields| && FieldOk(fields[i]) && FitsSlot(fields[i], slots[i]) && cur[i] == DefaultSlot(fields[i])
    ensures DecodeMsg(fields, cur, EncodeSlot(fields[i], slots[i]) + rest, seen)
         == if EndedSlot(fields[i], slots[i]) then DecodeMsg(fields, cur[i := BackMsg(fields, slots)[i]], rest, seen') else None
    ensures Halfway(fields, BackMsg(fields, slots), i + 1, cur[i := BackMsg(fields, slots)[i]], seen')
    decreases fields, |fields| - i, 0
  {
    hide DescOk, FitsMsg, DecodeMsg, EncodeValue, DecodeValue, TagOf, FitsValue, Defaults, Halfway, IsZero, Stored, BackMsg,
         BackValue, EndedValue, LeftOut;
    var f, slot, back := fields[i], slots[i], BackMsg(fields, slots)[i];
    assert back == BackSlot(f, slot);
    FieldFacts(f);
    if EncodeSlot(f, slot) == [] {
      assert [] + rest == rest;
      seen' := seen;
      NothingWritten(f, slot);
      HalfwayStays(fields, BackMsg(fields, slots), i, cur, seen, seen');
    } else {
      seen' := seen + {i};
      HalfwayStays(fields, BackMsg(fields, slots), i, cur, seen, seen');
      match slot
      case One(v) =>
        OneSlot(f, v, rest);
        OneRead(fields, cur, i, WireType(f.kind), EncodeValue(f.kind, v), rest, seen);
        StoredIsUpdate(fields, slots, i, cur, seen, back);
      case Opt(o) =>
        OptSlot(f, o.value, rest);
        OneRead(fields, cur, i, WireType(f.kind), EncodeValue(f.kind, o.value), rest, seen);
        StoredIsUpdate(fields, slots, i, cur, seen, back);
      case Many(vs) =>
        if Packable(f.kind) {
          PackedSlot(f, vs, rest);
          OneRead(fields, cur, i, 2, Prefixed(EncodePacked(f.kind, vs)), rest, seen);
          StoredIsUpdate(fields, slots, i, cur, seen, back);
        } else {
          EachRead(fields, i, cur, seen, [], vs, rest);
          assert [] + BackAll(f.kind, vs) == BackAll(f.kind, vs);
        }
    }
  }

  lemma FieldFacts(f: Field)
    requires FieldOk(f)
    ensures 0 < f.tag < 0x2000_0000 && KindOk(f.kind)
  {
  }

  lemma HalfwayStays(fields: seq<Field>, back: seq<Slot>, i: nat, cur: seq<Slot>, seen: set<nat>, seen': set<nat>)
    requires Halfway(fields, back, i, cur, seen) && i < |fields| && seen <= seen' && (fields[i].rule == Required ==> i in seen')
    ensures Halfway(fields, back, i + 1, cur[i := back[i]], seen')
    ensures cur[i] == back[i] ==> cur[i := back[i]] == cur
  {
    hide DefaultSlot;
  }

  /** A slot for which nothing is written comes back as what the decoder starts from. */
  lemma NothingWritten(f: Field, slot: Slot)
    requires FieldOk(f) && FitsSlot(f, slot) && EncodeSlot(f, slot) == []
    ensures BackSlot(f, slot) == DefaultSlot(f) && EndedSlot(f, slot) && f.rule != Required
  {
    hide EncodeValue, FitsValue, IsZero, FieldOk, Defaults, BackValue;
    FieldFacts(f);
    TagRoundTrip(f.tag, WireType(f.kind), []);
    TagRoundTrip(f.tag, 2, []);
  }

  lemma OneSlot(f: Field, v: Value, rest: Bytes)
    requires KindOk(f.kind) && FitsValue(f.kind, v) && DefaultSlot(f).One?
    ensures DecodeSlot(f, DefaultSlot(f), WireType(f.kind), EncodeValue(f.kind, v) + rest)
         == if EndedValue(f.kind, v) then Some((One(BackValue(f.kind, v)), rest)) else None
    decreases f, 0
  {
    hide DecodeValue, EncodeValue, FitsValue, Defaults, BackValue, EndedValue;
    ValueRead(f.kind, v, rest);
    if !f.kind.Sub? {
      BaseIsUnused(f.kind, BaseOf(f.kind, f.dflt), Base(f.kind), EncodeValue(f.kind, v) + rest);
    }
  }

  lemma OptSlot(f: Field, v: Value, rest: Bytes)
    requires KindOk(f.kind) && FitsValue(f.kind, v)
    ensures DecodeSlot(f, Opt(None), WireType(f.kind), EncodeValue(f.kind, v) + rest)
         == if EndedValue(f.kind, v) then Some((Opt(Some(BackValue(f.kind, v))), rest)) else None
    decreases f, 0
  {
    hide DecodeValue, EncodeValue, FitsValue, Defaults, BackValue, EndedValue;
    ValueRead(f.kind, v, rest);
  }

  lemma PackedSlot(f: Field, vs: seq<Value>, rest: Bytes)
    requires Packable(f.kind) && f.rule.Repeated? && |vs| <= f.rule.max && |EncodePacked(f.kind, vs)| < WORD
    requires forall v :: v in vs ==> FitsValue(f.kind, v)
    ensures DecodeSlot(f, Many([]), 2, Prefixed(EncodePacked(f.kind, vs)) + rest) == Some((Many(BackAll(f.kind, vs)), rest))
    ensures EndedAll(f.kind, vs)
  {
    hide Prefixed, Substream, EncodePacked, DecodePacked, FitsNumber;
    SubstreamRoundTrip(EncodePacked(f.kind, vs), rest);
    PackedRoundTrip(f.kind, [], vs, f.rule.max);
    assert [] + vs == vs == BackAll(f.kind, vs);
  }

  /** The elements of an array that is not packed are read one by one. */
  lemma {:induction false} EachRead(fields: seq<Field>, i: nat, cur: seq<Slot>, seen: set<nat>, before: seq<Value>, vs: seq<Value>, rest: Bytes)
    requires DescOk(fields) && i < |fields| == |cur| && FieldOk(fields[i]) && !Packable(fields[i].kind) && cur[i] == Many(before)
    requires fields[i].rule.Repeated? && |before| + |vs| <= fields[i].rule.max && vs != []
    requires forall v :: v in vs ==> FitsValue(fields[i].kind, v)
    ensures DecodeMsg(fields, cur, EncodeEach(fields[i], vs) + rest, seen)
         == if EndedAll(fields[i].kind, vs)
            then DecodeMsg(fields, cur[i := Many(before + BackAll(fields[i].kind, vs))], rest, seen + {i}) else None
    decreases fields, 0, |vs|
  {
    hide DescOk, DecodeMsg, EncodeValue, DecodeValue, TagOf, FitsValue, Stored, FieldOk, BackValue, BackAll, EndedValue, EndedAll;
    var f := fields[i];
    FieldFacts(f);
    FirstOfAll(vs);
    AllOfFirst(f.kind, vs);
    var tag, first, others := TagOf(f.tag, WireType(f.kind)), EncodeValue(f.kind, vs[0]), EncodeEach(f, vs[1..]);
    ConcatAssoc(tag + first, others, rest);
    ElementRead(f, vs[0], others + rest);
    OneRead(fields, cur, i, WireType(f.kind), first, others + rest, seen);
    var back := BackValue(f.kind, vs[0]);
    if EndedValue(f.kind, vs[0]) {
      var next := Many(before + [back]);
      StoredAlone(fields, cur, i, next);
      if |vs| == 1 {
        assert others == [] && others + rest == rest;
      } else {
        EachRead(fields, i, cur[i := next], seen + {i}, before + [back], vs[1..], rest);
        assert before + [back] + BackAll(f.kind, vs[1..]) == before + ([back] + BackAll(f.kind, vs[1..]));
        assert cur[i := next][i := Many(before + BackAll(f.kind, vs))] == cur[i := Many(before + BackAll(f.kind, vs))];
        assert seen + {i} + {i} == seen + {i};
      }
    }
  }

  lemma AllOfFirst(kind: Kind, vs: seq<Value>)
    requires vs != []
    ensures EndedAll(kind, vs) <==> EndedValue(kind, vs[0]) && EndedAll(kind, vs[1..])
    ensures |vs| == 1 ==> EndedAll(kind, vs[1..])
    ensures BackAll(kind, vs) == [BackValue(kind, vs[0])] + BackAll(kind, vs[1..])
    ensures |vs| == 1 ==> BackAll(kind, vs) == [BackValue(kind, vs[0])]
  {
    hide *;
    FirstOfAll(vs);
    EndedOfFirst(kind, vs);
    assert |vs| == 1 ==> BackAll(kind, vs[1..]) == [];
  }

  lemma FirstOfAll<T>(vs: seq<T>)
    requires vs != []
    ensures vs == [vs[0]] + vs[1..] && vs[0] in vs && forall v :: v in vs[1..] ==> v in vs
  {
  }

  lemma EndedOfFirst(kind: Kind, vs: seq<Value>)
    requires vs != []
    ensures EndedAll(kind, vs) <==> EndedValue(kind, vs[0]) && EndedAll(kind, vs[1..])
    ensures |vs| == 1 ==> EndedAll(kind, vs[1..])
  {
    hide EndedValue;
    FirstOfAll(vs);
  }

  lemma ElementRead(f: Field, v: Value, rest: Bytes)
    requires KindOk(f.kind) && FitsValue(f.kind, v)
    ensures DecodeValue(f.kind, Base(f.kind), EncodeValue(f.kind, v) + rest)
         == if EndedValue(f.kind, v) then Some((BackValue(f.kind, v), rest)) else None
    decreases f, 0
  {
    ValueRead(f.kind, v, rest);
  }

  lemma StoredAlone(fields: seq<Field>, cur: seq<Slot>, i: nat, slot: Slot)
    requires i < |fields| == |cur| && !fields[i].rule.Oneof?
    ensures Stored(fields, cur, i, slot) == cur[i := slot]
  {
  }

  // ----- exactly when a message comes back as it was

  lemma {:induction false} BackIsSame(fields: seq<Field>, slots: seq<Slot>)
    ensures BackMsg(fields, slots) == slots <==> ZerosKept(fields, slots)
    decreases fields, 0
  {
    hide BackSlot, ZerosKeptSlot;
    forall i | 0 <= i < |fields| && i < |slots|
      ensures BackSlot(fields[i], slots[i]) == slots[i] <==> ZerosKeptSlot(fields[i], slots[i])
    {
      BackIsSameSlot(fields[i], slots[i]);
    }
    if ZerosKept(fields, slots) {
      assert forall i :: 0 <= i < |slots| ==> BackMsg(fields, slots)[i] == slots[i];
    }
  }

  lemma {:induction false} BackIsSameSlot(f: Field, slot: Slot)
    ensures BackSlot(f, slot) == slot <==> ZerosKeptSlot(f, slot)
    decreases f, 0
  {
    hide BackValue, ZerosKeptValue, DefaultSlot, LeftOut;
    match slot
    case One(v) => BackIsSameValue(f.kind, v);
    case Opt(o) =>
      if o.Some? {
        BackIsSameValue(f.kind, o.value);
      }
    case Many(vs) =>
      forall k | 0 <= k < |vs|
        ensures BackValue(f.kind, vs[k]) == vs[k] <==> ZerosKeptValue(f.kind, vs[k])
      {
        BackIsSameValue(f.kind, vs[k]);
      }
      if ZerosKeptSlot(f, slot) {
        assert BackAll(f.kind, vs) == vs;
      } else {
        var v :| v in vs && !ZerosKeptValue(f.kind, v);
        var k :| 0 <= k < |vs| && vs[k] == v;
        assert BackAll(f.kind, vs)[k] != vs[k];
      }
  }

  lemma {:induction false} BackIsSameValue(kind: Kind, v: Value)
    ensures BackValue(kind, v) == v <==> ZerosKeptValue(kind, v)
    decreases kind, 0
  {
    if kind.Sub? && v.Msg? {
      BackIsSame(kind.fields, v.slots);
    }
  }

  /** A message comes back as it was if and only if every string written leaves room for
      its zero, and every slot left out for being zero is the default of its field. */
  lemma MsgRoundTripExactly(fields: seq<Field>, slots: seq<Slot>)
    requires DescOk(fields) && FitsMsg(fields, slots)
    ensures DecodeMsg(fields, Defaults(fields), EncodeFrom(fields, slots, 0), {}) == Some(slots)
       <==> EndedFrom(fields, slots, 0) && ZerosKept(fields, slots)
  {
    hide DescOk, FitsMsg, DecodeMsg, EncodeFrom, EndedFrom, ZerosKept, BackMsg;
    MsgRead(fields, slots);
    BackIsSame(fields, slots);
  }

  // ----- descriptors without defaults of their own

  /** A default that is all zero bytes. */
  predicate ZeroDefault(kind: Kind, v: Value) {
    match kind
    case Sub(_) => true
    case Blob(_) => v == Raw([])
    case Str(_) => v == Raw([])
    case FixedBlob(size) => v == Raw(seq(size, _ => 0))
    case _ => v == Num(0)
  }

  /** Fields without a has_ flag have no default of their own, at any depth. */
  ghost predicate PlainDefaults(fields: seq<Field>)
    decreases fields
  {
    forall i :: 0 <= i < |fields| ==> PlainField(fields[i])
  }

  ghost predicate PlainField(f: Field)
    decreases f
  {
    (f.rule == Implicit ==> ZeroDefault(f.kind, f.dflt)) && PlainKind(f.kind)
  }

  ghost predicate PlainKind(kind: Kind)
    decreases kind
  {
    kind.Sub? ==> PlainDefaults(kind.fields)
  }

  /** A submessage that is left out for being zero is what the decoder starts from. */
  lemma {:induction false} ZeroIsDefault(fields: seq<Field>, slots: seq<Slot>, i: nat)
    requires PlainDefaults(fields) && FitsMsg(fields, slots) && AllZero(fields, slots, i) && i <= |fields|
    ensures forall j :: i <= j < |fields| ==> slots[j] == DefaultSlot(fields[j])
    decreases fields, |fields| - i
  {
    hide OneofsOk;
    if i < |fields| {
      ZeroIsDefault(fields, slots, i + 1);
      assert PlainField(fields[i]) && FitsSlot(fields[i], slots[i]);
      ZeroSlot(fields[i], slots[i]);
    }
  }

  lemma {:induction false} ZeroSlot(f: Field, slot: Slot)
    requires PlainField(f) && FitsSlot(f, slot) && SlotIsZero(f, slot)
    ensures slot == DefaultSlot(f)
    decreases f, 1
  {
    hide FitsNumber;
    if f.rule == Implicit && f.kind.Sub? {
      var fields := f.kind.fields;
      ZeroIsDefault(fields, slot.v.slots, 0);
      assert slot.v.slots == Defaults(fields);
    }
  }

  lemma {:induction false} PlainKeepsZeros(fields: seq<Field>, slots: seq<Slot>)
    requires PlainDefaults(fields) && FitsMsg(fields, slots)
    ensures ZerosKept(fields, slots)
    decreases fields, 0
  {
    hide OneofsOk, FitsSlot, ZerosKeptSlot, PlainField;
    forall i | 0 <= i < |fields|
      ensures ZerosKeptSlot(fields[i], slots[i])
    {
      assert PlainField(fields[i]) && FitsSlot(fields[i], slots[i]);
      PlainKeepsSlot(fields[i], slots[i]);
    }
  }

  lemma {:induction false} PlainKeepsSlot(f: Field, slot: Slot)
    requires PlainField(f) && FitsSlot(f, slot)
    ensures ZerosKeptSlot(f, slot)
    decreases f, 0
  {
    hide FitsValue, ZerosKeptValue, DefaultSlot, IsZero;
    match slot
    case One(v) =>
      if LeftOut(f, v) {
        ZeroSlot(f, slot);
      } else {
        PlainKeepsValue(f.kind, v);
      }
    case Opt(o) =>
      if o.Some? {
        PlainKeepsValue(f.kind, o.value);
      }
    case Many(vs) =>
      forall v | v in vs
        ensures ZerosKeptValue(f.kind, v)
      {
        PlainKeepsValue(f.kind, v);
      }
  }

  lemma {:induction false} PlainKeepsValue(kind: Kind, v: Value)
    requires PlainKind(kind) && FitsValue(kind, v)
    ensures ZerosKeptValue(kind, v)
    decreases kind, 0
  {
    if kind.Sub? {
      PlainKeepsZeros(kind.fields, v.slots);
    }
  }

  /** Without such defaults every message whose strings leave room is read back. */
  lemma MsgRoundTrip(fields: seq<Field>, slots: seq<Slot>)
    requires DescOk(fields) && PlainDefaults(fields) && FitsMsg(fields, slots) && EndedFrom(fields, slots, 0)
    ensures DecodeMsg(fields, Defaults(fields), EncodeFrom(fields, slots, 0), {}) == Some(slots)
  {
    hide DescOk, FitsMsg, DecodeMsg, EncodeFrom, EndedFrom, PlainDefaults;
    PlainKeepsZeros(fields, slots);
    MsgRoundTripExactly(fields, slots);
  }
}
