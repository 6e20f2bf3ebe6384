/** Messages as any encoder may write them (`pb_decode.c`): fields in any order and more
    than once, arrays packed or not or in parts, submessages in parts, and between them,
    at every depth, fields that the descriptors do not have. */
module PbWire {
  import opened Coding
  import opened Keys
  import opened Pb
  import opened PbIter
  import opened PbMessage

  // ----- where a field ends

  /** The wire types of the encoding: a varint, eight bytes, a length and as many bytes, four bytes. */
  ghost predicate Sized(wireType: nat, payload: Bytes) {
    || (wireType == 0 && IsVarint(payload))
    || (wireType == 1 && |payload| == 8)
    || (wireType == 2 && exists b: Bytes :: |b| < WORD && payload == Prefixed(b))
    || (wireType == 5 && |payload| == 4)
  }

  /** Bytes of which the last one, and no other, is below 128. */
  predicate IsVarint(b: Bytes) {
    b != [] && b[|b| - 1] < 128 && forall i :: 0 <= i < |b| - 1 ==> b[i] >= 128
  }

  lemma {:induction false} SkipsVarint(b: Bytes, rest: Bytes)
    requires IsVarint(b)
    ensures SkipVarint(b + rest) == Some(rest)
  {
    if |b| == 1 {
      assert (b + rest)[1..] == rest;
    } else {
      SkipsVarint(b[1..], rest);
      assert (b + rest)[1..] == b[1..] + rest;
    }
  }

  /** A field of any wire type is skipped to its end. */
  lemma SkipsField(wireType: nat, payload: Bytes, rest: Bytes)
    requires Sized(wireType, payload)
    ensures Skip(wireType, payload + rest) == Some(rest)
  {
    hide Varint, Substream, Prefixed;
    if wireType == 0 {
      SkipsVarint(payload, rest);
    } else if wireType == 2 {
      var b: Bytes :| |b| < WORD && payload == Prefixed(b);
      SubstreamRoundTrip(b, rest);
    } else {
      assert (payload + rest)[|payload|..] == rest;
    }
  }

  /** Nothing else is skipped at the wire types of a fixed length, and nothing at others. */
  lemma SkipsOnly(wireType: nat, data: Bytes)
    ensures wireType == 1 ==> Skip(wireType, data) == if |data| < 8 then None else Some(data[8..])
    ensures wireType == 5 ==> Skip(wireType, data) == if |data| < 4 then None else Some(data[4..])
    ensures wireType != 0 && wireType != 1 && wireType != 2 && wireType != 5 ==> Skip(wireType, data) == None
  {
  }

  lemma {:induction false} VarintIs(v: nat)
    ensures IsVarint(Varint(v))
  {
    if v >= 128 {
      VarintIs(v / 128);
      var b := Varint(v);
      assert b[1..] == Varint(v / 128);
      forall i | 0 <= i < |b| - 1
        ensures b[i] >= 128
      {
        if i > 0 {
          assert b[i] == b[1..][i - 1];
        }
      }
    }
  }

  /** The wire type that is written for a kind says where what is written ends. */
  lemma ValueIsSized(kind: Kind, v: Value)
    requires FitsValue(kind, v)
    ensures Sized(WireType(kind), EncodeValue(kind, v))
  {
    hide Varint, Prefixed, EncodeFrom, ToLong, ZigZag;
    match kind
    case Bool => VarintIs(if v.n != 0 then 1 else 0);
    case Int(_) => VarintIs(ToLong(v.n));
    case UInt(_) => VarintIs(ToLong(v.n));
    case SInt(_) => VarintIs(ZigZag(v.n));
    case _ =>
  }

  lemma PackedIsSized(kind: Kind, vs: seq<Value>)
    requires |EncodePacked(kind, vs)| < WORD
    ensures Sized(2, Prefixed(EncodePacked(kind, vs)))
  {
  }

  /** So a reader that knows no fields finds the end of every one. */
  lemma ValueIsSkipped(kind: Kind, v: Value, rest: Bytes)
    requires FitsValue(kind, v)
    ensures Skip(WireType(kind), EncodeValue(kind, v) + rest) == Some(rest)
  {
    ValueIsSized(kind, v);
    SkipsField(WireType(kind), EncodeValue(kind, v), rest);
  }

  // ----- what may be in a message

  /** A value of field `i`; a packed part of array `i`; a submessage of field `i`, or a
      part of one; a field that the descriptors do not have. */
  datatype Item =
    | Single(i: nat, v: Value)
    | Packed(i: nat, vs: seq<Value>)
    | Nested(i: nat, sub: seq<Item>)
    | Unknown(tag: nat, wireType: nat, payload: Bytes)

  function WrittenItem(fields: seq<Field>, item: Item): Bytes
    decreases item
  {
    match item
    case Single(i, v) => if i < |fields| then TagOf(fields[i].tag, WireType(fields[i].kind)) + EncodeValue(fields[i].kind, v) else []
    case Packed(i, vs) => if i < |fields| then TagOf(fields[i].tag, 2) + Prefixed(EncodePacked(fields[i].kind, vs)) else []
    case Nested(i, sub) =>
      if i < |fields| && fields[i].kind.Sub? then TagOf(fields[i].tag, 2) + Prefixed(Written(fields[i].kind.fields, sub)) else []
    case Unknown(tag, wireType, payload) => TagOf(tag, wireType) + payload
  }

  function Written(fields: seq<Field>, items: seq<Item>): Bytes
    decreases items
  {
    if items == [] then [] else WrittenItem(fields, items[0]) + Written(fields, items[1..])
  }

  ghost predicate ItemOk(fields: seq<Field>, item: Item)
    decreases item
  {
    match item
    case Single(i, v) => i < |fields| && !fields[i].kind.Sub? && FitsValue(fields[i].kind, v)
    case Packed(i, vs) =>
      && i < |fields| && Packable(fields[i].kind) && fields[i].rule.Repeated?
      && (forall v :: v in vs ==> FitsValue(fields[i].kind, v)) && |EncodePacked(fields[i].kind, vs)| < WORD
    case Nested(i, sub) =>
      && i < |fields| && fields[i].kind.Sub? && ItemsOk(fields[i].kind.fields, sub)
      && |Written(fields[i].kind.fields, sub)| < WORD
    case Unknown(tag, wireType, payload) =>
      0 < tag < 0x2000_0000 && wireType < 8 && Sized(wireType, payload) && forall j :: 0 <= j < |fields| ==> fields[j].tag != tag
  }

  ghost predicate ItemsOk(fields: seq<Field>, items: seq<Item>)
    decreases items
  {
    forall k :: 0 <= k < |items| ==> ItemOk(fields, items[k])
  }

  // ----- what they mean

  function Max(f: Field): nat {
    if f.rule.Repeated? then f.rule.max else 0
  }

  /** Field `i` is set; the other members of its oneof are not any more. */
  function Set(fields: seq<Field>, slots: seq<Slot>, i: nat, slot: Slot): (r: seq<Slot>)
    requires i < |fields| == |slots|
    ensures |r| == |slots|
  {
    seq(|slots|, j requires 0 <= j < |slots| => if j == i then slot else if SameOneof(fields[i], fields[j]) then Opt(None) else slots[j])
  }

  predicate SameOneof(f: Field, g: Field) {
    f.rule.Oneof? && g.rule.Oneof? && f.rule.union == g.rule.union
  }

  /** A string needs room for the zero behind it. */
  predicate HasRoom(kind: Kind, v: Value) {
    kind.Str? && v.Raw? ==> |v.b| < kind.size
  }

  /** A value given to a slot: the last one counts, and an array collects all. */
  function Given(f: Field, slot: Slot, v: Value): Option<Slot> {
    match slot
    case One(_) => Some(One(v))
    case Opt(_) => Some(Opt(Some(v)))
    case Many(vs) => if |vs| < Max(f) then Some(Many(vs + [v])) else None
  }

  /** The submessage that a part of one is added to. */
  function Before(kind: Kind, slot: Slot): seq<Slot> {
    match slot
    case One(v) => if v.Msg? then v.slots else Base(kind)
    case Opt(o) => if o.Some? && o.value.Msg? then o.value.slots else Base(kind)
    case Many(_) => Base(kind)
  }

  function Merged(fields: seq<Field>, slots: seq<Slot>, item: Item): (r: Option<seq<Slot>>)
    ensures r.Some? ==> |r.value| == |slots|
    decreases item
  {
    match item
    case Single(i, v) =>
      if i >= |fields| || |slots| != |fields| || !HasRoom(fields[i].kind, v) then None
      else (match Given(fields[i], slots[i], v)
            case None => None
            case Some(slot) => Some(Set(fields, slots, i, slot)))
    case Packed(i, vs) =>
      if i >= |fields| || |slots| != |fields| || !slots[i].Many? || (vs != [] && |slots[i].vs| + |vs| > Max(fields[i])) then None
      else Some(Set(fields, slots, i, Many(slots[i].vs + vs)))
    case Nested(i, sub) =>
      if i >= |fields| || |slots| != |fields| || !fields[i].kind.Sub? then None
      else (match Result(fields[i].kind.fields, Before(fields[i].kind, slots[i]), sub)
            case None => None
            case Some(m) =>
              match Given(fields[i], slots[i], Msg(m))
              case None => None
              case Some(slot) => Some(Set(fields, slots, i, slot)))
    case Unknown(_, _, _) => Some(slots)
  }

  function MergedAll(fields: seq<Field>, slots: seq<Slot>, items: seq<Item>): (r: Option<seq<Slot>>)
    ensures r.Some? ==> |r.value| == |slots|
    decreases items, 0
  {
    if items == [] then Some(slots)
    else
      match Merged(fields, slots, items[0])
      case None => None
      case Some(next) => MergedAll(fields, next, items[1..])
  }

  function RequiredAmong(fields: seq<Field>, n: nat): nat
    requires n <= |fields|
  {
    if n == 0 then 0 else RequiredAmong(fields, n - 1) + if fields[n - 1].rule == Required then 1 else 0
  }

  /** Of the required fields the first 64 are there. */
  predicate Complete(fields: seq<Field>, given: set<nat>) {
    forall i :: 0 <= i < |fields| && fields[i].rule == Required && RequiredAmong(fields, i) < 64 ==> i in given
  }

  function GivenBy(items: seq<Item>): set<nat> {
    set k | 0 <= k < |items| && !items[k].Unknown? :: items[k].i
  }

  /** The message, or nothing when an array overflows or a required field is missing, at any depth. */
  function Result(fields: seq<Field>, slots: seq<Slot>, items: seq<Item>): Option<seq<Slot>>
    decreases items, 1
  {
    match MergedAll(fields, slots, items)
    case None => None
    case Some(r) => if Complete(fields, GivenBy(items)) then Some(r) else None
  }

  // ----- messages of the shape of their descriptors

  ghost predicate HasShape(fields: seq<Field>, slots: seq<Slot>)
    decreases fields
  {
    |slots| == |fields| && forall i :: 0 <= i < |fields| ==> SlotShape(fields[i], slots[i])
  }

  ghost predicate SlotShape(f: Field, slot: Slot)
    decreases f
  {
    match f.rule
    case Required => slot.One? && ValueShape(f.kind, slot.v)
    case Implicit => slot.One? && ValueShape(f.kind, slot.v)
    case Repeated(_) => slot.Many?
    case _ => slot.Opt? && (slot.o.Some? ==> ValueShape(f.kind, slot.o.value))
  }

  ghost predicate ValueShape(kind: Kind, v: Value)
    decreases kind
  {
    kind.Sub? ==> v.Msg? && HasShape(kind.fields, v.slots)
  }

  lemma {:induction false} DefaultsShape(fields: seq<Field>)
    ensures HasShape(fields, Defaults(fields))
    decreases fields, 0
  {
    forall i | 0 <= i < |fields|
      ensures SlotShape(fields[i], DefaultSlot(fields[i]))
    {
      DefaultShape(fields[i]);
    }
  }

  lemma {:induction false} DefaultShape(f: Field)
    ensures SlotShape(f, DefaultSlot(f))
    decreases f, 0
  {
    if f.kind.Sub? {
      DefaultsShape(f.kind.fields);
    }
  }

  lemma BeforeShape(f: Field, slot: Slot)
    requires f.kind.Sub? && SlotShape(f, slot)
    ensures HasShape(f.kind.fields, Before(f.kind, slot))
  {
    DefaultsShape(f.kind.fields);
  }

  lemma GivenShape(f: Field, slot: Slot, v: Value)
    requires SlotShape(f, slot) && ValueShape(f.kind, v) && Given(f, slot, v).Some?
    ensures SlotShape(f, Given(f, slot, v).value)
  {
  }

  lemma SetShape(fields: seq<Field>, slots: seq<Slot>, i: nat, slot: Slot)
    requires HasShape(fields, slots) && i < |fields| && SlotShape(fields[i], slot)
    ensures HasShape(fields, Set(fields, slots, i, slot)) && Set(fields, slots, i, slot) == Stored(fields, slots, i, slot)
  {
    hide ValueShape;
    var r := Set(fields, slots, i, slot);
    forall j | 0 <= j < |fields|
      ensures SlotShape(fields[j], r[j])
    {
    }
    assert r == Stored(fields, slots, i, slot);
  }

  // ----- reading an item

  /** A value of a number, a string or bytes is read whatever was there. */
  lemma PlainRead(kind: Kind, base: seq<Slot>, v: Value, rest: Bytes)
    requires KindOk(kind) && !kind.Sub? && FitsValue(kind, v)
    ensures DecodeValue(kind, base, EncodeValue(kind, v) + rest) == if HasRoom(kind, v) then Some((v, rest)) else None
  {
    hide DecodeValue, EncodeValue, FitsValue;
    ValueRead(kind, v, rest);
    BaseIsUnused(kind, base, Base(kind), EncodeValue(kind, v) + rest);
  }

  lemma SingleRead(f: Field, slot: Slot, v: Value, rest: Bytes)
    requires FieldOk(f) && SlotShape(f, slot) && !f.kind.Sub? && FitsValue(f.kind, v)
    ensures DecodeSlot(f, slot, WireType(f.kind), EncodeValue(f.kind, v) + rest)
         == match Given(f, slot, v) { case None => None case Some(next) => if HasRoom(f.kind, v) then Some((next, rest)) else None }
  {
    FieldFacts(f);
    hide DecodeValue, EncodeValue, FitsValue, KindOk, Substream, HasRoom;
    match slot
    case One(w) => PlainRead(f.kind, BaseOf(f.kind, w), v, rest);
    case Opt(o) => PlainRead(f.kind, if o.Some? then BaseOf(f.kind, o.value) else Base(f.kind), v, rest);
    case Many(_) => PlainRead(f.kind, Base(f.kind), v, rest);
  }

  /** The elements of a packed part are added, if there is room for them all. */
  lemma {:induction false} PackedOverflows(kind: Kind, before: seq<Value>, vs: seq<Value>, max: nat)
    requires Packable(kind) && |before| + |vs| > max && vs != [] && forall v :: v in vs ==> v.Num? && FitsNumber(kind, v.n)
    ensures DecodePacked(kind, before, max, EncodePacked(kind, vs)) == None
    decreases |vs|
  {
    hide EncodeNumber, DecodeNumber, FitsNumber;
    assert vs[0] in vs && forall v :: v in vs[1..] ==> v in vs;
    var rest := EncodePacked(kind, vs[1..]);
    NumberRoundTrip(kind, vs[0].n, rest);
    NumberIsLong(kind, vs[0].n);
    if |before| < max {
      PackedOverflows(kind, before + [vs[0]], vs[1..], max);
    }
  }

  lemma PackedRead(f: Field, slot: Slot, vs: seq<Value>, rest: Bytes)
    requires Packable(f.kind) && f.rule.Repeated? && slot.Many? && |EncodePacked(f.kind, vs)| < WORD
    requires forall v :: v in vs ==> FitsValue(f.kind, v)
    ensures DecodeSlot(f, slot, 2, Prefixed(EncodePacked(f.kind, vs)) + rest)
         == if vs != [] && |slot.vs| + |vs| > Max(f) then None else Some((Many(slot.vs + vs), rest))
  {
    hide Prefixed, Substream, FitsNumber;
    SubstreamRoundTrip(EncodePacked(f.kind, vs), rest);
    if vs == [] {
      assert slot.vs + vs == slot.vs;
    } else if |slot.vs| + |vs| > Max(f) {
      PackedOverflows(f.kind, slot.vs, vs, f.rule.max);
    } else {
      PackedRoundTrip(f.kind, slot.vs, vs, f.rule.max);
    }
  }

  /** A submessage, when it is known what its bytes are decoded to. */
  lemma SubRead(f: Field, slot: Slot, b: Bytes, rest: Bytes, m: Option<seq<Slot>>)
    requires f.kind.Sub? && |b| < WORD && SlotShape(f, slot) && m == DecodeMsg(f.kind.fields, Before(f.kind, slot), b, {})
    ensures var given := if m.Some? then Given(f, slot, Msg(m.value)) else None;
            DecodeSlot(f, slot, 2, Prefixed(b) + rest) == match given { case None => None case Some(next) => Some((next, rest)) }
  {
    hide Prefixed, Substream, DecodeMsg, Base;
    SubstreamRoundTrip(b, rest);
  }

  lemma UnknownRead(fields: seq<Field>, slots: seq<Slot>, item: Item, rest: Bytes, seen: set<nat>)
    requires item.Unknown? && ItemOk(fields, item)
    ensures DecodeMsg(fields, slots, WrittenItem(fields, item) + rest, seen) == DecodeMsg(fields, slots, rest, seen)
  {
    hide TagOf, DecodeTag, DecodeSlot, Stored, Sized, Skip;
    var tag := TagOf(item.tag, item.wireType);
    ConcatAssoc(tag, item.payload, rest);
    TagRoundTrip(item.tag, item.wireType, item.payload + rest);
    SkipsField(item.wireType, item.payload, rest);
  }

  lemma OkFacts(fields: seq<Field>, i: nat)
    requires DescOk(fields) && i < |fields|
    ensures FieldOk(fields[i]) && 0 < fields[i].tag < 0x2000_0000 && KindOk(fields[i].kind)
    ensures fields[i].kind.Sub? ==> DescOk(fields[i].kind.fields)
  {
    FieldFacts(fields[i]);
  }

  /** What an item does to the message, and that reading goes on behind it. */
  ghost predicate ReadsItem(fields: seq<Field>, slots: seq<Slot>, item: Item, rest: Bytes, seen: set<nat>) {
    DecodeMsg(fields, slots, WrittenItem(fields, item) + rest, seen)
    == match Merged(fields, slots, item)
       case None => None
       case Some(next) => DecodeMsg(fields, next, rest, if item.Unknown? then seen else seen + {item.i})
  }

  lemma ItemRead(fields: seq<Field>, slots: seq<Slot>, item: Item, rest: Bytes, seen: set<nat>)
    requires DescOk(fields) && HasShape(fields, slots) && ItemOk(fields, item)
    ensures ReadsItem(fields, slots, item, rest, seen)
    ensures Merged(fields, slots, item).Some? ==> HasShape(fields, Merged(fields, slots, item).value)
    decreases item
  {
    hide DescOk, DecodeMsg, DecodeSlot, EncodeValue, Prefixed, TagOf, FieldOk, KindOk, FitsValue, HasRoom, Stored, Set, Given, Before,
         Result, HasShape, SlotShape, Written, EncodePacked, Sized, ItemsOk;
    match item
    case Unknown(_, _, _) => UnknownRead(fields, slots, item, rest, seen);
    case Single(i, v) =>
      OkFacts(fields, i);
      ShapeAt(fields, slots, i);
      SingleRead(fields[i], slots[i], v, rest);
      OneRead(fields, slots, i, WireType(fields[i].kind), EncodeValue(fields[i].kind, v), rest, seen);
      GivenSet(fields, slots, i, v);
    case Packed(i, vs) =>
      OkFacts(fields, i);
      ShapeAt(fields, slots, i);
      PackedRead(fields[i], slots[i], vs, rest);
      OneRead(fields, slots, i, 2, Prefixed(EncodePacked(fields[i].kind, vs)), rest, seen);
      ManySet(fields, slots, i, slots[i].vs + vs);
    case Nested(i, sub) =>
      OkFacts(fields, i);
      ShapeAt(fields, slots, i);
      var f, b := fields[i], Written(fields[i].kind.fields, sub);
      BeforeShape(f, slots[i]);
      ResultRead(f.kind.fields, Before(f.kind, slots[i]), sub);
      var m := Result(f.kind.fields, Before(f.kind, slots[i]), sub);
      SubRead(f, slots[i], b, rest, m);
      OneRead(fields, slots, i, 2, Prefixed(b), rest, seen);
      if m.Some? {
        GivenSet(fields, slots, i, Msg(m.value));
      }
  }

  lemma ShapeAt(fields: seq<Field>, slots: seq<Slot>, i: nat)
    requires HasShape(fields, slots) && i < |fields|
    ensures |slots| == |fields| && SlotShape(fields[i], slots[i]) && (fields[i].rule.Repeated? ==> slots[i].Many?)
  {
  }

  lemma GivenSet(fields: seq<Field>, slots: seq<Slot>, i: nat, v: Value)
    requires HasShape(fields, slots) && i < |fields| == |slots| && ValueShape(fields[i].kind, v)
    ensures var g := Given(fields[i], slots[i], v);
            g.Some? ==> HasShape(fields, Set(fields, slots, i, g.value)) && Set(fields, slots, i, g.value) == Stored(fields, slots, i, g.value)
  {
    hide Given, Set, Stored, HasShape, SlotShape, ValueShape;
    ShapeAt(fields, slots, i);
    var g := Given(fields[i], slots[i], v);
    if g.Some? {
      GivenShape(fields[i], slots[i], v);
      SetShape(fields, slots, i, g.value);
    }
  }

  lemma ManySet(fields: seq<Field>, slots: seq<Slot>, i: nat, vs: seq<Value>)
    requires HasShape(fields, slots) && i < |fields| == |slots| && fields[i].rule.Repeated?
    ensures HasShape(fields, Set(fields, slots, i, Many(vs))) && Set(fields, slots, i, Many(vs)) == Stored(fields, slots, i, Many(vs))
  {
    hide Set, Stored, HasShape;
    SetShape(fields, slots, i, Many(vs));
  }

  // ----- reading a message

  lemma GivenByFirst(items: seq<Item>)
    requires items != []
    ensures GivenBy(items) == (if items[0].Unknown? then {} else {items[0].i}) + GivenBy(items[1..])
  {
    var rest := items[1..];
    forall i
      ensures i in GivenBy(items) <==> (!items[0].Unknown? && i == items[0].i) || i in GivenBy(rest)
    {
      if i in GivenBy(items) {
        var k :| 0 <= k < |items| && !items[k].Unknown? && items[k].i == i;
        assert k > 0 ==> rest[k - 1] == items[k];
      }
      if i in GivenBy(rest) {
        var k :| 0 <= k < |rest| && !rest[k].Unknown? && rest[k].i == i;
        assert rest[k] == items[k + 1];
      }
    }
  }

  /** All items are read, and reading goes on behind them. */
  lemma {:induction false} AllRead(fields: seq<Field>, slots: seq<Slot>, items: seq<Item>, rest: Bytes, seen: set<nat>)
    requires DescOk(fields) && HasShape(fields, slots) && ItemsOk(fields, items)
    ensures DecodeMsg(fields, slots, Written(fields, items) + rest, seen)
         == match MergedAll(fields, slots, items)
            case None => None
            case Some(r) => DecodeMsg(fields, r, rest, seen + GivenBy(items))
    ensures MergedAll(fields, slots, items).Some? ==> HasShape(fields, MergedAll(fields, slots, items).value)
    decreases items, 0
  {
    hide DescOk, HasShape, DecodeMsg, WrittenItem, Merged, ItemOk, GivenBy;
    if items == [] {
      assert [] + rest == rest;
      NoItems(fields, slots);
      assert seen + {} == seen;
    } else {
      ConcatAssoc(WrittenItem(fields, items[0]), Written(fields, items[1..]), rest);
      ItemRead(fields, slots, items[0], Written(fields, items[1..]) + rest, seen);
      GivenByFirst(items);
      var next := Merged(fields, slots, items[0]);
      if next.Some? {
        var seen' := if items[0].Unknown? then seen else seen + {items[0].i};
        AllRead(fields, next.value, items[1..], rest, seen');
        assert seen' + GivenBy(items[1..]) == seen + GivenBy(items);
      }
    }
  }

  lemma {:induction false} RequiredIs(fields: seq<Field>, n: nat)
    requires n <= |fields|
    ensures RequiredBefore(EntriesOf(fields), n) == RequiredAmong(fields, n)
  {
    if n > 0 {
      RequiredIs(fields, n - 1);
    }
  }

  lemma CompleteIs(fields: seq<Field>, given: set<nat>)
    ensures RequiredSeen(fields, given) <==> Complete(fields, given)
  {
    hide RequiredBefore, RequiredAmong;
    forall i | 0 <= i < |fields|
      ensures RequiredBefore(EntriesOf(fields), i) == RequiredAmong(fields, i)
    {
      RequiredIs(fields, i);
    }
  }

  /** Whatever order and parts a message is written in, and whatever fields that the
      descriptors do not have come between, at any depth: what is decoded is what its
      items mean, and decoding fails exactly when they mean nothing. */
  lemma {:induction false} ResultRead(fields: seq<Field>, slots: seq<Slot>, items: seq<Item>)
    requires DescOk(fields) && HasShape(fields, slots) && ItemsOk(fields, items)
    ensures DecodeMsg(fields, slots, Written(fields, items), {}) == Result(fields, slots, items)
    ensures Result(fields, slots, items).Some? ==> HasShape(fields, Result(fields, slots, items).value)
    decreases items, 1
  {
    hide DescOk, HasShape, DecodeMsg, MergedAll, Complete, ItemsOk;
    AllRead(fields, slots, items, [], {});
    assert Written(fields, items) + [] == Written(fields, items);
    assert {} + GivenBy(items) == GivenBy(items);
    var r := MergedAll(fields, slots, items);
    if r.Some? {
      EndRead(fields, r.value, GivenBy(items), []);
    }
  }

  /** The end of the bytes ends a message, and so does a tag of zero, whatever follows it. */
  lemma EndRead(fields: seq<Field>, slots: seq<Slot>, seen: set<nat>, junk: Bytes)
    ensures var r := if Complete(fields, seen) then Some(slots) else None;
            DecodeMsg(fields, slots, [], seen) == r && DecodeMsg(fields, slots, [0] + junk, seen) == r
  {
    hide Complete, RequiredSeen;
    CompleteIs(fields, seen);
    assert ([0] + junk)[1..] == junk;
  }

  lemma ZeroEndsMessage(fields: seq<Field>, slots: seq<Slot>, items: seq<Item>, junk: Bytes)
    requires DescOk(fields) && HasShape(fields, slots) && ItemsOk(fields, items)
    ensures DecodeMsg(fields, slots, Written(fields, items) + ([0] + junk), {}) == Result(fields, slots, items)
  {
    hide DescOk, HasShape, DecodeMsg, MergedAll, Complete, ItemsOk;
    AllRead(fields, slots, items, [0] + junk, {});
    assert {} + GivenBy(items) == GivenBy(items);
    var r := MergedAll(fields, slots, items);
    if r.Some? {
      EndRead(fields, r.value, GivenBy(items), junk);
    }
  }

  // ----- fields that the descriptors do not have

  /** Without them, at every depth. */
  function Stripped(items: seq<Item>): seq<Item>
    decreases items
  {
    if items == [] then [] else StrippedItem(items[0]) + Stripped(items[1..])
  }

  function StrippedItem(item: Item): seq<Item>
    decreases item
  {
    match item
    case Nested(i, sub) => [Nested(i, Stripped(sub))]
    case Unknown(_, _, _) => []
    case _ => [item]
  }

  lemma {:induction false} MergedAppend(fields: seq<Field>, slots: seq<Slot>, a: seq<Item>, b: seq<Item>)
    ensures MergedAll(fields, slots, a + b)
         == match MergedAll(fields, slots, a) { case None => None case Some(r) => MergedAll(fields, r, b) }
    decreases |a|
  {
    hide Merged;
    if a == [] {
      assert a + b == b;
    } else {
      assert (a + b)[0] == a[0] && (a + b)[1..] == a[1..] + b;
      var next := Merged(fields, slots, a[0]);
      if next.Some? {
        MergedAppend(fields, next.value, a[1..], b);
      }
    }
  }

  lemma GivenByAppend(a: seq<Item>, b: seq<Item>)
    ensures GivenBy(a + b) == GivenBy(a) + GivenBy(b)
  {
    var all := a + b;
    forall i
      ensures i in GivenBy(all) <==> i in GivenBy(a) || i in GivenBy(b)
    {
      if i in GivenBy(all) {
        var k :| 0 <= k < |all| && !all[k].Unknown? && all[k].i == i;
        assert if k < |a| then all[k] == a[k] else all[k] == b[k - |a|];
      }
      if i in GivenBy(a) {
        var k :| 0 <= k < |a| && !a[k].Unknown? && a[k].i == i;
        assert all[k] == a[k];
      }
      if i in GivenBy(b) {
        var k :| 0 <= k < |b| && !b[k].Unknown? && b[k].i == i;
        assert all[|a| + k] == b[k];
      }
    }
  }

  lemma OneItem(fields: seq<Field>, slots: seq<Slot>, item: Item)
    ensures MergedAll(fields, slots, [item]) == Merged(fields, slots, item) && GivenBy([item]) == if item.Unknown? then {} else {item.i}
  {
    hide Merged;
    GivenByFirst([item]);
    assert [item][1..] == [] && GivenBy([]) == {};
  }

  lemma {:induction false} StrippedSame(fields: seq<Field>, slots: seq<Slot>, items: seq<Item>)
    ensures MergedAll(fields, slots, Stripped(items)) == MergedAll(fields, slots, items) && GivenBy(Stripped(items)) == GivenBy(items)
    decreases items, 0
  {
    hide Merged, GivenBy, StrippedItem;
    if items != [] {
      StrippedItemSame(fields, slots, items[0]);
      MergedAppend(fields, slots, StrippedItem(items[0]), Stripped(items[1..]));
      GivenByAppend(StrippedItem(items[0]), Stripped(items[1..]));
      GivenByFirst(items);
      var next := Merged(fields, slots, items[0]);
      StrippedSame(fields, if next.Some? then next.value else slots, items[1..]);
    }
  }

  lemma {:induction false} StrippedItemSame(fields: seq<Field>, slots: seq<Slot>, item: Item)
    ensures MergedAll(fields, slots, StrippedItem(item)) == Merged(fields, slots, item)
    ensures GivenBy(StrippedItem(item)) == if item.Unknown? then {} else {item.i}
    decreases item
  {
    hide Set, Given, Before, GivenBy, MergedAll;
    match item
    case Unknown(_, _, _) => NoItems(fields, slots);
    case Nested(i, sub) =>
      OneItem(fields, slots, Nested(i, Stripped(sub)));
      if i < |fields| && |slots| == |fields| && fields[i].kind.Sub? {
        StrippedResult(fields[i].kind.fields, Before(fields[i].kind, slots[i]), sub);
      }
    case _ => OneItem(fields, slots, item);
  }

  lemma NoItems(fields: seq<Field>, slots: seq<Slot>)
    ensures MergedAll(fields, slots, []) == Some(slots) && GivenBy([]) == {}
  {
  }

  lemma {:induction false} StrippedResult(fields: seq<Field>, slots: seq<Slot>, items: seq<Item>)
    ensures Result(fields, slots, Stripped(items)) == Result(fields, slots, items)
    decreases items, 1
  {
    hide MergedAll, Complete;
    StrippedSame(fields, slots, items);
  }

  // ----- a message as the encoder of this library writes it

  function ItemOf(i: nat, kind: Kind, v: Value): Item
    decreases kind
  {
    if kind.Sub? && v.Msg? then Nested(i, ItemsFrom(kind.fields, v.slots, 0)) else Single(i, v)
  }

  function ItemsOfEach(i: nat, f: Field, vs: seq<Value>): seq<Item>
    decreases f, 0, |vs|
  {
    if vs == [] then [] else [ItemOf(i, f.kind, vs[0])] + ItemsOfEach(i, f, vs[1..])
  }

  function ItemsOfSlot(i: nat, f: Field, slot: Slot): seq<Item>
    decreases f, 1
  {
    match slot
    case One(v) => if LeftOut(f, v) then [] else [ItemOf(i, f.kind, v)]
    case Opt(o) => if o.None? then [] else [ItemOf(i, f.kind, o.value)]
    case Many(vs) => if vs == [] then [] else if Packable(f.kind) then [Packed(i, vs)] else ItemsOfEach(i, f, vs)
  }

  function ItemsFrom(fields: seq<Field>, slots: seq<Slot>, i: nat): seq<Item>
    decreases fields, |fields| - i
  {
    if i < |fields| && i < |slots| then ItemsOfSlot(i, fields[i], slots[i]) + ItemsFrom(fields, slots, i + 1) else []
  }

  lemma {:induction false} WrittenAppend(fields: seq<Field>, a: seq<Item>, b: seq<Item>)
    ensures Written(fields, a + b) == Written(fields, a) + Written(fields, b)
    ensures ItemsOk(fields, a) && ItemsOk(fields, b) ==> ItemsOk(fields, a + b)
    decreases |a|
  {
    hide WrittenItem, ItemOk;
    if a == [] {
      assert a + b == b;
    } else {
      WrittenAppend(fields, a[1..], b);
      assert (a + b)[0] == a[0] && (a + b)[1..] == a[1..] + b;
      ConcatAssoc(WrittenItem(fields, a[0]), Written(fields, a[1..]), Written(fields, b));
    }
  }

  lemma OneWritten(fields: seq<Field>, item: Item)
    ensures Written(fields, [item]) == WrittenItem(fields, item)
    ensures ItemOk(fields, item) ==> ItemsOk(fields, [item])
  {
    hide WrittenItem, ItemOk;
    assert [item][1..] == [] && Written(fields, []) == [];
    assert WrittenItem(fields, item) + [] == WrittenItem(fields, item);
  }

  /** The items are written as the encoder writes the message. */
  lemma {:induction false} ItemsAreEncoded(fields: seq<Field>, slots: seq<Slot>, i: nat)
    requires DescOk(fields) && FitsMsg(fields, slots) && i <= |fields|
    ensures Written(fields, ItemsFrom(fields, slots, i)) == EncodeFrom(fields, slots, i) && ItemsOk(fields, ItemsFrom(fields, slots, i))
    decreases fields, |fields| - i
  {
    hide ItemOk, OneofsOk, FieldOk, FitsSlot, EncodeSlot, ItemsOfSlot, WrittenItem, Written, ItemsOk, DescOk, FitsMsg;
    NothingIsWritten(fields);
    SlotFits(fields, slots, i);
    if i < |fields| {
      SlotIsEncoded(fields, i, slots[i]);
      ItemsAreEncoded(fields, slots, i + 1);
      WrittenAppend(fields, ItemsOfSlot(i, fields[i], slots[i]), ItemsFrom(fields, slots, i + 1));
    }
  }

  lemma SlotFits(fields: seq<Field>, slots: seq<Slot>, i: nat)
    requires DescOk(fields) && FitsMsg(fields, slots)
    ensures |slots| == |fields| && (i < |fields| ==> FieldOk(fields[i]) && FitsSlot(fields[i], slots[i]))
  {
    hide OneofsOk, FieldOk, FitsSlot;
  }

  lemma {:induction false} SlotIsEncoded(fields: seq<Field>, i: nat, slot: Slot)
    requires i < |fields| && FieldOk(fields[i]) && FitsSlot(fields[i], slot)
    ensures var items := ItemsOfSlot(i, fields[i], slot);
            Written(fields, items) == EncodeSlot(fields[i], slot) && ItemsOk(fields, items)
    decreases fields[i], 2
  {
    FieldFacts(fields[i]);
    hide ItemOf, ItemOk, EncodeValue, FitsValue, TagOf, Prefixed, KindOk, LeftOut, FieldOk, WrittenItem, Written, EncodeEach;
    var f := fields[i];
    NothingIsWritten(fields);
    match slot
    case One(v) =>
      if !LeftOut(f, v) {
        OneIsEncoded(fields, i, v);
      }
    case Opt(o) =>
      if o.Some? {
        OneIsEncoded(fields, i, o.value);
      }
    case Many(vs) =>
      if vs == [] {
      } else if Packable(f.kind) {
        PackedIsOk(fields, i, vs);
        OneWritten(fields, Packed(i, vs));
      } else {
        EachIsEncoded(fields, i, vs);
      }
  }

  lemma NothingIsWritten(fields: seq<Field>)
    ensures Written(fields, []) == [] && ItemsOk(fields, [])
  {
  }

  lemma PackedIsOk(fields: seq<Field>, i: nat, vs: seq<Value>)
    requires i < |fields| && Packable(fields[i].kind) && fields[i].rule.Repeated?
    requires (forall v :: v in vs ==> FitsValue(fields[i].kind, v)) && |EncodePacked(fields[i].kind, vs)| < WORD
    ensures ItemOk(fields, Packed(i, vs))
    ensures WrittenItem(fields, Packed(i, vs)) == TagOf(fields[i].tag, 2) + Prefixed(EncodePacked(fields[i].kind, vs))
  {
  }

  lemma {:induction false} OneIsEncoded(fields: seq<Field>, i: nat, v: Value)
    requires i < |fields| && KindOk(fields[i].kind) && FitsValue(fields[i].kind, v)
    ensures var f := fields[i];
            var items := [ItemOf(i, f.kind, v)];
            Written(fields, items) == TagOf(f.tag, WireType(f.kind)) + EncodeValue(f.kind, v) && ItemsOk(fields, items)
    decreases fields[i], 0
  {
    hide FitsMsg, DescOk, TagOf, Prefixed, FitsNumber;
    var f := fields[i];
    if f.kind.Sub? {
      ItemsAreEncoded(f.kind.fields, v.slots, 0);
    }
    OneWritten(fields, ItemOf(i, f.kind, v));
  }

  lemma {:induction false} EachIsEncoded(fields: seq<Field>, i: nat, vs: seq<Value>)
    requires i < |fields| && KindOk(fields[i].kind) && forall v :: v in vs ==> FitsValue(fields[i].kind, v)
    ensures var items := ItemsOfEach(i, fields[i], vs);
            Written(fields, items) == EncodeEach(fields[i], vs) && ItemsOk(fields, items)
    decreases fields[i], 1, |vs|
  {
    hide ItemOf, ItemOk, EncodeValue, FitsValue, TagOf, KindOk, WrittenItem, Written;
    NothingIsWritten(fields);
    if vs != [] {
      FirstOfAll(vs);
      OneIsEncoded(fields, i, vs[0]);
      EachIsEncoded(fields, i, vs[1..]);
      WrittenAppend(fields, [ItemOf(i, fields[i].kind, vs[0])], ItemsOfEach(i, fields[i], vs[1..]));
    }
  }

  /** Forward compatibility: a message written with further fields at any place and any
      depth is decoded as it is without them. */
  lemma ForwardCompatible(fields: seq<Field>, slots: seq<Slot>, items: seq<Item>)
    requires DescOk(fields) && FitsMsg(fields, slots) && ItemsOk(fields, items) && Stripped(items) == ItemsFrom(fields, slots, 0)
    ensures DecodeMsg(fields, Defaults(fields), Written(fields, items), {})
         == DecodeMsg(fields, Defaults(fields), EncodeFrom(fields, slots, 0), {})
  {
    hide DescOk, FitsMsg, ItemsOk, HasShape, DecodeMsg, Result;
    DefaultsShape(fields);
    ItemsAreEncoded(fields, slots, 0);
    ResultRead(fields, Defaults(fields), items);
    ResultRead(fields, Defaults(fields), Stripped(items));
    StrippedResult(fields, Defaults(fields), items);
  }

  // ----- what other encoders may send

  /** The last value given to field `i`. */
  function LastOf(items: seq<Item>, i: nat): Option<Value> {
    if items == [] then None
    else
      var last := items[|items| - 1];
      if last.Single? && last.i == i then Some(last.v) else LastOf(items[..|items| - 1], i)
  }

  /** All values given to array `i`, one by one or packed, in order. */
  function AllOf(items: seq<Item>, i: nat): seq<Value> {
    if items == [] then []
    else
      var last := items[|items| - 1];
      AllOf(items[..|items| - 1], i)
      + if last.Single? && last.i == i then [last.v] else if last.Packed? && last.i == i then last.vs else []
  }

  /** The last field of a oneof that is given a value. */
  function LastMember(fields: seq<Field>, items: seq<Item>, union: nat): Option<nat> {
    if items == [] then None
    else
      var last := items[|items| - 1];
      if !last.Unknown? && last.i < |fields| && fields[last.i].rule == Oneof(union) then Some(last.i)
      else LastMember(fields, items[..|items| - 1], union)
  }

  lemma LastMerged(fields: seq<Field>, slots: seq<Slot>, items: seq<Item>) returns (before: seq<Slot>)
    requires items != [] && MergedAll(fields, slots, items).Some?
    ensures |before| == |slots| && MergedAll(fields, slots, items[..|items| - 1]) == Some(before)
    ensures Merged(fields, before, items[|items| - 1]) == MergedAll(fields, slots, items)
  {
    hide Merged, MergedAll;
    var init, last := items[..|items| - 1], items[|items| - 1];
    assert items == init + [last];
    MergedAppend(fields, slots, init, [last]);
    before := MergedAll(fields, slots, init).value;
    OneItem(fields, before, last);
  }

  /** Of a singular field that is sent more than once the last value counts. */
  lemma {:induction false} LastValueCounts(fields: seq<Field>, slots: seq<Slot>, items: seq<Item>, i: nat)
    requires HasShape(fields, slots) && MergedAll(fields, slots, items).Some? && i < |fields| && !fields[i].kind.Sub?
    requires (fields[i].rule.Required? || fields[i].rule.Implicit? || fields[i].rule.Optional?) && ItemsOk(fields, items)
    ensures |slots| == |fields|
    ensures var r, last := MergedAll(fields, slots, items).value, LastOf(items, i);
            r[i] == if last == None then slots[i] else if fields[i].rule.Optional? then Opt(last) else One(last.value)
    decreases |items|
  {
    hide HasShape, Merged, MergedAll, ItemOk;
    ShapeAt(fields, slots, i);
    if items == [] {
      NoItems(fields, slots);
    } else {
      var before := LastMerged(fields, slots, items);
      LastValueCounts(fields, slots, items[..|items| - 1], i);
      OnePlain(fields, before, items[|items| - 1], i);
    }
  }

  lemma OnePlain(fields: seq<Field>, slots: seq<Slot>, item: Item, i: nat)
    requires |slots| == |fields| && Merged(fields, slots, item).Some? && i < |fields| && !fields[i].kind.Sub? && ItemOk(fields, item)
    requires !fields[i].rule.Oneof? && !fields[i].rule.Repeated? && (if fields[i].rule.Optional? then slots[i].Opt? else slots[i].One?)
    ensures var r := Merged(fields, slots, item).value;
            r[i] == if item.Single? && item.i == i then (if fields[i].rule.Optional? then Opt(Some(item.v)) else One(item.v)) else slots[i]
  {
    hide ItemsOk, FitsValue, Result;
  }

  /** An array has what it had and then all that was sent, however it was packed. */
  lemma {:induction false} ArrayCollects(fields: seq<Field>, slots: seq<Slot>, items: seq<Item>, i: nat)
    requires HasShape(fields, slots) && MergedAll(fields, slots, items).Some? && i < |fields| && !fields[i].kind.Sub?
    requires fields[i].rule.Repeated? && ItemsOk(fields, items)
    ensures |slots| == |fields| && slots[i].Many? && MergedAll(fields, slots, items).value[i] == Many(slots[i].vs + AllOf(items, i))
    decreases |items|
  {
    hide HasShape, Merged, MergedAll, ItemOk;
    ShapeAt(fields, slots, i);
    if items == [] {
      NoItems(fields, slots);
      assert slots[i].vs + [] == slots[i].vs;
    } else {
      var before := LastMerged(fields, slots, items);
      ArrayCollects(fields, slots, items[..|items| - 1], i);
      OneArray(fields, before, items[|items| - 1], i);
      ManyAppend(slots[i].vs, AllOf(items[..|items| - 1], i), AllOf(items, i)[|AllOf(items[..|items| - 1], i)|..]);
    }
  }

  lemma ManyAppend(a: seq<Value>, b: seq<Value>, c: seq<Value>)
    ensures a + (b + c) == a + b + c
  {
  }

  lemma OneArray(fields: seq<Field>, slots: seq<Slot>, item: Item, i: nat)
    requires |slots| == |fields| && Merged(fields, slots, item).Some? && i < |fields| && !fields[i].kind.Sub? && ItemOk(fields, item)
    requires fields[i].rule.Repeated? && slots[i].Many?
    ensures var more := if item.Single? && item.i == i then [item.v] else if item.Packed? && item.i == i then item.vs else [];
            Merged(fields, slots, item).value[i] == Many(slots[i].vs + more)
  {
    hide ItemsOk, FitsValue, Result;
    assert slots[i].vs + [] == slots[i].vs;
  }

  /** Of a oneof only the member that was sent last is set. */
  lemma {:induction false} LastMemberIsSet(fields: seq<Field>, slots: seq<Slot>, items: seq<Item>, union: nat, j: nat)
    requires HasShape(fields, slots) && MergedAll(fields, slots, items).Some? && j < |fields| && fields[j].rule == Oneof(union)
    ensures |slots| == |fields|
    ensures var r, last := MergedAll(fields, slots, items).value, LastMember(fields, items, union);
            if last == None then r[j] == slots[j]
            else if last.value == j then r[j].Opt? && r[j].o.Some?
            else r[j] == Opt(None)
    decreases |items|
  {
    hide HasShape, Merged, MergedAll;
    ShapeAt(fields, slots, j);
    if items == [] {
      NoItems(fields, slots);
    } else {
      var before := LastMerged(fields, slots, items);
      LastMemberIsSet(fields, slots, items[..|items| - 1], union, j);
      OptStays(fields, slots, items[..|items| - 1], j);
      OneMember(fields, before, items[|items| - 1], union, j);
    }
  }

  /** A slot with a has_ flag stays one. */
  lemma {:induction false} OptStays(fields: seq<Field>, slots: seq<Slot>, items: seq<Item>, j: nat)
    requires HasShape(fields, slots) && MergedAll(fields, slots, items).Some? && j < |fields| && fields[j].rule.Oneof?
    ensures |slots| == |fields| && MergedAll(fields, slots, items).value[j].Opt?
    decreases |items|
  {
    hide HasShape, Merged, MergedAll;
    ShapeAt(fields, slots, j);
    OneofShape(fields, slots, j);
    if items == [] {
      NoItems(fields, slots);
    } else {
      var before := LastMerged(fields, slots, items);
      OptStays(fields, slots, items[..|items| - 1], j);
      OneMember(fields, before, items[|items| - 1], fields[j].rule.union, j);
    }
  }

  lemma OneofShape(fields: seq<Field>, slots: seq<Slot>, j: nat)
    requires HasShape(fields, slots) && j < |fields| == |slots| && fields[j].rule.Oneof?
    ensures slots[j].Opt?
  {
  }

  lemma OneMember(fields: seq<Field>, slots: seq<Slot>, item: Item, union: nat, j: nat)
    requires |slots| == |fields| && Merged(fields, slots, item).Some? && j < |fields| && fields[j].rule == Oneof(union) && slots[j].Opt?
    ensures var r := Merged(fields, slots, item).value;
            if item.Unknown? || item.i >= |fields| || fields[item.i].rule != Oneof(union) then r[j] == slots[j]
            else if item.i == j then r[j].Opt? && r[j].o.Some?
            else r[j] == Opt(None)
  {
    hide Result;
  }

  /** A submessage sent in parts is the submessage sent at once. */
  lemma PartsAreMerged(fields: seq<Field>, slots: seq<Slot>, i: nat, a: seq<Item>, b: seq<Item>)
    requires |slots| == |fields| && i < |fields| && fields[i].kind.Sub? && !slots[i].Many?
    requires MergedAll(fields, slots, [Nested(i, a), Nested(i, b)]).Some?
    ensures MergedAll(fields, slots, [Nested(i, a + b)]) == MergedAll(fields, slots, [Nested(i, a), Nested(i, b)])
  {
    var k := fields[i].kind;
    assert [Nested(i, a), Nested(i, b)] == [Nested(i, a)] + [Nested(i, b)];
    MergedAppend(fields, slots, [Nested(i, a)], [Nested(i, b)]);
    OneItem(fields, slots, Nested(i, a));
    OneItem(fields, slots, Nested(i, a + b));
    var first := Merged(fields, slots, Nested(i, a)).value;
    OneItem(fields, first, Nested(i, b));
    MergedAppend(k.fields, Before(k, slots[i]), a, b);
    GivenByAppend(a, b);
    hide MergedAll, GivenBy, RequiredAmong;
    assert Before(k, first[i]) == MergedAll(k.fields, Before(k, slots[i]), a).value;
    assert forall x, y :: Set(fields, Set(fields, slots, i, x), i, y) == Set(fields, slots, i, y);
  }

  // ----- numbers and strings other encoders may send

  /** What a field makes of the varint of any number below 2^64: an integer of 32 bits or
      fewer takes the low 32 bits, in two's complement; an unsigned one takes the number;
      a zigzag one halves it; and what does not fit the field is refused. */
  lemma AnyNumberRead(kind: Kind, v: nat, rest: Bytes)
    requires v < 0x1_0000_0000_0000_0000
    requires (kind.Int? || kind.UInt? || kind.SInt?) && IsSize(kind.size)
    ensures var r := DecodeNumber(kind, Varint(v) + rest);
            var bits := 8 * kind.size;
            match kind
            case Int(_) =>
              var n := if kind.size == 8 then (if v < 0x8000_0000_0000_0000 then v else v - 0x1_0000_0000_0000_0000)
                       else (if v % 0x1_0000_0000 < 0x8000_0000 then v % 0x1_0000_0000 else v % 0x1_0000_0000 - 0x1_0000_0000);
              r == if -TwoTo(bits - 1) <= n < TwoTo(bits - 1) then Some((n, rest)) else None
            case UInt(_) => r == if v < TwoTo(bits) then Some((v as int, rest)) else None
            case SInt(_) =>
              var n := if v % 2 == 0 then v / 2 else -((v + 1) / 2);
              r == if -TwoTo(bits - 1) <= n < TwoTo(bits - 1) then Some((n, rest)) else None
            case _ => true
  {
    hide ReadVarint, Varint;
    VarintRead(v, rest);
  }

  /** Two to the number of bits of a byte, a half, a word or a double word, or one bit less. */
  function TwoTo(n: int): int {
    match n
    case 7 => 0x80
    case 8 => 0x100
    case 15 => 0x8000
    case 16 => 0x1_0000
    case 31 => 0x8000_0000
    case 32 => 0x1_0000_0000
    case 63 => 0x8000_0000_0000_0000
    case 64 => 0x1_0000_0000_0000_0000
    case _ => 0
  }

  /** Any 32-bit number but zero is true. */
  lemma AnyBoolRead(v: nat, rest: Bytes)
    requires v < 0x1_0000_0000
    ensures DecodeNumber(Bool, Varint(v) + rest) == Some((if v == 0 then 0 else 1, rest))
  {
    hide ReadVarint32, Varint;
    Varint32Read(v, rest);
  }

  /** A string is refused when it leaves no room for its end, and else read up to its
      first zero. */
  lemma {:induction false} AnyStringRead(size: nat, b: Bytes, base: seq<Slot>, rest: Bytes)
    requires |b| < 0x1_0000_0000
    ensures DecodeValue(Str(size), base, Prefixed(b) + rest).Some? <==> |b| < size
    ensures |b| < size ==>
              exists n: nat :: n <= |b| && 0 !in b[..n] && (n < |b| ==> b[n] == 0)
                && DecodeValue(Str(size), base, Prefixed(b) + rest) == Some((Raw(b[..n]), rest))
  {
    hide Prefixed, Substream;
    SubstreamRoundTrip(b, rest);
    var n := UpToZero(b);
  }

  lemma {:induction false} UpToZero(b: Bytes) returns (n: nat)
    ensures n <= |b| && CString(b) == b[..n] && 0 !in b[..n] && (n < |b| ==> b[n] == 0)
  {
    n := 0;
    if b != [] && b[0] != 0 {
      var k := UpToZero(b[1..]);
      n := k + 1;
      assert b[..n] == [b[0]] + b[1..][..k];
    }
  }
}
