/** Protocol buffer messages under a table of field descriptors (`pb.h`): what the
    encoder writes for a message, and what the decoder makes of bytes. */
module Pb {
  import opened Bits
  import opened Coding
  import opened Keys

  /** What a field holds. Sizes are in bytes. A string of `size` has room for its
      terminating zero in it. */
  datatype Kind =
    | Bool
    | Int(size: nat)
    | UInt(size: nat)
    | SInt(size: nat)
    | Fixed32
    | Fixed64
    | Blob(capacity: nat)
    | Str(size: nat)
    | FixedBlob(size: nat)
    | Sub(fields: seq<Field>)

  /** Implicit is a singular field without a has_ flag. Fields of one oneof share a number. */
  datatype Rule = Required | Optional | Implicit | Repeated(max: nat) | Oneof(union: nat)

  datatype Field = Field(tag: nat, rule: Rule, kind: Kind, dflt: Value)

  datatype Value = Num(n: int) | Raw(b: Bytes) | Msg(slots: seq<Slot>)

  /** A struct member by the rule of its field. What an absent field's memory holds is
      not part of a message. */
  datatype Slot = One(v: Value) | Opt(o: Option<Value>) | Many(vs: seq<Value>)

  const WORD: nat := 0x1_0000_0000
  const LONG: nat := 0x1_0000_0000_0000_0000

  // ----- numbers

  /** 2 to the number of bits of a signed integer, but for its sign. */
  function Half(size: nat): (r: nat)
    ensures r > 0
  {
    if size == 1 then 0x80 else if size == 2 then 0x8000 else if size == 4 then 0x8000_0000 else 0x8000_0000_0000_0000
  }

  predicate IsSize(size: nat) {
    size == 1 || size == 2 || size == 4 || size == 8
  }

  /** A number as an unsigned 64-bit one, and back. */
  function ToLong(n: int): (r: nat)
    ensures r < LONG
  {
    n % LONG
  }

  function Signed(v: nat, half: nat): int {
    if v < half then v else v - 2 * half
  }

  function ZigZag(n: int): nat {
    if n < 0 then -2 * n - 1 else 2 * n
  }

  function UnZigZag(v: nat): int {
    if v % 2 == 1 then -(v / 2) - 1 else v / 2
  }

  predicate Packable(kind: Kind) {
    kind.Bool? || kind.Int? || kind.UInt? || kind.SInt? || kind.Fixed32? || kind.Fixed64?
  }

  function EncodeNumber(kind: Kind, n: int): Bytes {
    match kind
    case Bool => Varint(if n != 0 then 1 else 0)
    case Int(_) => Varint(ToLong(n))
    case UInt(_) => Varint(ToLong(n))
    case SInt(_) => Varint(ZigZag(n))
    case Fixed32 => Fixed(ToLong(n), 4)
    case Fixed64 => Fixed(ToLong(n), 8)
    case _ => []
  }

  /** The numbers a field of this kind can hold. */
  predicate FitsNumber(kind: Kind, n: int) {
    match kind
    case Bool => n == 0 || n == 1
    case Int(size) => IsSize(size) && -(Half(size) as int) <= n < Half(size)
    case UInt(size) => IsSize(size) && 0 <= n < 2 * Half(size)
    case SInt(size) => IsSize(size) && -(Half(size) as int) <= n < Half(size)
    case Fixed32 => 0 <= n < WORD
    case Fixed64 => 0 <= n < LONG
    case _ => false
  }

  // ----- varints

  /** pb_decode_varint: ten bytes at most; bits past the word are lost. */
  function ReadVarint(data: Bytes): Option<(nat, Bytes)> {
    match ParseVarint(data, 10)
    case None => None
    case Some(p) => Some((p.0 % LONG, p.1))
  }

  /** Seven bits of a byte put into a 32-bit word. */
  function AddBits(result: nat, byte: nat, bitpos: nat): nat {
    Or(result, Cut(byte % 128 * Pow(2, bitpos)))
  }

  function Cut(x: nat): nat {
    x % WORD
  }

  lemma CutSmall(x: nat)
    ensures x < WORD ==> Cut(x) == x
  {
  }

  /** pb_decode_varint32 after its first byte: from 32 bits on only the bytes of an
      overlong zero or of a negative number's sign may follow. The position is kept
      in eight bits. */
  function ReadTail32(data: Bytes, bitpos: nat, result: nat): Option<(nat, Bytes)>
    decreases |data|
  {
    if data == [] then None
    else
      var byte := data[0] as nat;
      var next := if bitpos >= 32 then result else AddBits(result, byte, bitpos);
      if bitpos >= 32 && byte % 128 != 0 && (result < 0x8000_0000 || byte != (if bitpos < 63 then 255 else 1)) then None
      else if byte >= 128 then ReadTail32(data[1..], (bitpos + 7) % 256, next)
      else if bitpos == 28 && byte / 16 % 8 != 0 then None
      else Some((next, data[1..]))
  }

  function ReadVarint32(data: Bytes): Option<(nat, Bytes)> {
    if data == [] then None
    else if data[0] < 128 then Some((data[0] as nat, data[1..]))
    else ReadTail32(data[1..], 7, data[0] as nat - 128)
  }

  lemma Powers()
    ensures Pow(2, 7) == 0x80 && Pow(2, 14) == 0x4000 && Pow(2, 21) == 0x20_0000 && Pow(2, 28) == 0x1000_0000
  {
    assert Pow(2, 4) == 16;
    assert Pow(2, 10) == 1024;
    assert Pow(2, 17) == 0x2_0000;
    assert Pow(2, 24) == 0x100_0000;
  }

  /** `w` further on in a number, `bitpos` bits up. */
  function Up(w: nat, bitpos: nat): nat {
    if bitpos == 7 then w * 0x80 else if bitpos == 14 then w * 0x4000 else if bitpos == 21 then w * 0x20_0000 else w * 0x1000_0000
  }

  lemma UpIs(w: nat, bitpos: nat)
    requires bitpos == 7 || bitpos == 14 || bitpos == 21 || bitpos == 28
    ensures Up(w, bitpos) == w * Pow(2, bitpos)
  {
    hide Pow;
    Powers();
  }

  lemma AddBitsIs(result: nat, byte: nat, bitpos: nat)
    requires (bitpos == 7 || bitpos == 14 || bitpos == 21 || bitpos == 28) && result < Up(1, bitpos)
    ensures result + Up(byte % 128, bitpos) < WORD ==> AddBits(result, byte, bitpos) == result + Up(byte % 128, bitpos)
  {
    hide Up, Pow, Cut, Or;
    UpIs(byte % 128, bitpos);
    UpIs(1, bitpos);
    CutSmall(Up(byte % 128, bitpos));
    OrApart(result, byte % 128, bitpos);
  }

  /** Seven bits taken, the rest seven bits further up. */
  lemma UpStep(w: nat, bitpos: nat, result: nat)
    requires (bitpos == 7 || bitpos == 14 || bitpos == 21 || bitpos == 28) && w >= 128
    requires result < Up(1, bitpos) && result + Up(w, bitpos) < WORD
    ensures bitpos < 28 && result + Up(w % 128, bitpos) < Up(1, bitpos + 7)
    ensures result + Up(w % 128, bitpos) + Up(w / 128, bitpos + 7) == result + Up(w, bitpos)
  {
  }

  /** The bytes after the first, of a number that fits 32 bits. */
  lemma {:induction false} TailRoundTrip(w: nat, bitpos: nat, result: nat, rest: Bytes)
    requires bitpos == 7 || bitpos == 14 || bitpos == 21 || bitpos == 28
    requires result < Up(1, bitpos) && result + Up(w, bitpos) < WORD
    ensures ReadTail32(Varint(w) + rest, bitpos, result) == Some((result + Up(w, bitpos), rest))
    decreases 28 - bitpos
  {
    hide Up, Pow, AddBits;
    var data := Varint(w) + rest;
    if w < 128 {
      if bitpos == 28 {
        LastByteFits(w, bitpos, result);
      }
      AddBitsIs(result, w, bitpos);
      assert data[0] as nat == w && data[1..] == rest;
    } else {
      UpStep(w, bitpos, result);
      AddBitsIs(result, w % 128 + 128, bitpos);
      SmallUp(bitpos + 7, result + Up(w % 128, bitpos));
      assert data[0] as nat == w % 128 + 128 && data[1..] == Varint(w / 128) + rest;
      var next := result + Up(w % 128, bitpos);
      TailRoundTrip(w / 128, bitpos + 7, next, rest);
    }
  }

  lemma LastByteFits(w: nat, bitpos: nat, result: nat)
    requires bitpos == 28 && result + Up(w, bitpos) < WORD
    ensures w / 16 % 8 == 0
  {
  }

  lemma SmallUp(bitpos: nat, next: nat)
    requires (bitpos == 14 || bitpos == 21 || bitpos == 28) && next < Up(1, bitpos)
    ensures next < WORD
  {
  }

  lemma Varint32Read(v: nat, rest: Bytes)
    requires v < WORD
    ensures ReadVarint32(Varint(v) + rest) == Some((v, rest))
  {
    hide Pow;
    var data := Varint(v) + rest;
    if v < 128 {
      assert data[1..] == rest;
    } else {
      assert data[0] as nat == v % 128 + 128 && data[1..] == Varint(v / 128) + rest;
      TailRoundTrip(v / 128, 7, v % 128, rest);
    }
  }

  lemma VarintRead(v: nat, rest: Bytes)
    requires v < LONG
    ensures ReadVarint(Varint(v) + rest) == Some((v, rest))
  {
    Varint64RoundTrip(v, rest);
  }

  lemma {:induction false} TailShrinks(data: Bytes, bitpos: nat, result: nat)
    ensures var r := ReadTail32(data, bitpos, result);
            r.Some? ==> |r.value.1| < |data|
    decreases |data|
  {
    if data != [] && data[0] >= 128 {
      var next := if bitpos >= 32 then result else AddBits(result, data[0] as nat, bitpos);
      TailShrinks(data[1..], (bitpos + 7) % 256, next);
    }
  }

  /** Every varint takes at least a byte. */
  lemma Varint32Shrinks(data: Bytes)
    ensures ReadVarint32(data).Some? ==> |ReadVarint32(data).value.1| < |data|
  {
    if data != [] && data[0] >= 128 {
      TailShrinks(data[1..], 7, data[0] as nat - 128);
    }
  }

  lemma VarintShrinks(data: Bytes)
    ensures ReadVarint(data).Some? ==> |ReadVarint(data).value.1| < |data|
  {
    VarintConsumes(data, 10);
  }

  // ----- one number read back

  function Take(data: Bytes, n: nat): Option<(Bytes, Bytes)> {
    if n <= |data| then Some((data[..n], data[n..])) else None
  }

  /** What is read of a number that a field may then be too small for. */
  function Clamped(kind: Kind, n: int, rest: Bytes): Option<(int, Bytes)> {
    if FitsNumber(kind, n) then Some((n, rest)) else None
  }

  function DecodeNumber(kind: Kind, data: Bytes): Option<(int, Bytes)> {
    match kind
    case Bool =>
      (match ReadVarint32(data)
       case None => None
       case Some(p) => Some((if p.0 != 0 then 1 else 0, p.1)))
    case Int(size) =>
      (match ReadVarint(data)
       case None => None
       case Some(p) => Clamped(kind, if size == 8 then Signed(p.0, Half(8)) else Signed(p.0 % WORD, Half(4)), p.1))
    case UInt(_) =>
      (match ReadVarint(data)
       case None => None
       case Some(p) => Clamped(kind, p.0, p.1))
    case SInt(_) =>
      (match ReadVarint(data)
       case None => None
       case Some(p) => Clamped(kind, UnZigZag(p.0), p.1))
    case Fixed32 =>
      (match Take(data, 4)
       case None => None
       case Some(p) => Some((Little(p.0), p.1)))
    case Fixed64 =>
      (match Take(data, 8)
       case None => None
       case Some(p) => Some((Little(p.0), p.1)))
    case _ => None
  }

  /** A number is read back as it was written. */
  lemma NumberRoundTrip(kind: Kind, n: int, rest: Bytes)
    requires FitsNumber(kind, n)
    ensures DecodeNumber(kind, EncodeNumber(kind, n) + rest) == Some((n, rest))
  {
    hide Varint, Fixed, Little, ReadVarint, ReadVarint32, ToLong, Signed, ZigZag, UnZigZag, Half;
    match kind
    case Bool => Varint32Read(if n != 0 then 1 else 0, rest);
    case Int(size) =>
      VarintRead(ToLong(n), rest);
      SignIsKept(size, n);
    case UInt(size) =>
      VarintRead(ToLong(n), rest);
      NoSign(kind, n);
    case SInt(size) =>
      ZigZagRoundTrip(size, n);
      VarintRead(ZigZag(n), rest);
    case Fixed32 =>
      NoSign(kind, n);
      FixedRoundTrip(n, 4);
      TakeFirst(Fixed(n, 4), rest);
    case Fixed64 =>
      NoSign(kind, n);
      FixedRoundTrip(n, 8);
      TakeFirst(Fixed(n, 8), rest);
    case _ =>
  }

  lemma SignIsKept(size: nat, n: int)
    requires FitsNumber(Int(size), n)
    ensures (if size == 8 then Signed(ToLong(n), Half(8)) else Signed(ToLong(n) % WORD, Half(4))) == n
  {
  }

  lemma NoSign(kind: Kind, n: int)
    requires FitsNumber(kind, n) && (kind.UInt? || kind.Fixed32? || kind.Fixed64?)
    ensures ToLong(n) == n
  {
  }

  lemma ZigZagRoundTrip(size: nat, n: int)
    requires FitsNumber(SInt(size), n)
    ensures ZigZag(n) < LONG && UnZigZag(ZigZag(n)) == n
  {
  }

  lemma TakeFirst(a: Bytes, rest: Bytes)
    ensures Take(a + rest, |a|) == Some((a, rest))
  {
    assert (a + rest)[..|a|] == a && (a + rest)[|a|..] == rest;
  }

  lemma NumberShrinks(kind: Kind, data: Bytes)
    ensures DecodeNumber(kind, data).Some? ==> |DecodeNumber(kind, data).value.1| < |data|
  {
    hide ReadVarint, ReadVarint32;
    Varint32Shrinks(data);
    VarintShrinks(data);
  }
}
