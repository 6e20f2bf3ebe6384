/** Fixed-width and variable-length integers and length-prefixed strings
    (`util/coding.h`, `util/coding.cc`). */
module Coding {
  import opened Keys

  /** The number a string of bytes spells, lowest byte first: DecodeFixed32 and DecodeFixed64. */
  function Little(data: Bytes): nat {
    if data == [] then 0 else data[0] as nat + 256 * Little(data[1..])
  }

  /** The lowest `n` bytes of a number, lowest first: EncodeFixed32 and EncodeFixed64. */
  function Fixed(v: nat, n: nat): (r: Bytes)
    ensures |r| == n
    decreases n, v
  {
    if n == 0 then [] else [v % 256] + Fixed(v / 256, n - 1)
  }

  function Pow(b: nat, n: nat): nat
    decreases n, b
  {
    if n == 0 then 1 else b * Pow(b, n - 1)
  }

  lemma {:induction false} LittleOfFixed(v: nat, n: nat)
    requires v < Pow(256, n)
    ensures Little(Fixed(v, n)) == v
  {
    if n > 0 {
      LittleOfFixed(v / 256, n - 1);
      assert Fixed(v, n)[1..] == Fixed(v / 256, n - 1);
    }
  }

  lemma {:induction false} FixedOfLittle(data: Bytes)
    ensures Fixed(Little(data), |data|) == data
    decreases |data|
  {
    if data != [] {
      FixedOfLittle(data[1..]);
      FirstAndRest(Little(data), data[0], Little(data[1..]));
    }
  }

  lemma FirstAndRest(v: nat, b: Byte, r: nat)
    requires v == b as nat + 256 * r
    ensures v % 256 == b && v / 256 == r
  {
  }

  lemma Pow256()
    ensures Pow(256, 4) == 0x1_0000_0000 && Pow(256, 8) == 0x1_0000_0000_0000_0000
  {
    assert Pow(256, 2) == 65536;
    assert Pow(256, 3) == 0x100_0000;
    assert Pow(256, 5) == 0x100_0000_0000;
    assert Pow(256, 6) == 0x1_0000_0000_0000;
    assert Pow(256, 7) == 0x100_0000_0000_0000;
  }

  /** Numbers are read back from the bytes they were written to. */
  lemma FixedRoundTrip(v: nat, n: nat)
    requires (n == 4 && v < 0x1_0000_0000) || (n == 8 && v < 0x1_0000_0000_0000_0000)
    ensures Little(Fixed(v, n)) == v
  {
    Pow256();
    LittleOfFixed(v, n);
  }

  /** DecodeFixed32 on the first four bytes. */
  function DecodeFixed32(data: Bytes): (v: nat)
    requires |data| >= 4
    ensures v == Little(data[..4])
  {
    assert data[..4][1..] == data[1..4] && data[1..4][1..] == data[2..4] && data[2..4][1..] == data[3..4] && data[3..4][1..] == [];
    assert Little(data[3..4]) == data[3] as nat;
    assert Little(data[2..4]) == data[2] as nat + 256 * Little(data[3..4]);
    assert Little(data[1..4]) == data[1] as nat + 256 * Little(data[2..4]);
    data[0] as nat + 256 * data[1] as nat + 65536 * data[2] as nat + 0x100_0000 * data[3] as nat
  }

  // ----- varints

  /** Seven bits a byte, lowest first, the top bit set on all bytes but the last. */
  function Varint(v: nat): (r: Bytes)
    ensures r != []
  {
    if v < 128 then [v] else [v % 128 + 128] + Varint(v / 128)
  }

  /** A varint of at most `n` bytes at the start of a string, and what follows it. */
  function ParseVarint(data: Bytes, n: nat): Option<(nat, Bytes)>
    decreases n
  {
    if n == 0 || data == [] then None
    else if data[0] < 128 then Some((data[0] as nat, data[1..]))
    else match ParseVarint(data[1..], n - 1)
      case None => None
      case Some(p) => Some((data[0] as nat - 128 + 128 * p.0, p.1))
  }

  /** What was written is read back, with what follows untouched. */
  lemma {:induction false} VarintRoundTrip(v: nat, n: nat, rest: Bytes)
    requires n > 0 && v < Pow(128, n)
    ensures ParseVarint(Varint(v) + rest, n) == Some((v, rest))
    decreases n
  {
    if v < 128 {
      assert (Varint(v) + rest)[1..] == rest;
    } else {
      VarintRoundTrip(v / 128, n - 1, rest);
      assert (Varint(v) + rest)[1..] == Varint(v / 128) + rest;
    }
  }

  lemma Pow128()
    ensures Pow(128, 5) == 0x8_0000_0000 && Pow(128, 10) == 0x40_0000_0000_0000_0000
  {
    assert Pow(128, 2) == 0x4000;
    assert Pow(128, 3) == 0x20_0000;
    assert Pow(128, 4) == 0x1000_0000;
    assert Pow(128, 6) == 0x400_0000_0000;
    assert Pow(128, 7) == 0x2_0000_0000_0000;
    assert Pow(128, 8) == 0x100_0000_0000_0000;
    assert Pow(128, 9) == 0x8000_0000_0000_0000;
  }

  lemma Varint32RoundTrip(v: nat, rest: Bytes)
    requires v < 0x1_0000_0000
    ensures ParseVarint(Varint(v) + rest, 5) == Some((v, rest))
  {
    Pow128();
    VarintRoundTrip(v, 5, rest);
  }

  lemma Varint64RoundTrip(v: nat, rest: Bytes)
    requires v < 0x1_0000_0000_0000_0000
    ensures ParseVarint(Varint(v) + rest, 10) == Some((v, rest))
  {
    Pow128();
    VarintRoundTrip(v, 10, rest);
  }

  /** EncodeVarint32: one branch for each length. */
  method EncodeVarint32(v: nat) returns (r: Bytes)
    requires v < 0x1_0000_0000
    ensures r == Varint(v)
  {
    if v < 0x80 {
      r := [v];
    } else if v < 0x4000 {
      r := [v % 128 + 128, v / 128];
    } else if v < 0x20_0000 {
      r := [v % 128 + 128, v / 128 % 128 + 128, v / 0x4000];
      assert v / 0x4000 == v / 128 / 128;
      assert Varint(v / 128) == [v / 128 % 128 + 128, v / 0x4000];
    } else if v < 0x1000_0000 {
      r := [v % 128 + 128, v / 128 % 128 + 128, v / 0x4000 % 128 + 128, v / 0x20_0000];
      assert v / 0x4000 == v / 128 / 128 && v / 0x20_0000 == v / 128 / 128 / 128;
      assert Varint(v / 128 / 128) == [v / 0x4000 % 128 + 128, v / 0x20_0000];
      assert Varint(v / 128) == [v / 128 % 128 + 128] + Varint(v / 128 / 128);
    } else {
      r := [v % 128 + 128, v / 128 % 128 + 128, v / 0x4000 % 128 + 128, v / 0x20_0000 % 128 + 128, v / 0x1000_0000];
      assert v / 0x4000 == v / 128 / 128 && v / 0x20_0000 == v / 128 / 128 / 128;
      assert v / 0x1000_0000 == v / 128 / 128 / 128 / 128;
      assert Varint(v / 128 / 128 / 128) == [v / 0x20_0000 % 128 + 128, v / 0x1000_0000];
      assert Varint(v / 128 / 128) == [v / 0x4000 % 128 + 128] + Varint(v / 128 / 128 / 128);
      assert Varint(v / 128) == [v / 128 % 128 + 128] + Varint(v / 128 / 128);
    }
  }

  /** EncodeVarint64: a loop. */
  method EncodeVarint64(v: nat) returns (r: Bytes)
    requires v < 0x1_0000_0000_0000_0000
    ensures r == Varint(v)
  {
    r := [];
    var left := v;
    while left >= 128
      invariant r + Varint(left) == Varint(v)
    {
      assert r + Varint(left) == r + [left % 128 + 128] + Varint(left / 128);
      r := r + [left % 128 + 128];
      left := left / 128;
    }
    r := r + [left];
  }

  /** `scale` times a number read further on, added to what was read before it. */
  function Added(before: nat, scale: nat, rest: Option<(nat, Bytes)>): Option<(nat, Bytes)> {
    match rest
    case None => None
    case Some(p) => Some((before + scale * p.0, p.1))
  }

  lemma AddOneByte(before: nat, scale: nat, data: Bytes, n: nat)
    requires n > 0 && data != [] && data[0] >= 128
    ensures Added(before, scale, ParseVarint(data, n))
         == Added(before + (data[0] as nat - 128) * scale, 128 * scale, ParseVarint(data[1..], n - 1))
  {
    match ParseVarint(data[1..], n - 1)
    case None =>
    case Some(p) =>
      var b := data[0] as nat - 128;
      assert scale * (b + 128 * p.0) == b * scale + 128 * scale * p.0 by {
        Distribute(scale, b, p.0);
      }
  }

  lemma LastByte(before: nat, scale: nat, data: Bytes, n: nat)
    requires n > 0 && data != [] && data[0] < 128
    ensures Added(before, scale, ParseVarint(data, n)) == Some((before + scale * data[0] as nat, data[1..]))
  {
  }

  lemma Distribute(s: nat, b: nat, v: nat)
    ensures s * (b + 128 * v) == b * s + 128 * s * v
  {
    assert s * (b + 128 * v) == s * b + s * (128 * v);
    assert s * (128 * v) == 128 * s * v;
  }

  lemma AtLeastOnce(n: int, d: int)
    requires d >= 0
    ensures n >= 1 ==> n * d >= d
    ensures n <= -1 ==> n * d <= 0 - d
  {
  }

  /** A quotient and a remainder that fit are the quotient and the remainder. */
  lemma RemainderIs(x: nat, k: nat, d: nat, r: nat)
    requires x == k * d + r && r < d
    ensures x % d == r
  {
    var q := x / d;
    assert x == q * d + x % d;
    assert (q - k) * d == q * d - k * d;
    AtLeastOnce(q - k, d);
  }

  lemma ModAdd(x: nat, y: nat, d: nat)
    requires d > 0
    ensures (x % d + y) % d == (x + y) % d
  {
    var z := x % d + y;
    var k := x / d + z / d;
    assert x + y == k * d + z % d by {
      assert x == x / d * d + x % d;
      assert z == z / d * d + z % d;
      assert k * d == x / d * d + z / d * d;
    }
    RemainderIs(x + y, k, d, z % d);
  }

  /** GetVarint32: at most five bytes; bits past the word are lost. */
  method GetVarint32(data: Bytes) returns (r: Option<(nat, Bytes)>)
    ensures r == match ParseVarint(data, 5)
                 case None => None
                 case Some(p) => Some((p.0 % 0x1_0000_0000, p.1))
  {
    r := GetVarint(data, 5, 0x1_0000_0000);
  }

  /** GetVarint64: at most ten bytes. */
  method GetVarint64(data: Bytes) returns (r: Option<(nat, Bytes)>)
    ensures r == match ParseVarint(data, 10)
                 case None => None
                 case Some(p) => Some((p.0 % 0x1_0000_0000_0000_0000, p.1))
  {
    r := GetVarint(data, 10, 0x1_0000_0000_0000_0000);
  }

  /** `b` shifted left by a scale, and a sum cut to a word. */
  function Shifted(b: nat, scale: nat): nat {
    b * scale
  }

  function Sum(a: nat, b: nat, word: nat): nat
    requires word > 0
  {
    (a + b) % word
  }

  /** The loop of the two: `limit` bytes at most, sums cut to `word`. */
  method GetVarint(data: Bytes, limit: nat, word: nat) returns (r: Option<(nat, Bytes)>)
    requires word > 0
    ensures r == match ParseVarint(data, limit)
                 case None => None
                 case Some(p) => Some((p.0 % word, p.1))
  {
    var result: nat, scale: nat, i: nat := 0, 1, 0;
    ghost var exact: nat := 0;
    while i < limit && i < |data|
      invariant i <= limit && i <= |data|
      invariant Halfway(data, limit, i, exact, scale) && result == Sum(exact, 0, word)
    {
      var b: nat := data[i] as nat;
      if b < 128 {
        Finished(data, limit, i, exact, scale, Shifted(b, scale));
        SumAdds(exact, Shifted(b, scale), word);
        return Some((Sum(result, Shifted(b, scale), word), data[i + 1..]));
      }
      Further(data, limit, i, exact, scale, Shifted(b - 128, scale));
      SumAdds(exact, Shifted(b - 128, scale), word);
      result := Sum(result, Shifted(b - 128, scale), word);
      exact, scale := exact + Shifted(b - 128, scale), 128 * scale;
      i := i + 1;
    }
    r := None;
  }

  lemma SumAdds(x: nat, y: nat, word: nat)
    requires word > 0
    ensures Sum(Sum(x, 0, word), y, word) == Sum(x + y, 0, word) == (x + y) % word
  {
    ModAdd(x, y, word);
  }

  /** After `i` bytes the number read is `exact`, and what follows counts `scale` times. */
  ghost predicate Halfway(data: Bytes, limit: nat, i: nat, exact: nat, scale: nat)
    requires i <= limit && i <= |data|
  {
    ParseVarint(data, limit) == Added(exact, scale, ParseVarint(data[i..], limit - i))
  }

  lemma Further(data: Bytes, limit: nat, i: nat, exact: nat, scale: nat, term: nat)
    requires i < limit && i < |data| && data[i] >= 128 && Halfway(data, limit, i, exact, scale)
    requires term == Shifted(data[i] as nat - 128, scale)
    ensures Halfway(data, limit, i + 1, exact + term, 128 * scale)
  {
    assert data[i..][1..] == data[i + 1..];
    AddOneByte(exact, scale, data[i..], limit - i);
  }

  lemma Finished(data: Bytes, limit: nat, i: nat, exact: nat, scale: nat, last: nat)
    requires i < limit && i < |data| && data[i] < 128 && Halfway(data, limit, i, exact, scale)
    requires last == Shifted(data[i] as nat, scale)
    ensures ParseVarint(data, limit) == Some((exact + last, data[i + 1..]))
  {
    assert data[i..][1..] == data[i + 1..];
    LastByte(exact, scale, data[i..], limit - i);
  }

  /** Reading a number takes at least one byte. */
  lemma {:induction false} VarintConsumes(data: Bytes, n: nat)
    ensures ParseVarint(data, n).Some? ==> |ParseVarint(data, n).value.1| < |data|
    decreases n
  {
    if n > 0 && data != [] && data[0] >= 128 {
      VarintConsumes(data[1..], n - 1);
    }
  }

  // ----- length-prefixed strings

  function LengthPrefixed(s: Bytes): Bytes {
    Varint(|s|) + s
  }

  /** GetLengthPrefixedSlice: the string, and what follows it. */
  function ParseLengthPrefixed(data: Bytes): Option<(Bytes, Bytes)> {
    match ParseVarint(data, 5)
    case None => None
    case Some(p) =>
      var len := p.0 % 0x1_0000_0000;
      if |p.1| >= len then Some((p.1[..len], p.1[len..])) else None
  }

  lemma LengthPrefixedRoundTrip(s: Bytes, rest: Bytes)
    requires |s| < 0x1_0000_0000
    ensures ParseLengthPrefixed(LengthPrefixed(s) + rest) == Some((s, rest))
  {
    hide Varint, ParseVarint;
    Varint32RoundTrip(|s|, s + rest);
    assert LengthPrefixed(s) + rest == Varint(|s|) + (s + rest);
    assert (s + rest)[..|s|] == s && (s + rest)[|s|..] == rest;
  }

  lemma PrefixedConsumes(data: Bytes)
    ensures ParseLengthPrefixed(data).Some? ==> |ParseLengthPrefixed(data).value.1| < |data|
  {
    hide ParseVarint;
    VarintConsumes(data, 5);
  }

  method GetLengthPrefixedSlice(data: Bytes) returns (r: Option<(Bytes, Bytes)>)
    ensures r == ParseLengthPrefixed(data)
  {
    var len := GetVarint32(data);
    if len.Some? && |len.value.1| >= len.value.0 {
      var n, input := len.value.0, len.value.1;
      r := Some((input[..n], input[n..]));
    } else {
      r := None;
    }
  }

  // ----- the digits of what is written

  /** Byte `i` of a fixed number is its digit `i` in base 256. */
  lemma {:induction false} FixedDigit(v: nat, n: nat, i: nat)
    requires i < n
    ensures Pow(256, i) > 0 && Fixed(v, n)[i] as nat == v / Pow(256, i) % 256
    decreases n
  {
    if i > 0 {
      FixedDigit(v / 256, n - 1, i - 1);
      DivideTwice(v, 256, Pow(256, i - 1));
    } else {
      assert Pow(256, 0) == 1;
    }
  }

  /** Byte `i` of a varint is its digit `i` in base 128; of all but the last the top bit
      is set; and there are no more bytes than the number needs. */
  lemma {:induction false} VarintDigit(v: nat, i: nat)
    requires i < |Varint(v)|
    ensures Pow(128, i) > 0 && Varint(v)[i] as nat % 128 == v / Pow(128, i) % 128
    ensures Varint(v)[i] >= 128 <==> i + 1 < |Varint(v)|
    ensures |Varint(v)| > 1 ==> Pow(128, |Varint(v)| - 1) <= v
    decreases v
  {
    if v >= 128 {
      var k := if i == 0 then 0 else i - 1;
      VarintDigit(v / 128, k);
      if i > 0 {
        DivideTwice(v, 128, Pow(128, k));
      }
    }
    assert Pow(128, 0) == 1;
  }

  lemma DivideTwice(v: nat, a: nat, b: nat)
    requires a > 0 && b > 0
    ensures a * b > 0 && v / a / b == v / (a * b)
  {
    var w := v / a;
    Regroup(v, a, b, w, v % a, w / b, w % b);
    Below(a, b, w % b, v % a);
    QuotientIs(v, a * b, w / b, a * (w % b) + v % a);
  }

  lemma Regroup(v: nat, a: nat, b: nat, w: nat, s: nat, q: nat, r: nat)
    requires v == a * w + s && w == b * q + r
    ensures v == a * b * q + (a * r + s)
  {
  }

  lemma Below(a: nat, b: nat, r: nat, s: nat)
    requires r < b && s < a
    ensures a * r + s < a * b
  {
    assert a * r <= a * (b - 1);
  }

  lemma QuotientIs(v: nat, d: nat, q: nat, r: nat)
    requires v == d * q + r && r < d
    ensures v / d == q
  {
    var k := v / d - q;
    assert d * k == r - v % d;
    AtLeastOne(d, k);
  }

  lemma AtLeastOne(d: int, k: int)
    requires d > 0
    ensures k > 0 ==> d * k >= d
    ensures k < 0 ==> d * k <= -d
  {
  }
}
