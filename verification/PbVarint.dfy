/** Exactly which varints the 32-bit decoder takes, and what it makes of them
    (`pb_decode.c`, pb_decode_varint32). */
module PbVarint {
  import opened Bits
  import opened Coding
  import opened Keys
  import opened Pb

  /** How many bytes the varint at the start of a string has, when it ends. */
  function Length(data: Bytes): Option<nat> {
    if data == [] then None
    else if data[0] < 128 then Some(1)
    else match Length(data[1..])
      case None => None
      case Some(n) => Some(n + 1)
  }

  /** The first byte below 128 ends it. */
  lemma {:induction false} LengthIs(data: Bytes)
    ensures match Length(data)
            case None => forall i :: 0 <= i < |data| ==> data[i] >= 128
            case Some(n) => 0 < n <= |data| && data[n - 1] < 128 && forall i :: 0 <= i < n - 1 ==> data[i] >= 128
  {
    if data != [] && data[0] >= 128 {
      LengthIs(data[1..]);
      forall i | 0 < i < |data|
        ensures data[i] == data[1..][i - 1]
      {
      }
    }
  }

  /** Where the bits of byte `k` go, in eight bits. */
  function Position(k: nat): (p: nat)
    ensures p < 256
  {
    7 * k % 256
  }

  lemma NextPosition(k: nat)
    ensures Position(k + 1) == (Position(k) + 7) % 256
  {
    ModAdd(7 * k, 7, 256);
  }

  // ----- the number, and the bits that come late

  /** The number the first `n` bytes spell, seven bits each. */
  function Number(data: Bytes, n: nat): nat
    requires n <= |data|
  {
    if n == 0 then 0 else Number(data, n - 1) + data[n - 1] % 128 * Pow(2, 7 * (n - 1))
  }

  /** What a byte adds to a word: nothing from position 32 on. */
  function Put(word: nat, byte: nat, k: nat): nat {
    if Position(k) >= 32 then word else AddBits(word, byte, Position(k))
  }

  /** What the bytes from index 37 on, where the position has wrapped, put into a word. */
  function Late(data: Bytes, n: nat): nat
    requires n <= |data|
  {
    if n <= 37 then 0 else Put(Late(data, n - 1), data[n - 1] as nat, n - 1)
  }

  /** A bit of one of the first `k` bytes lands on bit `b`. */
  ghost predicate Lands(data: Bytes, k: nat, b: nat)
    requires k <= |data|
  {
    exists j :: 0 <= j < k && Position(j) <= b && HasBit(data[j] as nat % 128, b - Position(j))
  }

  // ----- what is taken

  /** From position 32 on a byte has no bits, or it continues a sign already set. */
  ghost predicate Passes(data: Bytes, k: nat)
    requires k < |data|
  {
    Position(k) >= 32 && data[k] % 128 != 0 ==>
      Lands(data, k, 31) && data[k] == if Position(k) < 63 then 255 else 1
  }

  /** A varint of `n` bytes that the decoder takes: if it ends at position 28 it ends with
      four bits. */
  ghost predicate Taken(data: Bytes, n: nat)
    requires 0 < n <= |data|
  {
    (Position(n - 1) == 28 ==> data[n - 1] < 16) && forall k :: 0 < k < n ==> Passes(data, k)
  }

  // ----- the loop

  /** The word after `n` bytes. */
  function Gathered(data: Bytes, n: nat): nat
    requires n <= |data|
  {
    if n == 0 then 0 else Put(Gathered(data, n - 1), data[n - 1] as nat, n - 1)
  }

  lemma {:induction false} GatheredFits(data: Bytes, n: nat)
    requires n <= |data|
    ensures Gathered(data, n) < WORD
  {
    if n > 0 {
      hide AddBits;
      GatheredFits(data, n - 1);
      AddBitsFits(Gathered(data, n - 1), data[n - 1] as nat, Position(n - 1));
    }
  }

  lemma AddBitsFits(word: nat, byte: nat, p: nat)
    requires word < WORD
    ensures AddBits(word, byte, p) < WORD
  {
    Pow2();
    hide Or, Pow;
    OrBound(word, Cut(byte % 128 * Pow(2, p)), 32);
  }

  /** A bit of the word is one that some byte put there. */
  lemma {:induction false} GatheredHas(data: Bytes, n: nat, b: nat)
    requires n <= |data| && b < 32
    ensures HasBit(Gathered(data, n), b) <==> Lands(data, n, b)
  {
    if n == 0 {
      ZeroHasNone(b);
    } else {
      GatheredHas(data, n - 1, b);
      PutHas(Gathered(data, n - 1), data[n - 1] as nat, n - 1, b);
      LandsNext(data, n - 1, b);
    }
  }

  lemma LandsNext(data: Bytes, k: nat, b: nat)
    requires k < |data|
    ensures Lands(data, k + 1, b) <==> Lands(data, k, b) || (Position(k) <= b && HasBit(data[k] as nat % 128, b - Position(k)))
  {
    hide Position, HasBit;
  }

  lemma PutHas(word: nat, byte: nat, k: nat, b: nat)
    requires b < 32
    ensures HasBit(Put(word, byte, k), b) <==> HasBit(word, b) || (Position(k) <= b && HasBit(byte % 128, b - Position(k)))
  {
    hide Or, HasBit, Pow, Position;
    var p := Position(k);
    if p < 32 {
      var bits := byte % 128 * Pow(2, p);
      Pow2();
      OrHas(word, Cut(bits), b);
      LowHas(bits, 32, b);
      ShiftedHas(byte % 128, p, b);
    }
  }

  /** Whether the sign is set is whether a bit has landed on bit 31. */
  lemma SignIs(data: Bytes, k: nat)
    requires k <= |data|
    ensures Gathered(data, k) >= 0x8000_0000 <==> Lands(data, k, 31)
  {
    hide HasBit, Lands, Gathered;
    GatheredFits(data, k);
    GatheredHas(data, k, 31);
    assert Pow(2, 32) == WORD && Pow(2, 31) == 0x8000_0000 by {
      Pow2();
    }
    HighBit(Gathered(data, k), 31);
  }

  /** The decoder has come to byte `k`. */
  lemma {:induction false} LoopReaches(data: Bytes, k: nat)
    requires 0 < k <= |data| && (forall i :: 0 <= i < k ==> data[i] >= 128) && forall i :: 0 < i < k ==> Passes(data, i)
    ensures ReadVarint32(data) == ReadTail32(data[k..], Position(k), Gathered(data, k))
  {
    hide ReadTail32, Passes, Gathered, Position;
    if k == 1 {
      FirstByte(data);
    } else {
      LoopReaches(data, k - 1);
      LoopStep(data, k - 1);
      NextPosition(k - 1);
    }
  }

  lemma FirstByte(data: Bytes)
    requires data != []
    ensures Gathered(data, 1) == data[0] as nat % 128 && Position(1) == 7
  {
    hide Or;
    assert Gathered(data, 0) == 0 && Position(0) == 0 && Pow(2, 0) == 1;
    assert Gathered(data, 1) == Put(0, data[0] as nat, 0);
    OrZero(data[0] as nat % 128);
  }

  /** One turn of the loop, from byte `k`. */
  lemma LoopStep(data: Bytes, k: nat)
    requires 0 < k < |data|
    ensures ReadTail32(data[k..], Position(k), Gathered(data, k))
         == if !Passes(data, k) then None
            else if data[k] >= 128 then ReadTail32(data[k + 1..], (Position(k) + 7) % 256, Gathered(data, k + 1))
            else if Position(k) == 28 && data[k] >= 16 then None
            else Some((Gathered(data, k + 1), data[k + 1..]))
  {
    hide AddBits, Lands, Position;
    SignIs(data, k);
    assert data[k..][0] == data[k] && data[k..][1..] == data[k + 1..];
  }

  // ----- the word is the number, cut, with the late bits

  lemma {:induction false} NumberFits(data: Bytes, n: nat)
    requires n <= |data|
    ensures Number(data, n) < Pow(2, 7 * n)
  {
    if n > 0 {
      hide Pow;
      NumberFits(data, n - 1);
      SevenMore(7 * (n - 1));
      assert 7 * (n - 1) + 7 == 7 * n;
      AtMost(data[n - 1] as nat % 128, 127, Pow(2, 7 * (n - 1)));
    } else {
      assert Pow(2, 0) == 1;
    }
  }

  lemma AtMost(a: nat, b: nat, x: nat)
    requires a <= b
    ensures a * x <= b * x
  {
  }

  lemma SevenMore(m: nat)
    ensures Pow(2, m + 7) == 128 * Pow(2, m)
  {
    assert Pow(2, m + 2) == 4 * Pow(2, m);
    assert Pow(2, m + 4) == 4 * Pow(2, m + 2);
    assert Pow(2, m + 6) == 4 * Pow(2, m + 4);
  }

  /** From position 32 on a byte adds whole words. */
  lemma {:induction false} WholeWords(m: nat)
    requires m >= 32
    ensures Pow(2, m) % WORD == 0
  {
    if m == 32 {
      Pow2();
    } else {
      WholeWords(m - 1);
    }
  }

  lemma AddsWholeWords(x: nat, p: nat, m: nat)
    requires m >= 32
    ensures (x + p * Pow(2, m)) % WORD == x % WORD && (x == 0 ==> p * Pow(2, m) % WORD == 0)
  {
    hide Pow;
    WholeWords(m);
    var q := Pow(2, m) / WORD;
    assert p * Pow(2, m) == p * q * WORD by {
      assert Pow(2, m) == q * WORD;
    }
    var r := x % WORD;
    assert x + p * Pow(2, m) == (x / WORD + p * q) * WORD + r by {
      assert x == x / WORD * WORD + r;
      assert (x / WORD + p * q) * WORD == x / WORD * WORD + p * q * WORD;
    }
    RemainderIs(x + p * Pow(2, m), x / WORD + p * q, WORD, r);
  }

  lemma CutsWholeWords(x: nat, p: nat, m: nat)
    requires m >= 32
    ensures Cut(x + p * Pow(2, m)) == Cut(x)
  {
    hide Pow;
    AddsWholeWords(x, p, m);
  }

  /** The first five bytes fill the word. */
  lemma {:induction false} EarlyWord(data: Bytes, n: nat)
    requires n <= |data| && n <= 5
    ensures Gathered(data, n) == Number(data, n) % WORD
  {
    if n > 0 {
      hide *;
      EarlyPosition(n - 1);
      EarlyWord(data, n - 1);
      NumberFits(data, n - 1);
      EarlyByte(Number(data, n - 1), data[n - 1] as nat, n - 1);
      OneMore(data, n - 1);
      NumberIsWord(data, n - 1);
    }
  }

  lemma OneMore(data: Bytes, k: nat)
    requires k < |data|
    ensures Gathered(data, k + 1) == if Position(k) >= 32 then Gathered(data, k) else AddBits(Gathered(data, k), data[k] as nat, Position(k))
    ensures Number(data, k + 1) == Number(data, k) + data[k] as nat % 128 * Pow(2, 7 * k)
  {
    hide AddBits, Position, Pow;
  }

  lemma NumberIsWord(data: Bytes, k: nat)
    requires k <= |data| && Number(data, k) < WORD
    ensures Number(data, k) % WORD == Number(data, k)
  {
    hide Number;
  }

  lemma EarlyPosition(k: nat)
    requires k < 37
    ensures Position(k) == 7 * k
  {
  }

  lemma EarlyByte(x: nat, byte: nat, k: nat)
    requires k < 5 && x < Pow(2, 7 * k)
    ensures x < WORD && AddBits(x, byte, 7 * k) == (x + byte % 128 * Pow(2, 7 * k)) % WORD
  {
    hide Or, Pow;
    EarlyPower(k);
    if k < 4 {
      SmallPayload(byte % 128, x, Pow(2, 7 * k));
      OrApart(x, byte % 128, 7 * k);
    } else {
      CutAt28(x, byte % 128);
      OrApart(x, byte % 128 % 16, 28);
    }
  }

  lemma SmallPayload(p: nat, x: nat, scale: nat)
    requires p < 128 && x < scale <= 0x20_0000
    ensures p * scale < WORD && Cut(p * scale) == p * scale && (x + p * scale) % WORD == x + p * scale
  {
    AtMost(p, 127, scale);
    CutSmall(p * scale);
    CutSmall(x + p * scale);
  }

  lemma CutAt28(x: nat, p: nat)
    requires p < 128 && x < 0x1000_0000
    ensures Cut(p * 0x1000_0000) == p % 16 * 0x1000_0000
    ensures (x + p * 0x1000_0000) % WORD == x + p % 16 * 0x1000_0000
  {
    RemainderIs(p * 0x1000_0000, p / 16, WORD, p % 16 * 0x1000_0000);
    RemainderIs(x + p * 0x1000_0000, p / 16, WORD, x + p % 16 * 0x1000_0000);
  }

  lemma EarlyPower(k: nat)
    requires k < 5
    ensures Pow(2, 7 * k) == if k == 0 then 1 else if k == 1 then 0x80 else if k == 2 then 0x4000 else if k == 3 then 0x20_0000 else 0x1000_0000
  {
    Powers();
  }

  /** The word is the number, cut to 32 bits, with the late bits put in. */
  lemma {:induction false} GatheredIs(data: Bytes, n: nat)
    requires n <= |data|
    ensures Gathered(data, n) == Or(Cut(Number(data, n)), Late(data, n))
  {
    if n <= 5 {
      EarlyWord(data, n);
      NoLateBits(data, n);
      hide Or, Number, Gathered, Late;
      OrZero(Cut(Number(data, n)));
    } else {
      hide *;
      GatheredIs(data, n - 1);
      OneMoreIs(data, n - 1);
    }
  }

  lemma OneMoreIs(data: Bytes, k: nat)
    requires 5 <= k < |data| && Gathered(data, k) == Or(Cut(Number(data, k)), Late(data, k))
    ensures Gathered(data, k + 1) == Or(Cut(Number(data, k + 1)), Late(data, k + 1))
  {
    hide *;
    CutsWholeWords(Number(data, k), data[k] as nat % 128, 7 * k);
    OneMore(data, k);
    LateMore(data, k);
    if Position(k) < 32 {
      AddBitsAssoc(Cut(Number(data, k)), Late(data, k), data[k] as nat, Position(k));
    }
  }

  lemma AddBitsAssoc(low: nat, late: nat, byte: nat, p: nat)
    ensures AddBits(Or(low, late), byte, p) == Or(low, AddBits(late, byte, p))
  {
    hide Or, Cut, Pow;
    OrAssoc(low, late, Cut(byte % 128 * Pow(2, p)));
  }

  lemma LateMore(data: Bytes, k: nat)
    requires 5 <= k < |data|
    ensures Late(data, k + 1) == if Position(k) >= 32 then Late(data, k) else AddBits(Late(data, k), data[k] as nat, Position(k))
  {
    hide AddBits;
    if k < 37 {
      EarlyPosition(k);
    }
    hide Position;
  }

  lemma {:induction false} NumberFromFront(data: Bytes, n: nat)
    requires 0 < n <= |data|
    ensures Number(data, n) == data[0] as nat % 128 + 128 * Number(data[1..], n - 1)
  {
    if n == 1 {
      assert Number(data, 0) == 0 && Pow(2, 0) == 1;
    } else {
      NumberFromFront(data, n - 1);
      var b, m := data[n - 1] as nat % 128, 7 * (n - 2);
      SevenMore(m);
      assert data[1..][n - 2] == data[n - 1];
      Commutes(b, Pow(2, m));
    }
  }

  lemma Commutes(b: nat, x: nat)
    ensures b * (128 * x) == 128 * (b * x)
  {
  }

  /** A varint that ends spells its number. */
  lemma {:induction false} NumberIsParsed(data: Bytes, limit: nat)
    requires Length(data).Some? && limit >= Length(data).value
    ensures var n := Length(data).value;
            0 < n <= |data| && ParseVarint(data, limit) == Some((Number(data, n), data[n..]))
    decreases limit
  {
    var n := Length(data).value;
    LengthIs(data);
    if n == 1 {
      NumberFromFront(data, 1);
    } else {
      LengthIs(data[1..]);
      hide Number, ParseVarint;
      NumberIsParsed(data[1..], limit - 1);
      NumberFromFront(data, n);
      assert data[1..][n - 1..] == data[n..];
      ParseMore(data, limit, Number(data[1..], n - 1), data[n..]);
    }
  }

  lemma ParseMore(data: Bytes, limit: nat, v: nat, rest: Bytes)
    requires data != [] && data[0] >= 128 && limit > 0 && ParseVarint(data[1..], limit - 1) == Some((v, rest))
    ensures ParseVarint(data, limit) == Some((data[0] as nat % 128 + 128 * v, rest))
  {
  }

  // ----- exactly

  /** What the decoder answers, for every string: nothing for a varint that does not end
      or is not taken, and else the number cut to 32 bits, with the late bits put in. */
  lemma ReadsExactly(data: Bytes)
    ensures Length(data).None? ==> ReadVarint32(data) == None
    ensures Length(data).Some? ==>
              var n := Length(data).value;
              0 < n <= |data| && ReadVarint32(data) == if Taken(data, n) then Some((Or(Number(data, n) % WORD, Late(data, n)), data[n..])) else None
  {
    hide Or, Pow, Number, Late, Position, Passes, Length;
    LengthIs(data);
    if Length(data).Some? {
      var n := Length(data).value;
      GatheredIs(data, n);
      if n == 1 {
        OneByte(data);
      } else {
        StopsOrEnds(data, n);
      }
    } else {
      NeverEnds(data);
    }
  }

  lemma OneByte(data: Bytes)
    requires data != [] && data[0] < 128
    ensures ReadVarint32(data) == Some((Gathered(data, 1), data[1..])) && Taken(data, 1)
  {
    hide Gathered, ReadTail32, Passes;
    FirstByte(data);
    EarlyPosition(0);
  }

  /** The first byte that does not pass, if there is one. */
  lemma {:induction false} FirstFailure(data: Bytes, n: nat) returns (k: nat)
    requires 0 < n <= |data|
    ensures 0 < k <= n && (forall i :: 0 < i < k ==> Passes(data, i)) && (k < n ==> !Passes(data, k))
  {
    hide Passes;
    if n == 1 {
      k := 1;
    } else {
      k := FirstFailure(data, n - 1);
      if k == n - 1 && Passes(data, k) {
        k := n;
      }
    }
  }

  lemma StopsOrEnds(data: Bytes, n: nat)
    requires 1 < n <= |data| && data[n - 1] < 128 && forall i :: 0 <= i < n - 1 ==> data[i] >= 128
    ensures ReadVarint32(data) == if Taken(data, n) then Some((Gathered(data, n), data[n..])) else None
  {
    hide ReadVarint32, ReadTail32, Passes, Gathered, Position;
    var k := FirstFailure(data, n);
    if k < n {
      LoopReaches(data, k);
      LoopStep(data, k);
    } else {
      LoopReaches(data, n - 1);
      LoopStep(data, n - 1);
    }
  }

  lemma NeverEnds(data: Bytes)
    requires forall i :: 0 <= i < |data| ==> data[i] >= 128
    ensures ReadVarint32(data) == None
  {
    hide Passes, Gathered, Position, AddBits;
    if data != [] {
      var n := |data|;
      var k := FirstFailure(data, n);
      LoopReaches(data, k);
      if k < n {
        LoopStep(data, k);
      } else {
        assert data[n..] == [];
      }
    }
  }

  /** A varint that is read gives its number modulo 2 to the 32 if and only if its late bits
      are bits of that anyway; up to 37 bytes there are none. */
  lemma ReadsRight(data: Bytes)
    requires ReadVarint32(data).Some?
    ensures var (v, rest) := ReadVarint32(data).value;
            var parsed := ParseVarint(data, |data|);
            && Length(data) == Some(|data| - |rest|) && parsed.Some? && parsed.value.1 == rest
            && var n := Length(data).value;
               var low := parsed.value.0 % WORD;
               && 0 < n <= |data| && (v == low <==> Within(Late(data, n), low))
               && (n <= 37 ==> v == low)
  {
    hide Or, ReadVarint32, Number, Late;
    ReadsExactly(data);
    var n := Length(data).value;
    NumberIsParsed(data, |data|);
    OrSame(Number(data, n) % WORD, Late(data, n));
    if n <= 37 {
      NoLateBits(data, n);
      OrZero(Number(data, n) % WORD);
    }
  }

  lemma NoLateBits(data: Bytes, n: nat)
    requires n <= 37 && n <= |data|
    ensures Late(data, n) == 0
  {
  }

  // ----- inputs for which that is not what one would expect

  function Zeros(n: nat): Bytes {
    seq(n, _ => 128)
  }

  lemma ZeroMoves(data: Bytes, bitpos: nat, result: nat)
    requires data != [] && data[0] == 128
    ensures ReadTail32(data, bitpos, result) == ReadTail32(data[1..], (bitpos + 7) % 256, result)
  {
    hide Pow, Or;
    OrZero(result);
  }

  lemma PositionMoves(bitpos: nat, n: nat)
    ensures ((bitpos + 7) % 256 + 7 * n) % 256 == (bitpos + 7 * (n + 1)) % 256
  {
    ModAdd(bitpos + 7, 7 * n, 256);
  }

  /** A byte 0x80 adds no bits: it only moves the position on, at whatever position. */
  lemma {:induction false} ZerosOnlyMove(n: nat, data: Bytes, bitpos: nat, result: nat)
    requires bitpos < 256
    ensures ReadTail32(Zeros(n) + data, bitpos, result) == ReadTail32(data, (bitpos + 7 * n) % 256, result)
    decreases n
  {
    hide ReadTail32;
    if n == 0 {
      assert Zeros(n) + data == data;
    } else {
      assert (Zeros(n) + data)[1..] == Zeros(n - 1) + data;
      ZeroMoves(Zeros(n) + data, bitpos, result);
      ZerosOnlyMove(n - 1, data, (bitpos + 7) % 256, result);
      PositionMoves(bitpos, n - 1);
    }
  }

  /** Bytes 0x80 spell nothing. */
  lemma {:induction false} NumberOfZeros(n: nat, tail: Bytes)
    ensures Number(Zeros(n) + tail, n) == 0
  {
    if n > 0 {
      hide Pow;
      NumberOfZeros(n - 1, [128] + tail);
      assert Zeros(n) + tail == Zeros(n - 1) + ([128] + tail);
    }
  }

  lemma {:induction false} LengthAfterZeros(n: nat, tail: Bytes)
    requires Length(tail).Some?
    ensures Length(Zeros(n) + tail) == Some(n + Length(tail).value)
  {
    if n == 0 {
      assert Zeros(n) + tail == tail;
    } else {
      assert Zeros(n) + tail == [128] + (Zeros(n - 1) + tail);
      hide Length, Zeros;
      LengthAfterZeros(n - 1, tail);
      LengthOfLonger(Zeros(n - 1) + tail);
    }
  }

  lemma LengthOfLonger(tail: Bytes)
    requires Length(tail).Some?
    ensures Length([128] + tail) == Some(1 + Length(tail).value)
  {
    assert ([128] + tail)[1..] == tail;
  }

  /** `n` bytes 0x80, and then these. */
  lemma AfterZeros(n: nat, tail: Bytes)
    ensures var data := Zeros(n) + tail;
            |data| == n + |tail| && data[n..] == tail && (forall k :: 0 <= k < n ==> data[k] == 128 && Passes(data, k))
            && forall k :: 0 <= k < |tail| ==> data[n + k] == tail[k]
  {
    hide Lands, Position;
  }

  /** After 37 of them the bits that follow are not an overflow, but are read as if they
      came early. */
  lemma LateBitsAreRead(b: Byte, rest: Bytes)
    requires b < 128
    ensures ReadVarint32(Zeros(37) + ([b] + rest)) == Some((b as nat * 8, rest))
    ensures ParseVarint(Zeros(37) + ([b] + rest), 38) == Some((b as nat * Pow(2, 259), rest))
  {
    var tail := [b] + rest;
    AfterZeros(37, tail);
    OneByteLong(tail);
    LengthAfterZeros(37, tail);
    NumberOfZeros(37, tail);
    SliceLater(Zeros(37) + tail, 37, tail, rest);
    LateByteRead(Zeros(37) + tail, b, rest);
  }

  lemma LateByteRead(data: Bytes, b: Byte, rest: Bytes)
    requires Length(data) == Some(38) && |data| >= 38 && data[37] == b < 128 && data[38..] == rest
    requires Number(data, 37) == 0 && forall k :: 0 <= k < 37 ==> Passes(data, k)
    ensures ReadVarint32(data) == Some((b as nat * 8, rest))
    ensures ParseVarint(data, 38) == Some((b as nat * Pow(2, 259), rest))
  {
    LateByte(data, b);
    hide *;
    LateNumber(data, b);
    ReadsExactly(data);
    NumberIsParsed(data, 38);
    OrZero(b as nat * 8);
  }

  lemma LateNumber(data: Bytes, b: Byte)
    requires |data| >= 38 && data[37] == b < 128 && Number(data, 37) == 0
    ensures Number(data, 38) == b as nat * Pow(2, 259) && Number(data, 38) % WORD == 0
  {
    hide *;
    OneMore(data, 37);
    AddsWholeWords(0, b as nat, 259);
  }

  lemma SliceLater(data: Bytes, n: nat, tail: Bytes, rest: Bytes)
    requires n < |data| && data[n..] == tail && tail[1..] == rest
    ensures data[n + 1..] == rest
  {
    assert data[n..][1..] == data[n + 1..];
  }

  lemma OneByteLong(data: Bytes)
    requires data != [] && data[0] < 128
    ensures Length(data) == Some(1)
  {
  }

  lemma LateByte(data: Bytes, b: Byte)
    requires |data| >= 38 && data[37] == b < 128 && forall k :: 0 <= k < 37 ==> Passes(data, k)
    ensures Late(data, 38) == b as nat * 8 && Taken(data, 38)
  {
    hide Or, Lands;
    assert Position(37) == 3 && Pow(2, 3) == 8;
    OrZero(b as nat * 8);
    hide Position;
    forall k | 0 < k < 38
      ensures Passes(data, k)
    {
    }
  }

  /** A number that needs more than 32 bits is refused at its fifth byte only when that is
      the last one: with a sixth byte it is read as zero. */
  lemma HighBitsAreLost(w: nat, rest: Bytes)
    requires 0 < w < 8
    ensures var b: Byte := 0x80 + 16 * w;
            var data := Zeros(4) + ([b, 0] + rest);
            ReadVarint32(data) == Some((0, rest)) && ParseVarint(data, 6) == Some((w * WORD, rest))
  {
    var b: Byte := 0x80 + 16 * w;
    var tail: Bytes := [b, 0] + rest;
    var data := Zeros(4) + tail;
    AfterZeros(4, tail);
    assert tail[0] == b && tail[1] == 0 && tail[1..][1..] == rest;
    TwoBytesLong(tail);
    NumberOfZeros(4, tail);
    SixBytes(data, w);
    SliceLater(data, 4, tail, tail[1..]);
    SliceLater(data, 5, tail[1..], rest);
    hide *;
    LengthAfterZeros(4, tail);
    ReadsExactly(data);
    NumberIsParsed(data, 6);
    OrZero(0);
  }

  lemma TwoBytesLong(data: Bytes)
    requires |data| > 1 && data[0] >= 128 && data[1] < 128
    ensures Length(data) == Some(2)
  {
    OneByteLong(data[1..]);
  }

  lemma SixBytes(data: Bytes, w: nat)
    requires |data| >= 6 && w < 8 && Number(data, 4) == 0 && (forall k :: 0 <= k < 4 ==> Passes(data, k))
    requires data[4] as nat == 0x80 + 16 * w && data[5] == 0
    ensures Number(data, 6) == w * WORD && Number(data, 6) % WORD == 0 && Late(data, 6) == 0 && Taken(data, 6)
  {
    SixBytesTaken(data);
    NoLateBits(data, 6);
    RemainderIs(0x80 + 16 * w, 1, 128, 16 * w);
    RemainderIs(w * WORD, w, WORD, 0);
    FifthByte(data, 16 * w);
  }

  lemma FifthByte(data: Bytes, x: nat)
    requires |data| >= 6 && Number(data, 4) == 0 && data[4] as nat % 128 == x && data[5] == 0
    ensures Number(data, 6) == x * 0x1000_0000
  {
    hide *;
    EarlyPower(4);
    OneMore(data, 4);
    OneMore(data, 5);
    Nothing(Pow(2, 35));
  }

  lemma Nothing(x: nat)
    ensures 0 * x == 0
  {
  }

  lemma SixBytesTaken(data: Bytes)
    requires |data| >= 6 && data[4] >= 128 && data[5] == 0 && forall k :: 0 <= k < 4 ==> Passes(data, k)
    ensures Taken(data, 6)
  {
    EarlyPosition(4);
    EarlyPosition(5);
    hide Position, Lands;
    forall k | 0 < k < 6
      ensures Passes(data, k)
    {
    }
  }
}
