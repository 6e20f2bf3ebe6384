/** CRC32C (`util/crc32c.cc`, `util/crc32c.h`): the table-driven, four-way
    interleaved computation against the bit-at-a-time definition. Words are
    natural numbers; the bitwise operators are written as arithmetic. */
module Crc32c {
  import opened Coding
  import opened Keys

  const WORD: nat := 0x1_0000_0000

  const CRC_XOR: nat := 0xffff_ffff

  /** The Castagnoli polynomial, bits reflected (section 12.1 of RFC 3720). */
  const POLYNOMIAL: nat := 0x82f6_3b78

  const MASK_DELTA: nat := 0xa282_ead8

  // ----- exclusive or

  function Xor(a: nat, b: nat): nat
    decreases a + b
  {
    if a == 0 then b else if b == 0 then a else 2 * Xor(a / 2, b / 2) + (if a % 2 == b % 2 then 0 else 1)
  }

  /** The lowest bit on its own. */
  lemma XorStep(a: nat, p: nat, b: nat, q: nat)
    requires p < 2 && q < 2
    ensures Xor(2 * a + p, 2 * b + q) == 2 * Xor(a, b) + (if p == q then 0 else 1)
  {
  }

  lemma LowBit(a: nat) returns (h: nat, p: nat)
    ensures p < 2 && a == 2 * h + p && (a > 0 ==> h < a)
  {
    h, p := a / 2, a % 2;
  }

  lemma {:induction false} XorComm(a: nat, b: nat)
    ensures Xor(a, b) == Xor(b, a)
    decreases a + b
  {
    if a != 0 && b != 0 {
      XorComm(a / 2, b / 2);
    }
  }

  lemma {:induction false} XorSelf(a: nat)
    ensures Xor(a, a) == 0
  {
    if a != 0 {
      XorSelf(a / 2);
    }
  }

  lemma {:induction false} XorAssoc(a: nat, b: nat, c: nat)
    ensures Xor(Xor(a, b), c) == Xor(a, Xor(b, c))
    decreases a + b + c
  {
    if a != 0 && b != 0 && c != 0 {
      var ha, pa := LowBit(a);
      var hb, pb := LowBit(b);
      var hc, pc := LowBit(c);
      XorAssoc(ha, hb, hc);
      AssocStep(ha, pa, hb, pb, hc, pc);
    }
  }

  lemma AssocStep(a: nat, p: nat, b: nat, q: nat, c: nat, r: nat)
    requires p < 2 && q < 2 && r < 2
    requires Xor(Xor(a, b), c) == Xor(a, Xor(b, c))
    ensures Xor(Xor(2 * a + p, 2 * b + q), 2 * c + r) == Xor(2 * a + p, Xor(2 * b + q, 2 * c + r))
  {
    hide Xor;
    XorStep(a, p, b, q);
    XorStep(b, q, c, r);
    XorStep(Xor(a, b), if p == q then 0 else 1, c, r);
    XorStep(a, p, Xor(b, c), if q == r then 0 else 1);
  }

  lemma XorTwice(a: nat, b: nat)
    ensures Xor(Xor(a, b), b) == a
  {
    XorAssoc(a, b, b);
    XorSelf(b);
  }

  /** Exchanging the inner two of four. */
  lemma XorSwap(a: nat, b: nat, c: nat, d: nat)
    ensures Xor(Xor(a, b), Xor(c, d)) == Xor(Xor(a, c), Xor(b, d))
  {
    XorAssoc(a, b, Xor(c, d));
    XorAssoc(b, c, d);
    XorComm(b, c);
    XorAssoc(c, b, d);
    XorAssoc(a, c, Xor(b, d));
  }

  function ShiftLeft(a: nat, k: nat): nat {
    if k == 0 then a else 2 * ShiftLeft(a, k - 1)
  }

  /** Adding below position `k` what fits there does not disturb what is above. */
  lemma {:induction false} XorApart(k: nat, x: nat, b: nat)
    requires x < ShiftLeft(1, k)
    ensures Xor(x, ShiftLeft(b, k)) == x + ShiftLeft(b, k)
  {
    if k > 0 {
      var h, p := LowBit(x);
      XorApart(k - 1, h, b);
      XorStep(h, p, ShiftLeft(b, k - 1), 0);
    }
  }

  lemma {:induction false} XorBound(k: nat, x: nat, y: nat)
    requires x < ShiftLeft(1, k) && y < ShiftLeft(1, k)
    ensures Xor(x, y) < ShiftLeft(1, k)
  {
    if k > 0 {
      var h, p := LowBit(x);
      var g, q := LowBit(y);
      XorBound(k - 1, h, g);
      XorStep(h, p, g, q);
    }
  }

  lemma {:induction false} ShiftLeftAdd(a: nat, m: nat, n: nat)
    ensures ShiftLeft(a, m + n) == ShiftLeft(ShiftLeft(a, m), n)
  {
    if n > 0 {
      ShiftLeftAdd(a, m, n - 1);
    }
  }

  lemma Shift8(a: nat)
    ensures ShiftLeft(a, 8) == 256 * a
  {
    ShiftLeftAdd(a, 4, 4);
    Shift4(a);
    Shift4(16 * a);
  }

  lemma Shift4(a: nat)
    ensures ShiftLeft(a, 4) == 16 * a
  {
    assert ShiftLeft(a, 1) == 2 * a;
    assert ShiftLeft(a, 2) == 4 * a;
    assert ShiftLeft(a, 3) == 8 * a;
  }

  lemma Shift8Words()
    ensures ShiftLeft(1, 32) == WORD
  {
    ShiftLeftAdd(1, 8, 24);
    ShiftLeftAdd(256, 8, 16);
    ShiftLeftAdd(0x1_0000, 8, 8);
    Shift8(1);
    Shift8(256);
    Shift8(0x1_0000);
    Shift8(0x100_0000);
  }

  lemma LowAndHigh(x: nat, y: nat)
    requires x < 256
    ensures Xor(x, 256 * y) == x + 256 * y
  {
    Shift8(1);
    Shift8(y);
    XorApart(8, x, y);
  }

  lemma ByteXor(x: nat, y: nat)
    requires x < 256 && y < 256
    ensures Xor(x, y) < 256
  {
    Shift8(1);
    XorBound(8, x, y);
  }

  // ----- a shift register, given what a zero byte does to it

  /** A zero byte acts linearly, only moves down what is above the low byte, and stays in a word. */
  ghost predicate IsShift(z: nat -> nat) {
    && (forall a: nat, b: nat {:trigger z(Xor(a, b))} :: z(Xor(a, b)) == Xor(z(a), z(b)))
    && (forall y: nat {:trigger z(256 * y)} :: z(256 * y) == y)
    && (forall r: nat {:trigger z(r)} :: r < WORD ==> z(r) < WORD)
  }

  lemma Linear(z: nat -> nat, a: nat, b: nat)
    requires IsShift(z)
    ensures z(Xor(a, b)) == Xor(z(a), z(b))
  {
  }

  lemma MovesDown(z: nat -> nat, y: nat)
    requires IsShift(z)
    ensures z(256 * y) == y
  {
  }

  lemma KeepsWord(z: nat -> nat, r: nat)
    requires IsShift(z) && r < WORD
    ensures z(r) < WORD
  {
  }

  /** The register after `n` zero bytes. */
  function Zeros(z: nat -> nat, n: nat, r: nat): nat
    decreases n, r
  {
    if n == 0 then r else z(Zeros(z, n - 1, r))
  }

  /** The register after a string: each byte is added to the low end and shifted through. */
  function Run(z: nat -> nat, r: nat, data: Bytes): nat {
    if data == [] then r else z(Xor(Run(z, r, data[..|data| - 1]), data[|data| - 1]))
  }

  /** The CRC of a string that follows one whose CRC is `crc`. */
  function Crc(z: nat -> nat, crc: nat, data: Bytes): nat {
    Xor(Run(z, Xor(crc, CRC_XOR), data), CRC_XOR)
  }

  lemma {:induction false} ZerosLinear(z: nat -> nat, n: nat, a: nat, b: nat)
    requires IsShift(z)
    ensures Zeros(z, n, Xor(a, b)) == Xor(Zeros(z, n, a), Zeros(z, n, b))
  {
    if n > 0 {
      ZerosLinear(z, n - 1, a, b);
      Linear(z, Zeros(z, n - 1, a), Zeros(z, n - 1, b));
    }
  }

  lemma {:induction false} ZerosAdd(z: nat -> nat, m: nat, n: nat, r: nat)
    ensures Zeros(z, m + n, r) == Zeros(z, m, Zeros(z, n, r))
  {
    if m > 0 {
      ZerosAdd(z, m - 1, n, r);
    }
  }

  lemma ZerosTo(z: nat -> nat, m: nat, n: nat, k: nat, r: nat)
    requires k == m + n
    ensures Zeros(z, m, Zeros(z, n, r)) == Zeros(z, k, r)
  {
    ZerosAdd(z, m, n, r);
  }

  lemma {:induction false} RunAppend(z: nat -> nat, r: nat, a: Bytes, b: Bytes)
    ensures Run(z, r, a + b) == Run(z, Run(z, r, a), b)
  {
    if b == [] {
      assert a + b == a;
    } else {
      RunAppend(z, r, a, b[..|b| - 1]);
      assert (a + b)[..|a + b| - 1] == a + b[..|b| - 1];
    }
  }

  /** Extending by one string and then by another is extending by both. */
  lemma CrcAppend(z: nat -> nat, crc: nat, a: Bytes, b: Bytes)
    ensures Crc(z, Crc(z, crc, a), b) == Crc(z, crc, a + b)
  {
    RunAppend(z, Xor(crc, CRC_XOR), a, b);
    XorTwice(Run(z, Xor(crc, CRC_XOR), a), CRC_XOR);
  }

  // ----- one byte and one word at a time

  /** What is above the low byte only moves down. */
  lemma HighPart(z: nat -> nat, r: nat, x: nat, y: nat)
    requires IsShift(z) && x < 256
    ensures z(Xor(r, x + 256 * y)) == Xor(z(Xor(r, x)), y)
  {
    LowAndHigh(x, y);
    MovesDown(z, y);
    AddedHigh(z, r, x, 256 * y);
  }

  lemma AddedHigh(z: nat -> nat, r: nat, x: nat, h: nat)
    requires IsShift(z)
    ensures z(Xor(r, Xor(x, h))) == Xor(z(Xor(r, x)), z(h))
  {
    XorAssoc(r, x, h);
    Linear(z, Xor(r, x), h);
  }

  /** The table step does to the register what shifting a byte through does. */
  lemma TableStep(z: nat -> nat, r: nat, b: Byte)
    requires IsShift(z)
    ensures Xor(r % 256, b) < 256
    ensures Xor(z(Xor(r % 256, b)), r / 256) == z(Xor(r, b))
  {
    ByteXor(r % 256, b);
    HighPart(z, b, r % 256, r / 256);
    XorComm(b, r % 256);
    XorComm(b, r);
  }

  lemma RunFirst(z: nat -> nat, r: nat, data: Bytes)
    requires data != []
    ensures Run(z, r, data) == Run(z, z(Xor(r, data[0])), data[1..])
  {
    RunAppend(z, r, data[..1], data[1..]);
    assert data == data[..1] + data[1..];
    assert data[..1][..0] == [];
    assert Run(z, r, data[..1]) == z(Xor(Run(z, r, data[..1][..0]), data[..1][0]));
  }

  /** A string is shifted through as the one number it spells. */
  lemma {:induction false} RunWord(z: nat -> nat, r: nat, data: Bytes)
    requires IsShift(z)
    ensures Run(z, r, data) == Zeros(z, |data|, Xor(r, Little(data)))
    decreases |data|
  {
    if data != [] {
      RunFirst(z, r, data);
      RunWord(z, z(Xor(r, data[0])), data[1..]);
      FirstByteShifted(z, |data[1..]|, |data|, r, data[0], Little(data[1..]), Little(data));
    }
  }

  lemma FirstByteShifted(z: nat -> nat, n: nat, k: nat, r: nat, b: Byte, l: nat, w: nat)
    requires IsShift(z) && k == n + 1 && w == b as nat + 256 * l
    ensures Zeros(z, n, Xor(z(Xor(r, b)), l)) == Zeros(z, k, Xor(r, w))
  {
    HighPart(z, r, b, l);
    OneMoreZero(z, n, Xor(r, w));
  }

  lemma OneMoreZero(z: nat -> nat, n: nat, w: nat)
    ensures Zeros(z, n + 1, w) == Zeros(z, n, z(w))
  {
    ZerosAdd(z, n, 1, w);
    assert Zeros(z, 1, w) == z(w);
  }

  // ----- four interleaved registers

  /** The register that four interleaved ones stand for: the n-th of them still
      has the words that follow it to shift through. */
  function Combined(z: nat -> nat, n: nat, c0: nat, c1: nat, c2: nat, c3: nat): nat {
    Xor(Xor(Zeros(z, 4 * n, c0), Zeros(z, 3 * n, c1)), Xor(Zeros(z, 2 * n, c2), Zeros(z, n, c3)))
  }

  lemma AddThenShift(z: nat -> nat, n: nat, a: nat, b: nat)
    requires IsShift(z)
    ensures Zeros(z, n, Xor(a, b)) == Xor(Zeros(z, n, b), Zeros(z, n, a))
  {
    ZerosLinear(z, n, a, b);
    XorComm(Zeros(z, n, a), Zeros(z, n, b));
  }

  lemma CombineTwo(z: nat -> nat, n: nat, c0: nat, c1: nat)
    requires IsShift(z)
    ensures Zeros(z, n, Xor(c1, Zeros(z, n, c0))) == Xor(Zeros(z, 2 * n, c0), Zeros(z, n, c1))
  {
    AddThenShift(z, n, c1, Zeros(z, n, c0));
    ZerosTo(z, n, n, 2 * n, c0);
  }

  lemma CombineThree(z: nat -> nat, n: nat, c0: nat, c1: nat, c2: nat)
    requires IsShift(z)
    ensures Zeros(z, n, Xor(c2, Xor(Zeros(z, 2 * n, c0), Zeros(z, n, c1))))
         == Xor(Xor(Zeros(z, 3 * n, c0), Zeros(z, 2 * n, c1)), Zeros(z, n, c2))
  {
    AddThenShift(z, n, c2, Xor(Zeros(z, 2 * n, c0), Zeros(z, n, c1)));
    ZerosLinear(z, n, Zeros(z, 2 * n, c0), Zeros(z, n, c1));
    ZerosTo(z, n, 2 * n, 3 * n, c0);
    ZerosTo(z, n, n, 2 * n, c1);
  }

  lemma CombineFour(z: nat -> nat, n: nat, c0: nat, c1: nat, c2: nat, c3: nat)
    requires IsShift(z)
    ensures Zeros(z, n, Xor(c3, Xor(Xor(Zeros(z, 3 * n, c0), Zeros(z, 2 * n, c1)), Zeros(z, n, c2))))
         == Combined(z, n, c0, c1, c2, c3)
  {
    AddThenShift(z, n, c3, Xor(Xor(Zeros(z, 3 * n, c0), Zeros(z, 2 * n, c1)), Zeros(z, n, c2)));
    ShiftThree(z, n, Zeros(z, 3 * n, c0), Zeros(z, 2 * n, c1), Zeros(z, n, c2));
    ZerosTo(z, n, 3 * n, 4 * n, c0);
    ZerosTo(z, n, 2 * n, 3 * n, c1);
    ZerosTo(z, n, n, 2 * n, c2);
    XorAssoc(Xor(Zeros(z, 4 * n, c0), Zeros(z, 3 * n, c1)), Zeros(z, 2 * n, c2), Zeros(z, n, c3));
  }

  lemma ShiftThree(z: nat -> nat, n: nat, a: nat, b: nat, c: nat)
    requires IsShift(z)
    ensures Zeros(z, n, Xor(Xor(a, b), c)) == Xor(Xor(Zeros(z, n, a), Zeros(z, n, b)), Zeros(z, n, c))
  {
    ZerosLinear(z, n, Xor(a, b), c);
    ZerosLinear(z, n, a, b);
  }

  /** What STEP4W does with the four registers. */
  lemma CombineSteps(z: nat -> nat, n: nat, c0: nat, c1: nat, c2: nat, c3: nat)
    requires IsShift(z)
    ensures Zeros(z, n, Xor(c3, Zeros(z, n, Xor(c2, Zeros(z, n, Xor(c1, Zeros(z, n, c0)))))))
         == Combined(z, n, c0, c1, c2, c3)
  {
    CombineTwo(z, n, c0, c1);
    CombineThree(z, n, c0, c1, c2);
    CombineFour(z, n, c0, c1, c2, c3);
  }

  /** Shifting four words through, the first of them already added to the register. */
  lemma RunSwath(z: nat -> nat, n: nat, r: nat, w0: Bytes, w1: Bytes, w2: Bytes, w3: Bytes)
    requires IsShift(z) && |w0| == n && |w1| == n && |w2| == n && |w3| == n
    ensures Run(z, r, w0 + w1 + w2 + w3) == Combined(z, n, Xor(Little(w0), r), Little(w1), Little(w2), Little(w3))
  {
    RunAppend(z, r, w0 + w1 + w2, w3);
    RunAppend(z, r, w0 + w1, w2);
    RunAppend(z, r, w0, w1);
    RunWord(z, r, w0);
    RunWord(z, Run(z, r, w0), w1);
    RunWord(z, Run(z, r, w0 + w1), w2);
    RunWord(z, Run(z, r, w0 + w1 + w2), w3);
    XorComm(r, Little(w0));
    XorComm(Run(z, r, w0), Little(w1));
    XorComm(Run(z, r, w0 + w1), Little(w2));
    XorComm(Run(z, r, w0 + w1 + w2), Little(w3));
    CombineSteps(z, n, Xor(Little(w0), r), Little(w1), Little(w2), Little(w3));
  }

  /** Combined is linear in its four registers together. */
  lemma CombinedLinear(z: nat -> nat, n: nat, a0: nat, a1: nat, a2: nat, a3: nat, b0: nat, b1: nat, b2: nat, b3: nat)
    requires IsShift(z)
    ensures Combined(z, n, Xor(a0, b0), Xor(a1, b1), Xor(a2, b2), Xor(a3, b3))
         == Xor(Combined(z, n, a0, a1, a2, a3), Combined(z, n, b0, b1, b2, b3))
  {
    ZerosLinear(z, 4 * n, a0, b0);
    ZerosLinear(z, 3 * n, a1, b1);
    ZerosLinear(z, 2 * n, a2, b2);
    ZerosLinear(z, n, a3, b3);
    XorSwap(Zeros(z, 4 * n, a0), Zeros(z, 4 * n, b0), Zeros(z, 3 * n, a1), Zeros(z, 3 * n, b1));
    XorSwap(Zeros(z, 2 * n, a2), Zeros(z, 2 * n, b2), Zeros(z, n, a3), Zeros(z, n, b3));
    XorSwap(Xor(Zeros(z, 4 * n, a0), Zeros(z, 3 * n, a1)), Xor(Zeros(z, 4 * n, b0), Zeros(z, 3 * n, b1)),
            Xor(Zeros(z, 2 * n, a2), Zeros(z, n, a3)), Xor(Zeros(z, 2 * n, b2), Zeros(z, n, b3)));
  }

  lemma CombinedOfZeros(z: nat -> nat, n: nat, m: nat, c0: nat, c1: nat, c2: nat, c3: nat)
    requires IsShift(z)
    ensures Combined(z, n, Zeros(z, m, c0), Zeros(z, m, c1), Zeros(z, m, c2), Zeros(z, m, c3))
         == Zeros(z, m, Combined(z, n, c0, c1, c2, c3))
  {
    ZerosSwap(z, 4 * n, m, c0);
    ZerosSwap(z, 3 * n, m, c1);
    ZerosSwap(z, 2 * n, m, c2);
    ZerosSwap(z, n, m, c3);
    ZerosLinear(z, m, Zeros(z, 4 * n, c0), Zeros(z, 3 * n, c1));
    ZerosLinear(z, m, Zeros(z, 2 * n, c2), Zeros(z, n, c3));
    ZerosLinear(z, m, Xor(Zeros(z, 4 * n, c0), Zeros(z, 3 * n, c1)), Xor(Zeros(z, 2 * n, c2), Zeros(z, n, c3)));
  }

  lemma ZerosSwap(z: nat -> nat, m: nat, n: nat, r: nat)
    ensures Zeros(z, m, Zeros(z, n, r)) == Zeros(z, n, Zeros(z, m, r))
  {
    ZerosAdd(z, m, n, r);
    ZerosAdd(z, n, m, r);
  }

  /** STEP16: every register moves on by four words and takes in its next word. */
  lemma SwathStep(z: nat -> nat, n: nat, c0: nat, c1: nat, c2: nat, c3: nat, w0: Bytes, w1: Bytes, w2: Bytes, w3: Bytes)
    requires IsShift(z) && |w0| == n && |w1| == n && |w2| == n && |w3| == n
    ensures Combined(z, n, Xor(Little(w0), Zeros(z, 4 * n, c0)), Xor(Little(w1), Zeros(z, 4 * n, c1)),
                     Xor(Little(w2), Zeros(z, 4 * n, c2)), Xor(Little(w3), Zeros(z, 4 * n, c3)))
         == Run(z, Combined(z, n, c0, c1, c2, c3), w0 + w1 + w2 + w3)
  {
    SwathWords(z, n, c0, c1, c2, c3, Little(w0), Little(w1), Little(w2), Little(w3));
    RunSwath(z, n, Combined(z, n, c0, c1, c2, c3), w0, w1, w2, w3);
    FirstTakesAll(z, n, Combined(z, n, c0, c1, c2, c3), Little(w0), Little(w1), Little(w2), Little(w3));
  }

  lemma SwathWords(z: nat -> nat, n: nat, c0: nat, c1: nat, c2: nat, c3: nat, l0: nat, l1: nat, l2: nat, l3: nat)
    requires IsShift(z)
    ensures Combined(z, n, Xor(l0, Zeros(z, 4 * n, c0)), Xor(l1, Zeros(z, 4 * n, c1)),
                     Xor(l2, Zeros(z, 4 * n, c2)), Xor(l3, Zeros(z, 4 * n, c3)))
         == Xor(Combined(z, n, l0, l1, l2, l3), Zeros(z, 4 * n, Combined(z, n, c0, c1, c2, c3)))
  {
    CombinedLinear(z, n, l0, l1, l2, l3, Zeros(z, 4 * n, c0), Zeros(z, 4 * n, c1), Zeros(z, 4 * n, c2), Zeros(z, 4 * n, c3));
    CombinedOfZeros(z, n, 4 * n, c0, c1, c2, c3);
  }

  lemma FirstTakesAll(z: nat -> nat, n: nat, r: nat, l0: nat, l1: nat, l2: nat, l3: nat)
    requires IsShift(z)
    ensures Combined(z, n, Xor(l0, r), l1, l2, l3) == Xor(Combined(z, n, l0, l1, l2, l3), Zeros(z, 4 * n, r))
  {
    CombinedLinear(z, n, l0, l1, l2, l3, r, 0, 0, 0);
    CombinedOfFirst(z, n, r);
  }

  lemma CombinedOfFirst(z: nat -> nat, n: nat, r: nat)
    requires IsShift(z)
    ensures Combined(z, n, r, 0, 0, 0) == Zeros(z, 4 * n, r)
    ensures forall x: nat :: Xor(x, 0) == x
  {
    NothingToShift(z, n);
    NothingToShift(z, 2 * n);
    NothingToShift(z, 3 * n);
  }

  lemma {:induction false} NothingToShift(z: nat -> nat, n: nat)
    requires IsShift(z)
    ensures Zeros(z, n, 0) == 0
  {
    if n > 0 {
      NothingToShift(z, n - 1);
      MovesDown(z, 0);
    }
  }

  /** STEP4(0) and the rotation of the registers: one word is taken in. */
  lemma WordStep(z: nat -> nat, n: nat, c0: nat, c1: nat, c2: nat, c3: nat, w: Bytes)
    requires IsShift(z) && |w| == n
    ensures Combined(z, n, c1, c2, c3, Xor(Little(w), Zeros(z, 4 * n, c0)))
         == Run(z, Combined(z, n, c0, c1, c2, c3), w)
  {
    var l := Little(w);
    RunWord(z, Combined(z, n, c0, c1, c2, c3), w);
    ZerosLinear(z, n, Combined(z, n, c0, c1, c2, c3), l);
    TakenIn(z, n, c0, c1, c2, c3, l);
    MovedOn(z, n, c0, c1, c2, c3);
    XorRotate(Zeros(z, 5 * n, c0), Zeros(z, 4 * n, c1), Zeros(z, 3 * n, c2), Zeros(z, 2 * n, c3), Zeros(z, n, l));
  }

  lemma TakenIn(z: nat -> nat, n: nat, c0: nat, c1: nat, c2: nat, c3: nat, l: nat)
    requires IsShift(z)
    ensures Combined(z, n, c1, c2, c3, Xor(l, Zeros(z, 4 * n, c0)))
         == Xor(Xor(Zeros(z, 4 * n, c1), Zeros(z, 3 * n, c2)), Xor(Zeros(z, 2 * n, c3), Xor(Zeros(z, n, l), Zeros(z, 5 * n, c0))))
  {
    ZerosLinear(z, n, l, Zeros(z, 4 * n, c0));
    ZerosTo(z, n, 4 * n, 5 * n, c0);
  }

  lemma MovedOn(z: nat -> nat, n: nat, c0: nat, c1: nat, c2: nat, c3: nat)
    requires IsShift(z)
    ensures Zeros(z, n, Combined(z, n, c0, c1, c2, c3))
         == Xor(Xor(Zeros(z, 5 * n, c0), Zeros(z, 4 * n, c1)), Xor(Zeros(z, 3 * n, c2), Zeros(z, 2 * n, c3)))
  {
    CombinedOfZeros(z, n, n, c0, c1, c2, c3);
    ZerosTo(z, 4 * n, n, 5 * n, c0);
    ZerosTo(z, 3 * n, n, 4 * n, c1);
    ZerosTo(z, 2 * n, n, 3 * n, c2);
    ZerosTo(z, n, n, 2 * n, c3);
  }

  lemma XorRotate(a: nat, b: nat, c: nat, d: nat, e: nat)
    ensures Xor(Xor(b, c), Xor(d, Xor(e, a))) == Xor(Xor(Xor(a, b), Xor(c, d)), e)
  {
    XorAssoc(a, b, Xor(c, d));
    XorAssoc(b, c, d);
    XorComm(a, Xor(b, Xor(c, d)));
    XorAssoc(Xor(b, Xor(c, d)), a, e);
    XorComm(a, e);
    XorAssoc(Xor(b, c), d, Xor(e, a));
  }

  // ----- Extend

  lemma WordXor(a: nat, b: nat)
    requires a < WORD && b < WORD
    ensures Xor(a, b) < WORD
  {
    Shift8Words();
    XorBound(32, a, b);
  }

  lemma {:induction false} ZerosKeepWord(z: nat -> nat, n: nat, r: nat)
    requires IsShift(z) && r < WORD
    ensures Zeros(z, n, r) < WORD
  {
    if n > 0 {
      ZerosKeepWord(z, n - 1, r);
      KeepsWord(z, Zeros(z, n - 1, r));
    }
  }

  lemma {:induction false} LittleIsWord(data: Bytes)
    requires |data| == 4
    ensures Little(data) == data[0] as nat + 256 * data[1] as nat + 65536 * data[2] as nat + 0x100_0000 * data[3] as nat < WORD
  {
    assert data[1..][1..] == data[2..] && data[2..][1..] == data[3..] && data[3..][1..] == [];
    assert Little(data[3..]) == data[3] as nat;
    assert Little(data[2..]) == data[2] as nat + 256 * Little(data[3..]);
    assert Little(data[1..]) == data[1] as nat + 256 * Little(data[2..]);
  }

  /** The stride tables, kStrideExtensionTable3 (lane 0) to kStrideExtensionTable0
      (lane 3): sixteen zero bytes after a register with one byte in that lane. */
  function Stride(z: nat -> nat, lane: nat, c: Byte): nat
    requires lane < 4
  {
    Zeros(z, 16, if lane == 0 then c else if lane == 1 then 256 * c else if lane == 2 then 65536 * c else 0x100_0000 * c)
  }

  /** STEP4 on a register and the word it takes in. */
  function Step4(z: nat -> nat, crc: nat, w: nat): nat
    requires crc < WORD
  {
    Xor(Xor(Xor(Xor(w, Stride(z, 0, crc % 256)), Stride(z, 1, crc / 256 % 256)),
            Stride(z, 2, crc / 65536 % 256)), Stride(z, 3, crc / 0x100_0000))
  }

  lemma Lane8(x: nat, b: nat)
    requires x < 256
    ensures Xor(x, 256 * b) == x + 256 * b
  {
    LowAndHigh(x, b);
  }

  lemma Lane16(x: nat, b: nat)
    requires x < 65536
    ensures Xor(x, 65536 * b) == x + 65536 * b
  {
    Shift16(1);
    Shift16(b);
    XorApart(16, x, b);
  }

  lemma Lane24(x: nat, b: nat)
    requires x < 0x100_0000
    ensures Xor(x, 0x100_0000 * b) == x + 0x100_0000 * b
  {
    Shift24(1);
    Shift24(b);
    XorApart(24, x, b);
  }

  /** A word is the sum of its four lanes. */
  lemma Lanes(b0: nat, b1: nat, b2: nat, b3: nat)
    requires b0 < 256 && b1 < 256 && b2 < 256
    ensures Xor(Xor(Xor(b0, 256 * b1), 65536 * b2), 0x100_0000 * b3) == b0 + 256 * b1 + 65536 * b2 + 0x100_0000 * b3
  {
    Lane8(b0, b1);
    Lane16(b0 + 256 * b1, b2);
    Lane24(b0 + 256 * b1 + 65536 * b2, b3);
  }

  lemma Shift16(a: nat)
    ensures ShiftLeft(a, 16) == 65536 * a
  {
    ShiftLeftAdd(a, 8, 8);
    Shift8(a);
    Shift8(256 * a);
  }

  lemma Shift24(a: nat)
    ensures ShiftLeft(a, 24) == 0x100_0000 * a
  {
    ShiftLeftAdd(a, 16, 8);
    Shift16(a);
    Shift8(65536 * a);
  }

  lemma SplitWord(c: nat)
    ensures c == c % 256 + 256 * (c / 256 % 256) + 65536 * (c / 65536 % 256) + 0x100_0000 * (c / 0x100_0000)
  {
    var q1 := c / 256;
    var q2 := q1 / 256;
    var q3 := q2 / 256;
    assert c == 65536 * q2 + 256 * (q1 % 256) + c % 256;
    assert c / 65536 == q2;
    assert c == 0x100_0000 * q3 + 65536 * (q2 % 256) + 256 * (q1 % 256) + c % 256;
    assert c / 0x100_0000 == q3;
  }

  lemma LanesOf(c: nat)
    ensures Xor(Xor(Xor(c % 256, 256 * (c / 256 % 256)), 65536 * (c / 65536 % 256)), 0x100_0000 * (c / 0x100_0000)) == c
  {
    SplitWord(c);
    Lanes(c % 256, c / 256 % 256, c / 65536 % 256, c / 0x100_0000);
  }

  /** Four table lookups advance the whole register by sixteen zero bytes. */
  lemma Step4Is(z: nat -> nat, crc: nat, w: nat)
    requires IsShift(z) && crc < WORD
    ensures Step4(z, crc, w) == Xor(w, Zeros(z, 16, crc))
  {
    LanesOf(crc);
    AdvanceLanes(z, 16, w, crc % 256, 256 * (crc / 256 % 256), 65536 * (crc / 65536 % 256), 0x100_0000 * (crc / 0x100_0000));
  }

  lemma AdvanceLanes(z: nat -> nat, n: nat, w: nat, a: nat, b: nat, c: nat, d: nat)
    requires IsShift(z)
    ensures Xor(Xor(Xor(Xor(w, Zeros(z, n, a)), Zeros(z, n, b)), Zeros(z, n, c)), Zeros(z, n, d))
         == Xor(w, Zeros(z, n, Xor(Xor(Xor(a, b), c), d)))
  {
    ZerosOfLanes(z, n, a, b, c, d);
    XorFour(w, Zeros(z, n, a), Zeros(z, n, b), Zeros(z, n, c), Zeros(z, n, d));
  }

  lemma Step4KeepsWord(z: nat -> nat, crc: nat, w: nat)
    requires IsShift(z) && crc < WORD && w < WORD
    ensures Step4(z, crc, w) < WORD
  {
    Step4Is(z, crc, w);
    ZerosKeepWord(z, 16, crc);
    WordXor(w, Zeros(z, 16, crc));
  }

  lemma ZerosOfLanes(z: nat -> nat, n: nat, a: nat, b: nat, c: nat, d: nat)
    requires IsShift(z)
    ensures Zeros(z, n, Xor(Xor(Xor(a, b), c), d)) == Xor(Xor(Xor(Zeros(z, n, a), Zeros(z, n, b)), Zeros(z, n, c)), Zeros(z, n, d))
  {
    ZerosLinear(z, n, a, b);
    ZerosLinear(z, n, Xor(a, b), c);
    ZerosLinear(z, n, Xor(Xor(a, b), c), d);
  }

  lemma XorFour(w: nat, a: nat, b: nat, c: nat, d: nat)
    ensures Xor(Xor(Xor(Xor(w, a), b), c), d) == Xor(w, Xor(Xor(Xor(a, b), c), d))
  {
    XorAssoc(w, a, b);
    XorAssoc(w, Xor(a, b), c);
    XorAssoc(w, Xor(Xor(a, b), c), d);
  }

  /** ReadUint32LE. */
  method ReadUint32LE(data: Bytes, p: nat) returns (w: nat)
    requires p + 4 <= |data|
    ensures w == Little(data[p..p + 4]) && w < WORD
  {
    w := data[p] as nat + 256 * data[p + 1] as nat + 65536 * data[p + 2] as nat + 0x100_0000 * data[p + 3] as nat;
    LittleIsWord(data[p..p + 4]);
  }

  /** STEP1 from `p` up to `end`. */
  method Bytewise(z: nat -> nat, crc: nat, data: Bytes, p: nat, end: nat) returns (l: nat)
    requires IsShift(z) && crc < WORD && p <= end <= |data|
    ensures l == Run(z, crc, data[p..end]) && l < WORD
  {
    hide IsShift, Xor, Run;
    RunNothing(z, crc);
    assert data[p..p] == [];
    l := crc;
    for i := p to end
      invariant l == Run(z, crc, data[p..i]) && l < WORD
    {
      TableStep(z, l, data[i]);
      ByteThrough(z, crc, data, p, i);
      var c := Xor(l % 256, data[i]);
      WordXor(l, data[i]);
      KeepsWord(z, Xor(l, data[i]));
      l := Xor(z(c), l / 256);
    }
  }

  lemma RunNothing(z: nat -> nat, r: nat)
    ensures Run(z, r, []) == r
  {
  }

  lemma ByteThrough(z: nat -> nat, r: nat, data: Bytes, p: nat, i: nat)
    requires p <= i < |data|
    ensures Run(z, r, data[p..i + 1]) == z(Xor(Run(z, r, data[p..i]), data[i]))
  {
    assert data[p..i + 1][..i - p] == data[p..i];
  }

  /** STEP4W: a word already loaded, four table steps. */
  method Step4W(z: nat -> nat, crc: nat, word: nat) returns (l: nat)
    requires IsShift(z) && crc < WORD && word < WORD
    ensures l == Zeros(z, 4, Xor(word, crc)) && l < WORD
  {
    hide IsShift;
    WordXor(word, crc);
    var w := Xor(word, crc);
    for i := 0 to 4
      invariant w == Zeros(z, i, Xor(word, crc)) && w < WORD
    {
      TableStep(z, w, 0);
      KeepsWord(z, w);
      XorComm(w / 256, z(w % 256));
      w := Xor(w / 256, z(w % 256));
    }
    l := w;
  }

  /** The four registers, words all, stand for the register after `data`. */
  ghost predicate StandFor(z: nat -> nat, r: nat, data: Bytes, c0: nat, c1: nat, c2: nat, c3: nat) {
    && c0 < WORD && c1 < WORD && c2 < WORD && c3 < WORD
    && Combined(z, 4, c0, c1, c2, c3) == Run(z, r, data)
  }

  /** The sixteen-byte swaths and the words after them, in four registers. */
  method Interleaved(z: nat -> nat, crc: nat, data: Bytes, start: nat) returns (l: nat, p: nat)
    requires IsShift(z) && crc < WORD && start + 16 <= |data|
    ensures start <= p <= |data| && l == Run(z, crc, data[start..p]) && l < WORD
  {
    hide IsShift, StandFor, Run, Combined;
    var crc0: nat, crc1: nat, crc2: nat, crc3: nat := Load(z, crc, data, start);
    p := start + 16;
    while |data| - p >= 16
      invariant start <= p <= |data|
      invariant StandFor(z, crc, data[start..p], crc0, crc1, crc2, crc3)
    {
      crc0, crc1, crc2, crc3 := Swath(z, crc, data, start, p, crc0, crc1, crc2, crc3);
      p := p + 16;
    }
    while |data| - p >= 4
      invariant start <= p <= |data|
      invariant StandFor(z, crc, data[start..p], crc0, crc1, crc2, crc3)
    {
      crc0, crc1, crc2, crc3 := OneWord(z, crc, data, start, p, crc0, crc1, crc2, crc3);
      p := p + 4;
    }
    StandForIs(z, crc, data[start..p], crc0, crc1, crc2, crc3);
    l := CombineRegisters(z, crc0, crc1, crc2, crc3);
  }

  /** The first swath: the register so far goes into the first word. */
  method Load(z: nat -> nat, crc: nat, data: Bytes, p: nat) returns (c0: nat, c1: nat, c2: nat, c3: nat)
    requires IsShift(z) && crc < WORD && p + 16 <= |data|
    ensures StandFor(z, crc, data[p..p + 16], c0, c1, c2, c3)
  {
    c0 := ReadUint32LE(data, p);
    c1 := ReadUint32LE(data, p + 4);
    c2 := ReadUint32LE(data, p + 8);
    c3 := ReadUint32LE(data, p + 12);
    WordXor(c0, crc);
    RunSwath(z, 4, crc, data[p..p + 4], data[p + 4..p + 8], data[p + 8..p + 12], data[p + 12..p + 16]);
    FourWords(data, p);
    c0 := Xor(c0, crc);
  }

  /** STEP4 on the word at `p`. */
  method TakeWord(z: nat -> nat, data: Bytes, p: nat, crc0: nat) returns (d: nat)
    requires IsShift(z) && crc0 < WORD && p + 4 <= |data|
    ensures d == Xor(Little(data[p..p + 4]), Zeros(z, 16, crc0)) && d < WORD
  {
    var w := ReadUint32LE(data, p);
    Step4Is(z, crc0, w);
    Step4KeepsWord(z, crc0, w);
    d := Step4(z, crc0, w);
  }

  /** STEP16. */
  method Swath(z: nat -> nat, ghost crc: nat, data: Bytes, ghost start: nat, p: nat, c0: nat, c1: nat, c2: nat, c3: nat)
    returns (d0: nat, d1: nat, d2: nat, d3: nat)
    requires IsShift(z) && start <= p && p + 16 <= |data| && StandFor(z, crc, data[start..p], c0, c1, c2, c3)
    ensures StandFor(z, crc, data[start..p + 16], d0, d1, d2, d3)
  {
    hide IsShift, StandFor, Little, Zeros, Xor, Run, Combined;
    StandForIs(z, crc, data[start..p], c0, c1, c2, c3);
    d0 := TakeWord(z, data, p, c0);
    d1 := TakeWord(z, data, p + 4, c1);
    d2 := TakeWord(z, data, p + 8, c2);
    d3 := TakeWord(z, data, p + 12, c3);
    SwathTaken(z, crc, data, start, p, c0, c1, c2, c3, d0, d1, d2, d3);
  }

  lemma StandForIs(z: nat -> nat, r: nat, data: Bytes, c0: nat, c1: nat, c2: nat, c3: nat)
    requires StandFor(z, r, data, c0, c1, c2, c3)
    ensures c0 < WORD && c1 < WORD && c2 < WORD && c3 < WORD
    ensures Combined(z, 4, c0, c1, c2, c3) == Run(z, r, data)
  {
  }

  /** STEP4(0), and the registers change places. */
  method OneWord(z: nat -> nat, ghost crc: nat, data: Bytes, ghost start: nat, p: nat, c0: nat, c1: nat, c2: nat, c3: nat)
    returns (d0: nat, d1: nat, d2: nat, d3: nat)
    requires IsShift(z) && start <= p && p + 4 <= |data| && StandFor(z, crc, data[start..p], c0, c1, c2, c3)
    ensures StandFor(z, crc, data[start..p + 4], d0, d1, d2, d3)
  {
    StandForIs(z, crc, data[start..p], c0, c1, c2, c3);
    WordTaken(z, crc, data, start, p, c0, c1, c2, c3);
    var tmp := TakeWord(z, data, p, c0);
    d0, d1, d2, d3 := c1, c2, c3, tmp;
  }

  /** The four partial results become one. */
  method CombineRegisters(z: nat -> nat, crc0: nat, crc1: nat, crc2: nat, crc3: nat) returns (l: nat)
    requires IsShift(z) && crc0 < WORD && crc1 < WORD && crc2 < WORD && crc3 < WORD
    ensures l == Combined(z, 4, crc0, crc1, crc2, crc3) && l < WORD
  {
    CombineSteps(z, 4, crc0, crc1, crc2, crc3);
    l := Step4W(z, 0, crc0);
    l := Step4W(z, l, crc1);
    l := Step4W(z, l, crc2);
    l := Step4W(z, l, crc3);
  }

  lemma FourWords(data: Bytes, p: nat)
    requires p + 16 <= |data|
    ensures data[p..p + 4] + data[p + 4..p + 8] + data[p + 8..p + 12] + data[p + 12..p + 16] == data[p..p + 16]
  {
  }

  lemma SwathTaken(z: nat -> nat, crc: nat, data: Bytes, start: nat, p: nat, c0: nat, c1: nat, c2: nat, c3: nat,
                   d0: nat, d1: nat, d2: nat, d3: nat)
    requires IsShift(z) && start <= p && p + 16 <= |data| && StandFor(z, crc, data[start..p], c0, c1, c2, c3)
    requires d0 == Xor(Little(data[p..p + 4]), Zeros(z, 16, c0)) && d1 == Xor(Little(data[p + 4..p + 8]), Zeros(z, 16, c1))
    requires d2 == Xor(Little(data[p + 8..p + 12]), Zeros(z, 16, c2)) && d3 == Xor(Little(data[p + 12..p + 16]), Zeros(z, 16, c3))
    requires d0 < WORD && d1 < WORD && d2 < WORD && d3 < WORD
    ensures StandFor(z, crc, data[start..p + 16], d0, d1, d2, d3)
  {
    hide IsShift, StandFor, Little, Zeros, Xor, Run, Combined;
    FourWords(data, p);
    SwathFrom(z, crc, data[start..p], data[p..p + 4], data[p + 4..p + 8], data[p + 8..p + 12], data[p + 12..p + 16],
              c0, c1, c2, c3, d0, d1, d2, d3);
    assert data[start..p] + data[p..p + 16] == data[start..p + 16];
  }

  lemma SwathFrom(z: nat -> nat, crc: nat, done: Bytes, w0: Bytes, w1: Bytes, w2: Bytes, w3: Bytes,
                  c0: nat, c1: nat, c2: nat, c3: nat, d0: nat, d1: nat, d2: nat, d3: nat)
    requires IsShift(z) && StandFor(z, crc, done, c0, c1, c2, c3) && |w0| == 4 && |w1| == 4 && |w2| == 4 && |w3| == 4
    requires d0 == Xor(Little(w0), Zeros(z, 16, c0)) && d1 == Xor(Little(w1), Zeros(z, 16, c1))
    requires d2 == Xor(Little(w2), Zeros(z, 16, c2)) && d3 == Xor(Little(w3), Zeros(z, 16, c3))
    requires d0 < WORD && d1 < WORD && d2 < WORD && d3 < WORD
    ensures StandFor(z, crc, done + (w0 + w1 + w2 + w3), d0, d1, d2, d3)
  {
    hide IsShift, Little, Zeros, Xor, Combined, Run;
    SwathStep(z, 4, c0, c1, c2, c3, w0, w1, w2, w3);
    RunAppend(z, crc, done, w0 + w1 + w2 + w3);
  }

  lemma WordTaken(z: nat -> nat, crc: nat, data: Bytes, start: nat, p: nat, c0: nat, c1: nat, c2: nat, c3: nat)
    requires IsShift(z) && start <= p && p + 4 <= |data|
    requires Combined(z, 4, c0, c1, c2, c3) == Run(z, crc, data[start..p])
    ensures Combined(z, 4, c1, c2, c3, Xor(Little(data[p..p + 4]), Zeros(z, 16, c0))) == Run(z, crc, data[start..p + 4])
  {
    hide IsShift, Little, Zeros, Xor;
    WordStep(z, 4, c0, c1, c2, c3, data[p..p + 4]);
    RunAppend(z, crc, data[start..p], data[p..p + 4]);
    assert data[start..p] + data[p..p + 4] == data[start..p + 4];
  }

  /** Extend: bytes up to an aligned address, then sixteen bytes at a time in four
      registers, then words, then the last bytes. `z` on a byte is
      kByteExtensionTable, and Stride gives the other tables. */
  method Extend(z: nat -> nat, crc: nat, data: Bytes, address: nat) returns (r: nat)
    requires IsShift(z) && crc < WORD
    ensures r == Crc(z, crc, data) && r < WORD
  {
    WordXor(crc, CRC_XOR);
    var l := Xor(crc, CRC_XOR);
    ghost var l0 := l;
    var p := 0;
    var x := (4 - address % 4) % 4;
    if x <= |data| {
      l := Bytewise(z, l, data, 0, x);
      p := x;
    }
    assert l == Run(z, l0, data[..p]);
    if |data| - p >= 16 {
      var q;
      ghost var l1 := l;
      l, q := Interleaved(z, l, data, p);
      Onward(z, l0, data, p, q);
      p := q;
    }
    Onward(z, l0, data, p, |data|);
    l := Bytewise(z, l, data, p, |data|);
    assert data[..|data|] == data;
    WordXor(l, CRC_XOR);
    r := Xor(l, CRC_XOR);
  }

  lemma Onward(z: nat -> nat, r: nat, data: Bytes, p: nat, q: nat)
    requires p <= q <= |data|
    ensures Run(z, Run(z, r, data[..p]), data[p..q]) == Run(z, r, data[..q])
  {
    RunAppend(z, r, data[..p], data[p..q]);
    assert data[..p] + data[p..q] == data[..q];
  }

  // ----- CRC32C itself

  /** One step of the shift register of section 12.1 of RFC 3720. */
  function Bit(r: nat): nat {
    if r % 2 == 1 then Xor(r / 2, POLYNOMIAL) else r / 2
  }

  function Bits(n: nat, r: nat): nat
    decreases n, r
  {
    if n == 0 then r else Bit(Bits(n - 1, r))
  }

  /** Eight steps. */
  function ByteShift(r: nat): nat {
    Bits(8, r)
  }

  lemma BitLinear(a: nat, b: nat)
    ensures Bit(Xor(a, b)) == Xor(Bit(a), Bit(b))
  {
    var h, p := LowBit(a);
    var g, q := LowBit(b);
    BitLinearAt(h, p, g, q);
  }

  lemma BitLinearAt(h: nat, p: nat, g: nat, q: nat)
    requires p < 2 && q < 2
    ensures Bit(Xor(2 * h + p, 2 * g + q)) == Xor(Bit(2 * h + p), Bit(2 * g + q))
  {
    XorStep(h, p, g, q);
    FeedbackLinear(h, p, g, q, POLYNOMIAL);
    BitOf(h, p);
    BitOf(g, q);
    BitOf(Xor(h, g), if p == q then 0 else 1);
  }

  lemma BitOf(h: nat, p: nat)
    requires p < 2
    ensures Bit(2 * h + p) == if p == 1 then Xor(h, POLYNOMIAL) else h
  {
  }

  lemma FeedbackLinear(h: nat, p: nat, g: nat, q: nat, f: nat)
    requires p < 2 && q < 2
    ensures Xor(if p == 1 then Xor(h, f) else h, if q == 1 then Xor(g, f) else g) == if p == q then Xor(h, g) else Xor(Xor(h, g), f)
  {
    XorSwap(h, f, g, f);
    XorSelf(f);
    XorAssoc(h, f, g);
    XorComm(f, g);
    XorAssoc(h, g, f);
  }

  lemma {:induction false} BitsLinear(n: nat, a: nat, b: nat)
    ensures Bits(n, Xor(a, b)) == Xor(Bits(n, a), Bits(n, b))
  {
    if n > 0 {
      BitsLinear(n - 1, a, b);
      BitLinear(Bits(n - 1, a), Bits(n - 1, b));
    }
  }

  lemma {:induction false} BitsOfShifted(n: nat, k: nat, y: nat)
    requires n <= k
    ensures Bits(n, ShiftLeft(y, k)) == ShiftLeft(y, k - n)
  {
    if n > 0 {
      BitsOfShifted(n - 1, k, y);
    }
  }

  lemma {:induction false} BitsKeepWord(n: nat, r: nat)
    requires r < WORD
    ensures Bits(n, r) < WORD
  {
    if n > 0 {
      BitsKeepWord(n - 1, r);
      WordXor(Bits(n - 1, r) / 2, POLYNOMIAL);
    }
  }

  lemma ByteShiftIsShift()
    ensures IsShift(ByteShift)
  {
    forall a: nat, b: nat
      ensures ByteShift(Xor(a, b)) == Xor(ByteShift(a), ByteShift(b))
    {
      BitsLinear(8, a, b);
    }
    forall y: nat
      ensures ByteShift(256 * y) == y
    {
      BitsOfShifted(8, 8, y);
      Shift8(y);
    }
    forall r: nat | r < WORD
      ensures ByteShift(r) < WORD
    {
      BitsKeepWord(8, r);
    }
  }

  // ----- masking

  /** Rotates right by 15 bits and adds a constant, in 32 bits. */
  function Mask(crc: nat): (m: nat)
    requires crc < WORD
    ensures m < WORD
  {
    (crc / 0x8000 + crc % 0x8000 * 0x2_0000 + MASK_DELTA) % WORD
  }

  function Unmask(masked: nat): (crc: nat)
    requires masked < WORD
    ensures crc < WORD
  {
    var rot := (masked - MASK_DELTA) % WORD;
    rot / 0x2_0000 + rot % 0x2_0000 * 0x8000
  }

  lemma UnmaskOfMask(crc: nat)
    requires crc < WORD
    ensures Unmask(Mask(crc)) == crc
  {
    var high, low := crc / 0x8000, crc % 0x8000;
    var rot := high + low * 0x2_0000;
    assert high < 0x2_0000;
    AddedInWord(rot);
    assert rot / 0x2_0000 == low && rot % 0x2_0000 == high;
  }

  lemma AddedInWord(rot: nat)
    requires rot < WORD
    ensures ((rot + MASK_DELTA) % WORD - MASK_DELTA) % WORD == rot
  {
  }

  lemma MaskOfUnmask(masked: nat)
    requires masked < WORD
    ensures Mask(Unmask(masked)) == masked
  {
    var rot := (masked - MASK_DELTA) % WORD;
    var crc := rot / 0x2_0000 + rot % 0x2_0000 * 0x8000;
    assert crc / 0x8000 == rot % 0x2_0000 && crc % 0x8000 == rot / 0x2_0000;
  }

  /** A CRC is a 32-bit number. */
  lemma CrcIsWord(crc: nat, data: Bytes)
    requires crc < WORD
    ensures Crc(ByteShift, crc, data) < WORD
  {
    ByteShiftIsShift();
    WordXor(crc, CRC_XOR);
    RunIsWord(Xor(crc, CRC_XOR), data);
    WordXor(Run(ByteShift, Xor(crc, CRC_XOR), data), CRC_XOR);
  }

  lemma {:induction false} RunIsWord(r: nat, data: Bytes)
    requires r < WORD
    ensures Run(ByteShift, r, data) < WORD
  {
    if data != [] {
      ByteShiftIsShift();
      RunIsWord(r, data[..|data| - 1]);
      WordXor(Run(ByteShift, r, data[..|data| - 1]), data[|data| - 1]);
      KeepsWord(ByteShift, Xor(Run(ByteShift, r, data[..|data| - 1]), data[|data| - 1]));
    }
  }
}
