/** What CRC32C is: the remainder of a division of polynomials over GF(2), as section 12.1
    of RFC 3720 defines it. A number stands for the polynomial whose coefficients are its
    bits; adding polynomials is Xor. */
module CrcPolynomial {
  import opened Crc32c
  import opened Keys

  /** The generator of CRC32C, with x^32 as its highest bit. */
  const GENERATOR: nat := 0x1_1EDC_6F41

  const LOW_PART: nat := 0x1EDC_6F41

  const TOP: nat := 0x8000_0000

  const ONES: nat := 0xFFFF_FFFF

  // ----- polynomials

  function Times(q: nat, g: nat): nat {
    if q == 0 then 0 else Xor(2 * Times(q / 2, g), if q % 2 == 1 then g else 0)
  }

  /** `r` is of a lower degree than the generator, and a multiple of it away from `m`. */
  ghost predicate IsRemainder(m: nat, r: nat) {
    r < WORD && exists q: nat :: m == Xor(Times(q, GENERATOR), r)
  }

  /** Coefficients, the highest first. */
  function Poly(bits: seq<bool>): nat {
    if bits == [] then 0 else 2 * Poly(bits[..|bits| - 1]) + Num(bits[|bits| - 1])
  }

  function Num(b: bool): (n: nat)
    ensures n < 2
  {
    if b then 1 else 0
  }

  // ----- messages

  /** The bits of a byte, the lowest first. */
  function LowFirst(v: nat, n: nat): (bits: seq<bool>)
    ensures |bits| == n
    decreases n
  {
    if n == 0 then [] else [v % 2 == 1] + LowFirst(v / 2, n - 1)
  }

  /** A message as a polynomial: of each byte the lowest bit has the highest power. */
  function MessageBits(data: Bytes): seq<bool> {
    if data == [] then [] else LowFirst(data[0], 8) + MessageBits(data[1..])
  }

  function Flip(bits: seq<bool>): (r: seq<bool>)
    ensures |r| == |bits|
  {
    seq(|bits|, i requires 0 <= i < |bits| => !bits[i])
  }

  /** The message times x^32, with its first 32 bits complemented. */
  function Dividend(data: Bytes): nat {
    var bits := MessageBits(data) + Zero32();
    Poly(Flip(bits[..32]) + bits[32..])
  }

  function Zero32(): (z: seq<bool>)
    ensures |z| == 32
  {
    seq(32, _ => false)
  }

  /** A word with its bits in the opposite order. */
  function Reflect(x: nat, n: nat): nat
    decreases n
  {
    if n == 0 then 0 else ShiftLeft(x % 2, n - 1) + Reflect(x / 2, n - 1)
  }

  // ----- long division

  /** One step of long division: the next coefficient comes down. */
  function Divide(r: nat, b: bool): nat {
    var t := 2 * r + Num(b);
    if t >= WORD then Xor(t, GENERATOR) else t
  }

  function DivideAll(r: nat, bits: seq<bool>): nat {
    if bits == [] then r else Divide(DivideAll(r, bits[..|bits| - 1]), bits[|bits| - 1])
  }

  lemma {:induction false} ShiftFacts(k: nat)
    ensures ShiftLeft(0, k) == 0 && ShiftLeft(1, k) > 0 && ShiftLeft(1, k + 1) == 2 * ShiftLeft(1, k)
  {
    if k > 0 {
      ShiftFacts(k - 1);
    }
  }

  lemma Powers()
    ensures ShiftLeft(1, 31) == TOP && ShiftLeft(1, 32) == WORD
  {
    Shift8Words();
    assert ShiftLeft(1, 32) == 2 * ShiftLeft(1, 31);
  }

  lemma ShiftNext(a: nat, k: nat)
    ensures ShiftLeft(a, 0) == a && ShiftLeft(a, k + 1) == 2 * ShiftLeft(a, k)
  {
  }

  lemma XorIsZero(r: nat)
    ensures Xor(r, 0) == r && Xor(0, r) == r
  {
  }

  /** High bits and what is below them are added apart. */
  lemma {:induction false} XorParts(k: nat, x: nat, y: nat, c: nat, d: nat)
    requires x < ShiftLeft(1, k) && y < ShiftLeft(1, k)
    ensures Xor(x + ShiftLeft(c, k), y + ShiftLeft(d, k)) == Xor(x, y) + ShiftLeft(Xor(c, d), k)
    ensures Xor(x, y) < ShiftLeft(1, k)
  {
    hide Xor, ShiftLeft;
    if k == 0 {
      ShiftNext(1, 0);
      ShiftNext(c, 0);
      ShiftNext(d, 0);
      ShiftNext(Xor(c, d), 0);
      XorIsZero(0);
    } else {
      var h, p := LowBit(x);
      var g, q := LowBit(y);
      ShiftNext(1, k - 1);
      ShiftNext(c, k - 1);
      ShiftNext(d, k - 1);
      ShiftNext(Xor(c, d), k - 1);
      XorParts(k - 1, h, g, c, d);
      XorStep(h, p, g, q);
      XorStep(h + ShiftLeft(c, k - 1), p, g + ShiftLeft(d, k - 1), q);
    }
  }

  function TopBit(b: bool): nat {
    if b then TOP else 0
  }

  lemma TopBits(x: nat, y: nat, c: bool, d: bool)
    requires x < TOP && y < TOP
    ensures Xor(TopBit(c) + x, TopBit(d) + y) == TopBit(c != d) + Xor(x, y) && Xor(x, y) < TOP
  {
    hide Xor, ShiftLeft;
    Powers();
    ShiftedBit(c);
    ShiftedBit(d);
    ShiftedBit(c != d);
    OneBit(Num(c), Num(d));
    XorParts(31, x, y, Num(c), Num(d));
  }

  lemma Reduced(y: nat)
    requires y < WORD
    ensures Xor(WORD + y, GENERATOR) == Xor(y, LOW_PART) && Xor(y, LOW_PART) < WORD
  {
    hide Xor, ShiftLeft;
    Powers();
    ShiftNext(0, 31);
    ShiftFacts(32);
    XorSelf(1);
    XorParts(32, y, LOW_PART, 1, 1);
  }

  lemma DivideKeepsWord(r: nat, b: bool)
    requires r < WORD
    ensures Divide(r, b) < WORD
  {
    var t := 2 * r + Num(b);
    if t >= WORD {
      Reduced(t - WORD);
    }
  }

  lemma TimesStep(q: nat, b: bool, g: nat)
    ensures Times(2 * q + Num(b), g) == Xor(2 * Times(q, g), if b then g else 0)
  {
    hide Xor;
    XorIsZero(0);
    if q != 0 || b {
      assert (2 * q + Num(b)) / 2 == q && (2 * q + Num(b)) % 2 == Num(b);
    }
  }

  /** Long division gives the remainder. */
  lemma {:induction false} DivisionIsRight(bits: seq<bool>)
    ensures IsRemainder(Poly(bits), DivideAll(0, bits))
  {
    hide Xor, Times;
    if bits == [] {
      TimesNothing();
    } else {
      var init, b := bits[..|bits| - 1], bits[|bits| - 1];
      DivisionIsRight(init);
      var r := DivideAll(0, init);
      var q: nat :| Poly(init) == Xor(Times(q, GENERATOR), r);
      DivideKeepsWord(r, b);
      var reduce := 2 * r + Num(b) >= WORD;
      QuotientStep(q, r, b, reduce);
      assert Poly(bits) == Xor(Times(2 * q + Num(reduce), GENERATOR), DivideAll(0, bits));
    }
  }

  lemma TimesNothing()
    ensures Times(0, GENERATOR) == 0 && Xor(0, 0) == 0
  {
  }

  lemma QuotientStep(q: nat, r: nat, b: bool, reduce: bool)
    ensures 2 * Xor(Times(q, GENERATOR), r) + Num(b)
         == Xor(Times(2 * q + Num(reduce), GENERATOR), if reduce then Xor(2 * r + Num(b), GENERATOR) else 2 * r + Num(b))
  {
    hide Xor, Times;
    var m, t := Times(q, GENERATOR), 2 * r + Num(b);
    TimesStep(q, reduce, GENERATOR);
    XorStep(m, 0, r, Num(b));
    if reduce {
      XorAssoc(2 * m, GENERATOR, Xor(t, GENERATOR));
      XorComm(t, GENERATOR);
      XorAssoc(GENERATOR, GENERATOR, t);
      XorSelf(GENERATOR);
      XorIsZero(t);
    } else {
      XorIsZero(2 * m);
    }
  }

  // ----- there is one remainder

  lemma {:induction false} TimesAdds(a: nat, b: nat, g: nat)
    ensures Xor(Times(a, g), Times(b, g)) == Times(Xor(a, b), g)
    decreases a + b
  {
    hide Xor;
    XorIsZero(Times(a, g));
    XorIsZero(Times(b, g));
    XorIsZero(a);
    XorIsZero(b);
    if a != 0 && b != 0 {
      hide Times;
      var h, p := LowBit(a);
      var k, q := LowBit(b);
      TimesAdds(h, k, g);
      TimesAddsStep(h, p == 1, k, q == 1, g);
    }
  }

  lemma TimesAddsStep(h: nat, p: bool, k: nat, q: bool, g: nat)
    requires Xor(Times(h, g), Times(k, g)) == Times(Xor(h, k), g)
    ensures Xor(Times(2 * h + Num(p), g), Times(2 * k + Num(q), g)) == Times(Xor(2 * h + Num(p), 2 * k + Num(q)), g)
  {
    hide Times, Xor;
    TimesStep(h, p, g);
    TimesStep(k, q, g);
    TimesStep(Xor(h, k), p != q, g);
    XorStep(h, Num(p), k, Num(q));
    XorStep(Times(h, g), 0, Times(k, g), 0);
    XorSwap(2 * Times(h, g), if p then g else 0, 2 * Times(k, g), if q then g else 0);
    XorSelf(g);
    XorIsZero(g);
    XorIsZero(0);
  }

  /** A multiple of the generator other than 0 is not of a lower degree. */
  lemma {:induction false} TimesIsBig(q: nat)
    requires q > 0
    ensures Times(q, GENERATOR) >= WORD
  {
    var h, b := LowBit(q);
    TimesStep(h, b == 1, GENERATOR);
    hide Times;
    if h == 0 {
      TimesNothing();
    } else {
      TimesIsBig(h);
      Powers();
      ShiftFacts(32);
      BigStaysBig(33, 2 * Times(h, GENERATOR), if b == 1 then GENERATOR else 0);
    }
  }

  lemma {:induction false} BigStaysBig(k: nat, a: nat, b: nat)
    requires b < ShiftLeft(1, k) <= a
    ensures Xor(a, b) >= ShiftLeft(1, k)
    decreases k
  {
    if k > 0 {
      var h, p := LowBit(a);
      var g, q := LowBit(b);
      BigStaysBig(k - 1, h, g);
      XorStep(h, p, g, q);
    }
  }

  lemma RemainderIsUnique(m: nat, r: nat, r': nat)
    requires IsRemainder(m, r) && IsRemainder(m, r')
    ensures r == r'
  {
    hide Xor, Times;
    var q: nat :| m == Xor(Times(q, GENERATOR), r);
    var q': nat :| m == Xor(Times(q', GENERATOR), r');
    TimesAdds(q, q', GENERATOR);
    Difference(Times(q, GENERATOR), r, Times(q', GENERATOR), r');
    WordXor(r, r');
    if Xor(q, q') > 0 {
      TimesIsBig(Xor(q, q'));
    }
    TimesNothing();
    XorZero(r, r');
  }

  /** What two quotients differ by, their remainders differ by. */
  lemma Difference(a: nat, r: nat, b: nat, r': nat)
    requires Xor(a, r) == Xor(b, r')
    ensures Xor(a, b) == Xor(r, r')
  {
    XorSwap(a, r, b, r');
    XorSelf(Xor(a, r));
    XorZero(Xor(a, b), Xor(r, r'));
  }

  lemma XorZero(a: nat, b: nat)
    requires Xor(a, b) == 0
    ensures a == b
  {
    XorTwice(a, b);
    assert Xor(0, b) == b;
  }

  // ----- the shift register, bits in the order of the polynomial

  /** The register of the standard: it takes in the next bit at its high end. */
  function Register(r: nat, b: bool): nat {
    var t := 2 * (r % TOP);
    if (r >= TOP) != b then Xor(t, LOW_PART) else t
  }

  function RegisterAll(r: nat, bits: seq<bool>): nat
    decreases |bits|
  {
    if bits == [] then r else RegisterAll(Register(r, bits[0]), bits[1..])
  }

  /** A step of the register that holds 32 coefficients to come is a step of long division. */
  lemma RegisterDivides(r: nat, b: bool, v: nat, n: bool)
    requires r < WORD && v < TOP
    ensures Register(r, b) < WORD
    ensures Divide(Xor(r, TopBit(b) + v), n) == Xor(Register(r, b), 2 * v + Num(n))
  {
    hide Xor, Divide, Register;
    var c, rho := r >= TOP, r % TOP;
    assert r == TopBit(c) + rho;
    TopBits(rho, v, c, b);
    DivideParts(c != b, Xor(rho, v), n);
    RegisterParts(c, rho, b);
    XorStep(rho, 0, v, Num(n));
    XorLast(2 * rho, 2 * v + Num(n), LOW_PART);
  }

  lemma RegisterParts(c: bool, rho: nat, b: bool)
    requires rho < TOP
    ensures Register(TopBit(c) + rho, b) == if c != b then Xor(2 * rho, LOW_PART) else 2 * rho
    ensures Register(TopBit(c) + rho, b) < WORD
  {
    hide Xor;
    WordXor(2 * rho, LOW_PART);
  }

  lemma DivideParts(top: bool, x: nat, n: bool)
    requires x < TOP
    ensures Divide(TopBit(top) + x, n) == if top then Xor(2 * x + Num(n), LOW_PART) else 2 * x + Num(n)
  {
    hide Xor;
    Reduced(2 * x + Num(n));
  }

  lemma XorLast(a: nat, b: nat, c: nat)
    ensures Xor(Xor(a, b), c) == Xor(Xor(a, c), b)
  {
    XorAssoc(a, b, c);
    XorComm(b, c);
    XorAssoc(a, c, b);
  }

  lemma {:induction false} PolyFits(bits: seq<bool>)
    ensures Poly(bits) < ShiftLeft(1, |bits|)
  {
    if bits != [] {
      PolyFits(bits[..|bits| - 1]);
      ShiftFacts(|bits| - 1);
    }
  }

  lemma {:induction false} PolyFirst(b: bool, bits: seq<bool>)
    ensures Poly([b] + bits) == ShiftLeft(Num(b), |bits|) + Poly(bits)
  {
    var all := [b] + bits;
    if bits == [] {
      assert all[..0] == [];
    } else {
      PolyFirst(b, bits[..|bits| - 1]);
      ShiftFacts(|bits| - 1);
      assert all[..|all| - 1] == [b] + bits[..|bits| - 1];
    }
  }

  lemma {:induction false} DivideFirst(r: nat, bits: seq<bool>)
    requires bits != []
    ensures DivideAll(r, bits) == DivideAll(Divide(r, bits[0]), bits[1..])
  {
    hide Divide;
    var init, last := bits[..|bits| - 1], bits[|bits| - 1];
    if |bits| == 1 {
      assert init == [] && bits[1..] == [];
    } else {
      DivideFirst(r, init);
      assert init[1..] == bits[1..][..|bits| - 2];
    }
  }

  /** Shifting a message through the register is dividing what the register and the
      message, with 32 zeros behind it, make together. */
  lemma {:induction false} RegisterIsDivision(r: nat, bits: seq<bool>)
    requires r < WORD
    ensures var all := bits + Zero32(); RegisterAll(r, bits) == DivideAll(Xor(r, Poly(all[..32])), all[32..])
    decreases |bits|
  {
    hide Xor, Divide, DivideAll, Register, Poly, Zero32;
    var all := bits + Zero32();
    if bits == [] {
      NothingToDivide(r);
      assert all == Zero32() && all[..32] == Zero32() && all[32..] == [];
    } else {
      var b, next := bits[0], bits[1..] + Zero32();
      var v := all[1..32];
      assert all[1..] == next && all[..32] == [b] + v && next[..31] == v && next[..32] == v + [next[31]];
      assert all[32..][0] == next[31] && all[32..][1..] == next[32..];
      PolyFirst(b, v);
      PolyFits(v);
      Powers();
      ShiftedBit(b);
      RegisterDivides(r, b, Poly(v), next[31]);
      PolyLast(v, next[31]);
      DivideFirst(Xor(r, Poly(all[..32])), all[32..]);
      RegisterIsDivision(Register(r, b), bits[1..]);
    }
  }

  lemma ShiftedBit(b: bool)
    ensures ShiftLeft(Num(b), 31) == TopBit(b)
  {
    Powers();
    ShiftFacts(31);
  }

  lemma PolyLast(v: seq<bool>, b: bool)
    ensures Poly(v + [b]) == 2 * Poly(v) + Num(b)
  {
    assert (v + [b])[..|v|] == v;
  }

  lemma NothingToDivide(r: nat)
    ensures DivideAll(Xor(r, Poly(Zero32())), []) == r
  {
    ZeroIsZero(32);
    assert Zero32() == seq(32, _ => false);
  }

  lemma {:induction false} ZeroIsZero(n: nat)
    ensures Poly(seq(n, _ => false)) == 0
  {
    if n > 0 {
      ZeroIsZero(n - 1);
      assert seq(n, _ => false)[..n - 1] == seq(n - 1, _ => false);
    }
  }

  // ----- the first 32 coefficients

  /** A dividend of a lower degree is its own remainder. */
  lemma {:induction false} ShortIsKept(bits: seq<bool>)
    requires |bits| <= 32
    ensures DivideAll(0, bits) == Poly(bits) && Poly(bits) < WORD
  {
    if bits != [] {
      ShortIsKept(bits[..|bits| - 1]);
      PolyFits(bits);
      ShiftGrows(|bits|, 32);
      Powers();
    }
  }

  lemma {:induction false} ShiftGrows(k: nat, n: nat)
    requires k <= n
    ensures ShiftLeft(1, k) <= ShiftLeft(1, n)
    decreases n
  {
    if k < n {
      ShiftGrows(k, n - 1);
    }
  }

  lemma {:induction false} DivideAppend(r: nat, a: seq<bool>, b: seq<bool>)
    ensures DivideAll(r, a + b) == DivideAll(DivideAll(r, a), b)
  {
    hide Divide;
    if b == [] {
      assert a + b == a;
    } else {
      DivideAppend(r, a, b[..|b| - 1]);
      assert (a + b)[..|a + b| - 1] == a + b[..|b| - 1];
    }
  }

  /** Complementing coefficients adds all of them. */
  lemma {:induction false} FlipIsXor(bits: seq<bool>)
    ensures ShiftLeft(1, |bits|) > 0 && Poly(Flip(bits)) == Xor(ShiftLeft(1, |bits|) - 1, Poly(bits))
  {
    hide Xor, ShiftLeft;
    ShiftFacts(|bits|);
    ShiftNext(1, 0);
    if bits == [] {
      XorIsZero(0);
    } else {
      var init, b := bits[..|bits| - 1], bits[|bits| - 1];
      FlipIsXor(init);
      ShiftNext(1, |init|);
      assert Flip(bits)[..|bits| - 1] == Flip(init);
      XorStep(ShiftLeft(1, |init|) - 1, 1, Poly(init), Num(b));
    }
  }

  /** The register, started with ones, ends with the remainder of the dividend. */
  lemma OnesComplement(bits: seq<bool>)
    ensures var all := bits + Zero32(); RegisterAll(ONES, bits) == DivideAll(0, Flip(all[..32]) + all[32..])
  {
    var all := bits + Zero32();
    Powers();
    hide Xor, Divide, DivideAll, Register, Poly, Zero32;
    RegisterIsDivision(ONES, bits);
    FlipIsXor(all[..32]);
    ShortIsKept(Flip(all[..32]));
    DivideAppend(0, Flip(all[..32]), all[32..]);
  }

  // ----- the reflected register of the source

  lemma {:induction false} ReflectFits(x: nat, n: nat)
    ensures Reflect(x, n) < ShiftLeft(1, n)
  {
    if n > 0 {
      ReflectFits(x / 2, n - 1);
      ShiftFacts(n - 1);
    }
  }

  lemma {:induction false} ReflectAdds(a: nat, b: nat, n: nat)
    ensures Reflect(Xor(a, b), n) == Xor(Reflect(a, n), Reflect(b, n))
    decreases n
  {
    if n == 0 {
      XorIsZero(0);
    } else {
      hide Xor, Reflect;
      var h, p := LowBit(a);
      var g, q := LowBit(b);
      ReflectAdds(h, g, n - 1);
      ReflectAddsStep(h, p, g, q, n - 1);
    }
  }

  lemma ReflectAddsStep(h: nat, p: nat, g: nat, q: nat, n: nat)
    requires p < 2 && q < 2 && Reflect(Xor(h, g), n) == Xor(Reflect(h, n), Reflect(g, n))
    ensures Reflect(Xor(2 * h + p, 2 * g + q), n + 1) == Xor(Reflect(2 * h + p, n + 1), Reflect(2 * g + q, n + 1))
  {
    hide Xor, Reflect, ShiftLeft;
    XorStep(h, p, g, q);
    ReflectFits(h, n);
    ReflectFits(g, n);
    XorParts(n, Reflect(h, n), Reflect(g, n), p, q);
    OneBit(p, q);
    ReflectNext(h, p, n);
    ReflectNext(g, q, n);
    ReflectNext(Xor(h, g), Xor(p, q), n);
  }

  lemma ReflectNext(h: nat, p: nat, n: nat)
    requires p < 2
    ensures Reflect(2 * h + p, n + 1) == Reflect(h, n) + ShiftLeft(p, n)
  {
  }

  lemma OneBit(p: nat, q: nat)
    requires p < 2 && q < 2
    ensures Xor(p, q) == if p == q then 0 else 1
  {
    hide Xor;
    XorStep(0, p, 0, q);
    XorIsZero(0);
  }

  /** One more place for a number that leaves it empty moves everything up. */
  lemma {:induction false} ReflectWider(x: nat, n: nat)
    requires x < ShiftLeft(1, n)
    ensures Reflect(x, n + 1) == 2 * Reflect(x, n)
    decreases n
  {
    if n > 0 {
      ReflectWider(x / 2, n - 1);
      assert ShiftLeft(x % 2, n) == 2 * ShiftLeft(x % 2, n - 1);
    } else {
      assert Reflect(0, 0) == 0 && ShiftLeft(0, 0) == 0;
    }
  }

  lemma ReflectNone(x: nat)
    ensures Reflect(x, 0) == 0
  {
  }

  /** Low bits end up above high ones. */
  lemma {:induction false} ReflectParts(x: nat, y: nat, m: nat, n: nat)
    requires x < ShiftLeft(1, m)
    ensures Reflect(x + ShiftLeft(y, m), m + n) == ShiftLeft(Reflect(x, m), n) + Reflect(y, n)
    decreases m
  {
    hide Reflect, ShiftLeft;
    if m == 0 {
      ShiftNext(1, 0);
      ShiftNext(y, 0);
      ShiftFacts(n);
      ReflectNone(0);
    } else {
      var h, p := LowBit(x);
      ShiftNext(1, m - 1);
      ShiftNext(y, m - 1);
      ReflectParts(h, y, m - 1, n);
      ReflectNext(h + ShiftLeft(y, m - 1), p, m - 1 + n);
      ReflectNext(h, p, m - 1);
      ShiftSum(Reflect(h, m - 1), ShiftLeft(p, m - 1), n);
      ShiftLeftAdd(p, m - 1, n);
    }
  }

  lemma {:induction false} ShiftSum(a: nat, b: nat, n: nat)
    ensures ShiftLeft(a + b, n) == ShiftLeft(a, n) + ShiftLeft(b, n)
  {
    if n > 0 {
      ShiftSum(a, b, n - 1);
    }
  }

  lemma Shift16(a: nat)
    ensures ShiftLeft(a, 16) == 0x1_0000 * a
  {
    ShiftLeftAdd(a, 8, 8);
    Shift8(a);
    Shift8(256 * a);
  }

  lemma Shift24(a: nat)
    ensures ShiftLeft(a, 24) == 0x100_0000 * a
  {
    ShiftLeftAdd(a, 16, 8);
    Shift16(a);
    Shift8(0x1_0000 * a);
  }

  lemma SmallShifts(p: nat)
    ensures ShiftLeft(p, 0) == p && ShiftLeft(p, 1) == 2 * p && ShiftLeft(p, 2) == 4 * p && ShiftLeft(p, 3) == 8 * p
  {
    assert ShiftLeft(p, 1) == 2 * ShiftLeft(p, 0);
    assert ShiftLeft(p, 2) == 2 * ShiftLeft(p, 1);
    assert ShiftLeft(p, 3) == 2 * ShiftLeft(p, 2);
  }

  lemma ReflectedNibbles()
    ensures Reflect(0x8, 4) == 0x1 && Reflect(0x7, 4) == 0xE && Reflect(0xb, 4) == 0xD && Reflect(0x3, 4) == 0xC
    ensures Reflect(0x6, 4) == 0x6 && Reflect(0xf, 4) == 0xF && Reflect(0x2, 4) == 0x4
  {
    hide ShiftLeft;
    SmallShifts(0);
    SmallShifts(1);
  }

  /** A byte from its halves. */
  lemma ReflectedByte(low: nat, high: nat)
    requires low < 16
    ensures Reflect(low + 16 * high, 8) == 16 * Reflect(low, 4) + Reflect(high, 4)
  {
    hide Reflect, ShiftLeft;
    Shift4(1);
    Shift4(high);
    Shift4(Reflect(low, 4));
    ReflectParts(low, high, 4, 4);
  }

  lemma ReflectedBytes()
    ensures Reflect(0x78, 8) == 0x1E && Reflect(0x3b, 8) == 0xDC && Reflect(0xf6, 8) == 0x6F && Reflect(0x82, 8) == 0x41
  {
    hide Reflect;
    ReflectedNibbles();
    ReflectedByte(0x8, 0x7);
    ReflectedByte(0xb, 0x3);
    ReflectedByte(0x6, 0xf);
    ReflectedByte(0x2, 0x8);
  }

  /** The source's polynomial is the generator without x^32, reflected. */
  lemma PolynomialIsReflected()
    ensures Reflect(POLYNOMIAL, 32) == LOW_PART
  {
    hide Reflect, ShiftLeft;
    ReflectedBytes();
    Shift8(1);
    Shift8(0x82_f63b);
    Shift8(0x82f6);
    Shift8(0x82);
    Shift24(0x1E);
    Shift16(0xDC);
    Shift8(0x6F);
    ReflectParts(0x78, 0x82_f63b, 8, 24);
    ReflectParts(0x3b, 0x82f6, 8, 16);
    ReflectParts(0xf6, 0x82, 8, 8);
  }

  // ----- the register of the source is the register of the standard, reflected

  function SourceStep(r: nat, b: bool): nat {
    Bit(Xor(r, Num(b)))
  }

  function SourceSteps(r: nat, bits: seq<bool>): nat
    decreases |bits|
  {
    if bits == [] then r else SourceSteps(SourceStep(r, bits[0]), bits[1..])
  }

  lemma {:induction false} BitsFirst(n: nat, r: nat)
    ensures Bits(n + 1, r) == Bits(n, Bit(r))
  {
    hide Bit;
    if n > 0 {
      BitsFirst(n - 1, r);
    }
  }

  /** Bits that are added together are shifted through one by one. */
  lemma {:induction false} ShiftsThrough(r: nat, v: nat, n: nat)
    requires v < ShiftLeft(1, n)
    ensures Bits(n, Xor(r, v)) == SourceSteps(r, LowFirst(v, n))
    decreases n
  {
    hide Xor, Bit, SourceStep;
    if n == 0 {
      ShiftNext(1, 0);
      XorIsZero(r);
    } else {
      var h, p := LowBit(v);
      ShiftNext(1, n - 1);
      ShiftsThrough(SourceStep(r, p == 1), h, n - 1);
      BitsFirst(n - 1, Xor(r, v));
      OneThrough(r, h, p == 1);
      assert LowFirst(v, n) == [p == 1] + LowFirst(h, n - 1);
      assert LowFirst(v, n)[1..] == LowFirst(h, n - 1);
    }
  }

  lemma OneThrough(r: nat, h: nat, b: bool)
    ensures Bit(Xor(r, 2 * h + Num(b))) == Xor(SourceStep(r, b), h)
  {
    hide Xor, Bit;
    XorStep(h, 0, 0, Num(b));
    XorIsZero(h);
    XorAssoc(r, 2 * h, Num(b));
    XorAssoc(r, Num(b), 2 * h);
    XorComm(2 * h, Num(b));
    BitLinear(Xor(r, Num(b)), 2 * h);
    BitOf(h, 0);
  }

  /** The source's computation over a string is its register over the message's bits. */
  lemma {:induction false} RunIsSteps(r: nat, data: Bytes)
    ensures Run(ByteShift, r, data) == SourceSteps(r, MessageBits(data))
    decreases |data|
  {
    hide Bit, Xor;
    if data == [] {
      RunNothing(ByteShift, r);
    } else {
      Shift8(1);
      ShiftsThrough(r, data[0], 8);
      RunFirst(ByteShift, r, data);
      RunIsSteps(ByteShift(Xor(r, data[0])), data[1..]);
      StepsAppend(r, LowFirst(data[0], 8), MessageBits(data[1..]));
    }
  }

  lemma {:induction false} StepsAppend(r: nat, a: seq<bool>, b: seq<bool>)
    ensures SourceSteps(r, a + b) == SourceSteps(SourceSteps(r, a), b)
    decreases |a|
  {
    hide SourceStep;
    if a == [] {
      assert a + b == b;
    } else {
      StepsAppend(SourceStep(r, a[0]), a[1..], b);
      assert (a + b)[1..] == a[1..] + b;
    }
  }

  lemma StepReflects(r: nat, b: bool)
    requires r < WORD
    ensures SourceStep(r, b) < WORD
    ensures Reflect(SourceStep(r, b), 32) == Register(Reflect(r, 32), b)
  {
    hide Xor, Reflect, ShiftLeft, Bit, Register;
    var h, p := LowBit(r);
    HalfReflects(h, p == 1);
    StepIs(h, p == 1, b);
    WordXor(h, POLYNOMIAL);
    ReflectAdds(h, POLYNOMIAL, 32);
    PolynomialIsReflected();
    RegisterParts(p == 1, Reflect(h, 31), b);
  }

  lemma StepIs(h: nat, p: bool, b: bool)
    ensures SourceStep(2 * h + Num(p), b) == if p != b then Xor(h, POLYNOMIAL) else h
  {
    XorStep(h, Num(p), 0, Num(b));
    XorIsZero(h);
    BitOf(h, if p == b then 0 else 1);
  }

  lemma HalfReflects(h: nat, p: bool)
    requires h < TOP
    ensures Reflect(2 * h + Num(p), 32) == TopBit(p) + Reflect(h, 31)
    ensures Reflect(h, 32) == 2 * Reflect(h, 31) && Reflect(h, 31) < TOP
  {
    Powers();
    ReflectNext(h, Num(p), 31);
    ReflectWider(h, 31);
    ReflectFits(h, 31);
    ShiftedBit(p);
  }

  lemma {:induction false} StepsReflect(r: nat, bits: seq<bool>)
    requires r < WORD
    ensures SourceSteps(r, bits) < WORD
    ensures Reflect(SourceSteps(r, bits), 32) == RegisterAll(Reflect(r, 32), bits)
    decreases |bits|
  {
    hide Reflect, SourceStep, Register;
    if bits != [] {
      StepReflects(r, bits[0]);
      StepsReflect(SourceStep(r, bits[0]), bits[1..]);
    }
  }

  lemma {:induction false} OnesReflected(n: nat)
    ensures ShiftLeft(1, n) > 0 && Reflect(ShiftLeft(1, n) - 1, n) == ShiftLeft(1, n) - 1
  {
    if n > 0 {
      OnesReflected(n - 1);
      ReflectNext(ShiftLeft(1, n - 1) - 1, 1, n - 1);
    }
  }

  lemma {:induction false} Complement(n: nat, x: nat)
    requires x < ShiftLeft(1, n)
    ensures Xor(x, ShiftLeft(1, n) - 1) == ShiftLeft(1, n) - 1 - x
    decreases n
  {
    hide Xor, ShiftLeft;
    ShiftNext(1, 0);
    if n == 0 {
      XorIsZero(0);
    } else {
      var h, p := LowBit(x);
      ShiftNext(1, n - 1);
      Complement(n - 1, h);
      XorStep(h, p, ShiftLeft(1, n - 1) - 1, 1);
    }
  }

  /** The CRC that Extend computes over a string, with its bits reflected, is the
      complement of the remainder of the message's polynomial: the message times x^32,
      its first 32 bits complemented, divided by the generator. */
  lemma CrcIsRemainder(data: Bytes)
    ensures Crc(ByteShift, 0, data) < WORD && Reflect(Crc(ByteShift, 0, data), 32) <= ONES
    ensures IsRemainder(Dividend(data), ONES - Reflect(Crc(ByteShift, 0, data), 32))
  {
    var bits := MessageBits(data);
    var all := bits + Zero32();
    var x := Run(ByteShift, ONES, data);
    RunIsSteps(ONES, data);
    StepsReflect(ONES, bits);
    Powers();
    OnesReflected(32);
    OnesComplement(bits);
    DivisionIsRight(Flip(all[..32]) + all[32..]);
    ReflectAdds(x, ONES, 32);
    ReflectFits(x, 32);
    Complement(32, Reflect(x, 32));
    WordXor(x, ONES);
    assert Xor(0, CRC_XOR) == ONES;
  }
}
