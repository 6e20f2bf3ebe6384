/** Single bits of a word. */
module Bits {
  import opened Coding

  /** `b & (1 << k)`. */
  predicate HasBit(b: nat, k: nat)
    decreases k
  {
    if k == 0 then b % 2 == 1 else HasBit(b / 2, k - 1)
  }

  /** `b | (1 << k)`. */
  function WithBit(b: nat, k: nat): nat
    decreases k
  {
    if k == 0 then b / 2 * 2 + 1 else 2 * WithBit(b / 2, k - 1) + b % 2
  }

  lemma {:induction false} WithBitHas(b: nat, k: nat, j: nat)
    ensures HasBit(WithBit(b, k), j) <==> j == k || HasBit(b, j)
    decreases k
  {
    if k > 0 && j > 0 {
      WithBitHas(b / 2, k - 1, j - 1);
      assert WithBit(b, k) / 2 == WithBit(b / 2, k - 1);
    } else if k == 0 && j > 0 {
      assert WithBit(b, k) / 2 == b / 2;
    }
  }

  lemma {:induction false} WithBitFits(b: nat, k: nat, n: nat)
    requires k < n && b < Pow(2, n)
    ensures WithBit(b, k) < Pow(2, n)
    decreases k
  {
    assert b / 2 < Pow(2, n - 1);
    if k > 0 {
      WithBitFits(b / 2, k - 1, n - 1);
    }
  }

  /** `a | b`. */
  function Or(a: nat, b: nat): nat
    decreases a + b
  {
    if a == 0 && b == 0 then 0 else 2 * Or(a / 2, b / 2) + (if a % 2 == 1 || b % 2 == 1 then 1 else 0)
  }

  lemma {:induction false} OrZero(a: nat)
    ensures Or(a, 0) == a && Or(0, a) == a
  {
    if a > 0 {
      OrZero(a / 2);
    }
  }

  lemma {:induction false} OrHas(a: nat, b: nat, k: nat)
    ensures HasBit(Or(a, b), k) <==> HasBit(a, k) || HasBit(b, k)
    decreases k
  {
    if k > 0 {
      OrHas(a / 2, b / 2, k - 1);
      ZeroHasNone(k - 1);
      assert Or(a, b) / 2 == if a == 0 && b == 0 then 0 else Or(a / 2, b / 2);
    }
  }

  lemma OrAssoc(a: nat, b: nat, c: nat)
    ensures Or(Or(a, b), c) == Or(a, Or(b, c))
  {
    hide HasBit, Or;
    forall k: nat
      ensures HasBit(Or(Or(a, b), c), k) == HasBit(Or(a, Or(b, c)), k)
    {
      OrHas(Or(a, b), c, k);
      OrHas(a, b, k);
      OrHas(a, Or(b, c), k);
      OrHas(b, c, k);
    }
    BitsDecide(Or(Or(a, b), c), Or(a, Or(b, c)));
  }

  /** Every bit of the one is a bit of the other. */
  ghost predicate Within(b: nat, a: nat) {
    forall k: nat :: HasBit(b, k) ==> HasBit(a, k)
  }

  /** A number gains nothing from another if and only if it has its bits. */
  lemma OrSame(a: nat, b: nat)
    ensures Or(a, b) == a <==> Within(b, a)
  {
    hide Or;
    forall k: nat
      ensures HasBit(Or(a, b), k) <==> HasBit(a, k) || HasBit(b, k)
    {
      OrHas(a, b, k);
    }
    if Within(b, a) {
      BitsDecide(Or(a, b), a);
    }
  }

  lemma {:induction false} OrBound(a: nat, b: nat, n: nat)
    requires a < Pow(2, n) && b < Pow(2, n)
    ensures Or(a, b) < Pow(2, n)
    decreases n
  {
    if n > 0 {
      OrBound(a / 2, b / 2, n - 1);
    }
  }

  /** `b << n`. */
  lemma {:induction false} ShiftedHas(b: nat, n: nat, k: nat)
    ensures HasBit(b * Pow(2, n), k) <==> n <= k && HasBit(b, k - n)
    decreases n
  {
    if n > 0 {
      var c := b * Pow(2, n - 1);
      assert b * Pow(2, n) == 2 * c;
      if k > 0 {
        ShiftedHas(b, n - 1, k - 1);
      }
    }
  }

  /** The lowest `n` bits. */
  lemma {:induction false} LowHas(b: nat, n: nat, k: nat)
    ensures Pow(2, n) > 0 && (HasBit(b % Pow(2, n), k) <==> k < n && HasBit(b, k))
    decreases n
  {
    PowIsPositive(n);
    if n == 0 {
      ZeroHasNone(k);
    } else {
      assert Pow(2, n) == 2 * Pow(2, n - 1);
      hide Pow;
      LowHas(b / 2, n - 1, if k > 0 then k - 1 else 0);
      LowOfHalf(b, Pow(2, n - 1));
      BitOfHalf(b % Pow(2, n), b / 2 % Pow(2, n - 1), b % 2, k);
      BitOfHalf(b, b / 2, b % 2, k);
    }
  }

  lemma BitOfHalf(x: nat, h: nat, p: nat, k: nat)
    requires x == 2 * h + p && p < 2
    ensures HasBit(x, k) <==> if k == 0 then p == 1 else HasBit(h, k - 1)
  {
  }

  lemma LowOfHalf(b: nat, m: nat)
    requires m > 0
    ensures b % (2 * m) == 2 * (b / 2 % m) + b % 2
  {
    var q, r := b / 2 / m, b / 2 % m;
    assert b / 2 == m * q + r;
    assert b == 2 * m * q + (2 * r + b % 2);
    assert 2 * m * q == q * (2 * m);
    RemainderIs(b, q, 2 * m, 2 * r + b % 2);
  }

  /** The highest bit of a word. */
  lemma {:induction false} HighBit(b: nat, n: nat)
    requires b < Pow(2, n + 1)
    ensures HasBit(b, n) <==> b >= Pow(2, n)
    decreases n
  {
    if n > 0 {
      assert Pow(2, n + 1) == 2 * Pow(2, n) && Pow(2, n) == 2 * Pow(2, n - 1);
      HighBit(b / 2, n - 1);
    }
  }

  /** Bits put in above all others are added. */
  lemma {:induction false} OrApart(a: nat, b: nat, k: nat)
    requires a < Pow(2, k)
    ensures Or(a, b * Pow(2, k)) == a + b * Pow(2, k)
    decreases k
  {
    if k == 0 {
      OrZero(b);
    } else {
      var c := b * Pow(2, k - 1);
      assert b * Pow(2, k) == 2 * c;
      OrApart(a / 2, b, k - 1);
    }
  }

  lemma Pow2()
    ensures Pow(2, 8) == 256 && Pow(2, 32) == 0x1_0000_0000
  {
    assert Pow(2, 4) == 16;
    assert Pow(2, 16) == 65536;
    assert Pow(2, 24) == 0x100_0000;
  }

  lemma {:induction false} ZeroHasNone(k: nat)
    ensures !HasBit(0, k)
    decreases k
  {
    if k > 0 {
      ZeroHasNone(k - 1);
    }
  }

  /** The word with the lowest `n` bits set has just those. */
  lemma {:induction false} LowBits(n: nat, k: nat)
    ensures Pow(2, n) > 0 && (HasBit(Pow(2, n) - 1, k) <==> k < n)
    decreases n
  {
    PowIsPositive(n);
    if n == 0 {
      ZeroHasNone(k);
    } else {
      LowBits(n - 1, if k == 0 then 0 else k - 1);
      assert (Pow(2, n) - 1) / 2 == Pow(2, n - 1) - 1 && (Pow(2, n) - 1) % 2 == 1;
    }
  }

  lemma {:induction false} PowIsPositive(n: nat)
    ensures Pow(2, n) > 0
  {
    if n > 0 {
      PowIsPositive(n - 1);
    }
  }

  /** A word is told by its bits. */
  lemma {:induction false} BitsDecide(a: nat, b: nat)
    requires forall k: nat :: HasBit(a, k) == HasBit(b, k)
    ensures a == b
    decreases a + b
  {
    assert HasBit(a, 0) == HasBit(b, 0);
    forall k: nat
      ensures HasBit(a / 2, k) == HasBit(b / 2, k)
    {
      assert HasBit(a, k + 1) == HasBit(b, k + 1);
    }
    if a > 0 || b > 0 {
      BitsDecide(a / 2, b / 2);
    }
  }

  /** The lowest `n` bits are set and no other. */
  ghost predicate JustBits(a: nat, n: nat) {
    forall k: nat :: HasBit(a, k) <==> k < n
  }

  lemma IsLowBits(a: nat, n: nat)
    ensures Pow(2, n) > 0 && (a == Pow(2, n) - 1 <==> JustBits(a, n))
  {
    hide HasBit;
    LowBits(n, 0);
    var m := Pow(2, n) - 1;
    forall k: nat
      ensures HasBit(m, k) <==> k < n
    {
      LowBits(n, k);
    }
    assert JustBits(m, n);
    if JustBits(a, n) {
      forall k: nat
        ensures HasBit(a, k) == HasBit(m, k)
      {
      }
      BitsDecide(a, m);
    }
  }
}
