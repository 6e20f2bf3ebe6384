/** The Bloom filter policy (`util/bloom.cc`): a filter never misses a key it was made from. */
module Bloom {
  import opened Bits
  import opened Keys

  /** The hash of a key, the bits spent on each key, and the number of probes. */
  datatype Policy = Policy(hash: Bytes -> nat, bitsPerKey: nat, probes: Byte)

  const WORD: nat := 0x1_0000_0000

  predicate IsPolicy(p: Policy) {
    1 <= p.probes <= 30
  }

  // ----- bits

  function WithBitOf(b: Byte, k: nat): (r: Byte)
    requires k < 8
  {
    WithBitFits(b, k, 8);
    Pow2();
    WithBit(b, k)
  }

  predicate BitSet(bytes: Bytes, i: nat)
    requires i < 8 * |bytes|
  {
    HasBit(bytes[i / 8], i % 8)
  }

  // ----- probes

  /** The 32-bit hash rotated right by 17 bits. */
  function Delta(h: nat): nat {
    h % WORD / 0x2_0000 + h % WORD % 0x2_0000 * 0x8000
  }

  /** The hash after `j` steps of double hashing, cut to 32 bits. */
  function Hash(p: Policy, key: Bytes, j: nat): (h: nat)
    ensures h < WORD
  {
    if j == 0 then p.hash(key) % WORD else (Hash(p, key, j - 1) + Delta(p.hash(key))) % WORD
  }

  function Probe(p: Policy, key: Bytes, j: nat, bits: nat): (r: nat)
    requires bits > 0
    ensures r < bits
  {
    Hash(p, key, j) % bits
  }

  /** How many bytes the bits of `n` keys take. */
  function FilterBytes(p: Policy, n: nat): (r: nat)
    ensures r >= 8
  {
    var bits := if n * p.bitsPerKey < 64 then 64 else n * p.bitsPerKey;
    (bits + 7) / 8
  }

  /** One of the first `n` keys, or one of the first `m` probes of the next, hits bit `i`. */
  ghost predicate Hit(p: Policy, keys: seq<Bytes>, n: nat, m: nat, bits: nat, i: nat)
    requires bits > 0 && n <= |keys|
  {
    || (exists a, j: nat {:trigger Probe(p, keys[a], j, bits)} :: 0 <= a < n && j < p.probes as nat && Probe(p, keys[a], j, bits) == i)
    || (n < |keys| && exists j: nat {:trigger Probe(p, keys[n], j, bits)} :: j < m && Probe(p, keys[n], j, bits) == i)
  }

  /** A filter has exactly the bits its keys probe, and ends with the number of probes. */
  ghost predicate IsFilter(p: Policy, keys: seq<Bytes>, f: Bytes) {
    && |f| == FilterBytes(p, |keys|) + 1 && f[|f| - 1] == p.probes
    && forall i: nat {:trigger BitSet(f[..|f| - 1], i)} :: i < 8 * (|f| - 1) ==>
         (BitSet(f[..|f| - 1], i) <==> Hit(p, keys, |keys|, 0, 8 * (|f| - 1), i))
  }

  /** CreateFilter: append the filter of some keys. */
  method CreateFilter(p: Policy, keys: seq<Bytes>, dst: Bytes) returns (r: Bytes)
    requires IsPolicy(p)
    ensures dst <= r && IsFilter(p, keys, r[|dst|..])
  {
    hide WithBit, HasBit, FilterBytes, Probe, Hit;
    var bytes := FilterBytes(p, |keys|);
    var bits := bytes * 8;
    var arr := new Byte[bytes](_ => 0);
    forall i: nat {:trigger BitSet(arr[..], i)} | i < bits
      ensures !BitSet(arr[..], i) && !Hit(p, keys, 0, 0, bits, i)
    {
      ZeroHasNone(i % 8);
      NothingHit(p, keys, bits, i);
    }
    for a := 0 to |keys|
      invariant BitsAre(p, keys, a, 0, arr[..])
    {
      SetProbes(p, keys, a, arr);
    }
    ghost var f := arr[..] + [p.probes];
    assert f[..|f| - 1] == arr[..];
    r := dst + arr[..] + [p.probes];
    assert r[|dst|..] == f;
  }

  /** The bits set so far: those of the first `n` keys and of `m` probes of the next. */
  ghost predicate BitsAre(p: Policy, keys: seq<Bytes>, n: nat, m: nat, f: Bytes) {
    && |f| > 0 && n <= |keys|
    && forall i: nat {:trigger BitSet(f, i)} :: i < 8 * |f| ==> (BitSet(f, i) <==> Hit(p, keys, n, m, 8 * |f|, i))
  }

  /** The inner loop: the probes of one key. */
  method SetProbes(p: Policy, keys: seq<Bytes>, a: nat, arr: array<Byte>)
    requires a < |keys| && BitsAre(p, keys, a, 0, arr[..])
    modifies arr
    ensures BitsAre(p, keys, a + 1, 0, arr[..])
  {
    hide WithBit, HasBit, Probe, Hit, BitSet;
    var bits := arr.Length * 8;
    var h := p.hash(keys[a]) % WORD;
    var delta := Delta(p.hash(keys[a]));
    var j: nat := 0;
    while j < p.probes as nat
      invariant h == Hash(p, keys[a], j) && j <= p.probes as nat
      invariant BitsAre(p, keys, a, j, arr[..])
    {
      var bit := h % bits;
      ghost var before := arr[..];
      ProbeIs(p, keys[a], j, bits);
      arr[bit / 8] := WithBitOf(arr[bit / 8], bit % 8);
      OneBitMore(p, keys, a, j, bits, before, arr[..]);
      h := (h + delta) % WORD;
      j := j + 1;
    }
    forall i: nat {:trigger BitSet(arr[..], i)} | i < bits
      ensures Hit(p, keys, a, p.probes as nat, bits, i) <==> Hit(p, keys, a + 1, 0, bits, i)
    {
      NextKey(p, keys, a, bits, i);
    }
  }

  lemma NothingHit(p: Policy, keys: seq<Bytes>, bits: nat, i: nat)
    requires bits > 0
    ensures !Hit(p, keys, 0, 0, bits, i)
  {
  }

  lemma ProbeIs(p: Policy, key: Bytes, j: nat, bits: nat)
    requires bits > 0
    ensures Probe(p, key, j, bits) == Hash(p, key, j) % bits
  {
  }

  /** One probe sets its bit and no other. */
  lemma OneBitMore(p: Policy, keys: seq<Bytes>, a: nat, j: nat, bits: nat, before: Bytes, after: Bytes)
    requires a < |keys| && bits == 8 * |before| == 8 * |after| > 0
    requires var bit := Probe(p, keys[a], j, bits);
             after == before[bit / 8 := WithBitOf(before[bit / 8], bit % 8)]
    requires forall i: nat {:trigger BitSet(before, i)} :: i < bits ==> (BitSet(before, i) <==> Hit(p, keys, a, j, bits, i))
    ensures forall i: nat {:trigger BitSet(after, i)} :: i < bits ==> (BitSet(after, i) <==> Hit(p, keys, a, j + 1, bits, i))
  {
    hide WithBit, HasBit, Probe, Hit;
    var bit := Probe(p, keys[a], j, bits);
    forall i: nat {:trigger BitSet(after, i)} | i < bits
      ensures BitSet(after, i) <==> Hit(p, keys, a, j + 1, bits, i)
    {
      assert BitSet(before, i) <==> Hit(p, keys, a, j, bits, i);
      OneProbeMore(p, keys, a, j, bits, i);
      WithBitHas(before[bit / 8], bit % 8, i % 8);
      assert BitSet(after, i) <==> i == bit || BitSet(before, i);
    }
  }

  lemma OneProbeMore(p: Policy, keys: seq<Bytes>, a: nat, j: nat, bits: nat, i: nat)
    requires a < |keys| && bits > 0
    ensures Hit(p, keys, a, j + 1, bits, i) <==> Hit(p, keys, a, j, bits, i) || i == Probe(p, keys[a], j, bits)
  {
    hide Probe;
  }

  lemma NextKey(p: Policy, keys: seq<Bytes>, a: nat, bits: nat, i: nat)
    requires a < |keys| && bits > 0
    ensures Hit(p, keys, a, p.probes as nat, bits, i) <==> Hit(p, keys, a + 1, 0, bits, i)
  {
    hide Probe;
  }

  /** What KeyMayMatch answers. */
  predicate MayMatch(p: Policy, key: Bytes, f: Bytes) {
    |f| >= 2 && (f[|f| - 1] > 30 || forall j: nat {:trigger Probe(p, key, j, 8 * (|f| - 1))} ::
      j < f[|f| - 1] as nat ==> BitSet(f[..|f| - 1], Probe(p, key, j, 8 * (|f| - 1))))
  }

  /** KeyMayMatch: whether all bits the key probes are set. */
  method KeyMayMatch(p: Policy, key: Bytes, f: Bytes) returns (b: bool)
    ensures b == MayMatch(p, key, f)
  {
    hide HasBit, Probe;
    if |f| < 2 {
      return false;
    }
    var arr := f[..|f| - 1];
    var bits := 8 * (|f| - 1);
    var k := f[|f| - 1];
    if k > 30 {
      return true;
    }
    var h := p.hash(key) % WORD;
    var delta := Delta(p.hash(key));
    var j: nat := 0;
    while j < k as nat
      invariant j <= k as nat && h == Hash(p, key, j)
      invariant forall i: nat {:trigger Probe(p, key, i, bits)} :: i < j ==> BitSet(arr, Probe(p, key, i, bits))
    {
      ProbeIs(p, key, j, bits);
      var bit := h % bits;
      if !HasBit(arr[bit / 8], bit % 8) {
        assert !BitSet(arr, Probe(p, key, j, bits));
        return false;
      }
      h := (h + delta) % WORD;
      j := j + 1;
    }
    b := true;
  }

  /** A filter never misses a key it was made from. */
  lemma NeverMisses(p: Policy, keys: seq<Bytes>, f: Bytes, key: Bytes)
    requires IsPolicy(p) && IsFilter(p, keys, f) && key in keys
    ensures MayMatch(p, key, f)
  {
    hide HasBit, Probe, FilterBytes;
    var a :| 0 <= a < |keys| && keys[a] == key;
    var bits := 8 * (|f| - 1);
    forall j: nat {:trigger Probe(p, key, j, bits)} | j < p.probes as nat
      ensures BitSet(f[..|f| - 1], Probe(p, key, j, bits))
    {
      ProbeIs(p, key, j, bits);
      assert Probe(p, keys[a], j, bits) == Probe(p, key, j, bits);
      assert Hit(p, keys, |keys|, 0, bits, Probe(p, key, j, bits));
    }
  }

  /** One of the keys probes bit `i`. */
  ghost predicate Probed(p: Policy, keys: seq<Bytes>, bits: nat, i: nat)
    requires bits > 0
  {
    exists key, j: nat {:trigger Probe(p, key, j, bits)} :: key in keys && j < p.probes as nat && Probe(p, key, j, bits) == i
  }

  lemma HitIs(p: Policy, keys: seq<Bytes>, bits: nat, i: nat)
    requires bits > 0
    ensures Hit(p, keys, |keys|, 0, bits, i) <==> Probed(p, keys, bits, i)
  {
    hide Probe;
    if Probed(p, keys, bits, i) {
      var key, j: nat :| key in keys && j < p.probes as nat && Probe(p, key, j, bits) == i;
      var a :| 0 <= a < |keys| && keys[a] == key;
      assert Probe(p, keys[a], j, bits) == i;
    }
  }

  /** The filter says no exactly if one of the bits the key probes is probed by none of
      the keys it was made from. */
  lemma MatchIsExact(p: Policy, keys: seq<Bytes>, f: Bytes, key: Bytes)
    requires IsPolicy(p) && IsFilter(p, keys, f)
    ensures |f| > 1
    ensures var bits := 8 * (|f| - 1);
            MayMatch(p, key, f) <==>
              forall j: nat {:trigger Probe(p, key, j, bits)} :: j < p.probes as nat ==> Probed(p, keys, bits, Probe(p, key, j, bits))
  {
    hide HasBit, Probe, FilterBytes, Hit, Probed;
    var bits := 8 * (|f| - 1);
    forall j: nat {:trigger Probe(p, key, j, bits)} | j < p.probes as nat
      ensures BitSet(f[..|f| - 1], Probe(p, key, j, bits)) <==> Probed(p, keys, bits, Probe(p, key, j, bits))
    {
      ProbeIs(p, key, j, bits);
      HitIs(p, keys, bits, Probe(p, key, j, bits));
    }
  }

  /** A filter too short to hold anything matches no key, and one with a reserved number
      of probes matches every key. */
  lemma MatchAtTheEnds(p: Policy, key: Bytes, f: Bytes)
    ensures |f| < 2 ==> !MayMatch(p, key, f)
    ensures |f| >= 2 && f[|f| - 1] > 30 ==> MayMatch(p, key, f)
  {
  }

  /** The bits a key probes lie an equal distance apart: its hash rotated right by 17 bits. */
  lemma ProbesAreEven(p: Policy, key: Bytes, h: nat, j: nat, bits: nat)
    requires bits > 0 && h == p.hash(key) % 0x1_0000_0000
    ensures Probe(p, key, j, bits) == (h + j * (h / 0x2_0000 + h % 0x2_0000 * 0x8000)) % 0x1_0000_0000 % bits
  {
    hide Hash, Delta;
    HashIs(p, key, j);
    DeltaIs(p.hash(key));
  }

  lemma DeltaIs(hash: nat)
    ensures var h := hash % 0x1_0000_0000;
            Delta(hash) == h / 0x2_0000 + h % 0x2_0000 * 0x8000
  {
  }

  lemma {:induction false} HashIs(p: Policy, key: Bytes, j: nat)
    ensures Hash(p, key, j) == (p.hash(key) % WORD + j * Delta(p.hash(key))) % WORD
  {
    hide Delta;
    var h, d := p.hash(key) % WORD, Delta(p.hash(key));
    if j > 0 {
      HashIs(p, key, j - 1);
      Distribute(j, d);
      AddInWord(h + (j - 1) * d, d);
    } else {
      assert 0 * d == 0;
    }
  }

  lemma Distribute(j: nat, d: nat)
    requires j > 0
    ensures j * d == (j - 1) * d + d
  {
  }

  lemma AddInWord(a: nat, b: nat)
    ensures (a % WORD + b) % WORD == (a + b) % WORD
  {
  }
}
