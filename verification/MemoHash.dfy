/**
  The 64-bit hash of the DNS memo: a chunked multiply-fold over the key bytes and a
  splitmix64 finalizer. Words are naturals below 2^64 and every product is reduced, as
  `wrapping_mul` does.
 */
module MemoHash {
  import opened Bytes
  import opened Bits

  const M: int := 0x1_0000_0000_0000_0000

  /** The multiplications by the fold constant and by the two finalizer constants. */
  function MulK(x: U64): (r: U64) { x * 0x9e37_79b9_7f4a_7c15 % M }

  function MulA(x: U64): (r: U64) { x * 0xbf58_476d_1ce4_e5b9 % M }

  function MulB(x: U64): (r: U64) { x * 0x94d0_49bb_1331_11eb % M }

  /** The multiplications by the inverses of those odd constants modulo 2^64. */
  function UnmulK(x: U64): (r: U64) { x * 0xf1de_83e1_9937_733d % M }

  function UnmulA(x: U64): (r: U64) { x * 0x96de_1b17_3f11_9089 % M }

  function UnmulB(x: U64): (r: U64) { x * 0x3196_42b2_d24d_8ec3 % M }

  function Xor64(a: U64, b: U64): (r: U64) {
    XorFits64(a, b);
    Xor(a, b)
  }

  function XorShift64(h: U64, s: nat): (r: U64) {
    ShrShrinks(h, s);
    XorFits64(h, Shr(h, s));
    XorShift(h, s)
  }

  function XorShiftInverse64(h: U64, s: nat): (r: U64) {
    ShrShrinks(h, s);
    ShrShrinks(h, 2 * s);
    XorFits64(h, Shr(h, s));
    XorFits64(Xor(h, Shr(h, s)), Shr(h, 2 * s));
    XorShiftInverse(h, s)
  }

  /** `u64::from_le_bytes`. */
  function Word(c: Octets): (w: U64)
    requires |c| == 8
  {
    FromLe32(c[0], c[1], c[2], c[3]) + 0x1_0000_0000 * FromLe32(c[4], c[5], c[6], c[7])
  }

  /** The tail copied into a zeroed eight-byte block. */
  function Padded(rem: Octets): (c: Octets)
    requires |rem| < 8
    ensures |c| == 8
  {
    rem + seq(8 - |rem|, _ => 0)
  }

  function FoldStep(h: U64, w: U64): (r: U64) {
    MulK(Xor64(h, w))
  }

  /** The fold of every chunk of `key`, the zero-padded tail last, starting from state `h`. */
  function FoldKey(h: U64, key: Octets): (r: U64)
    decreases |key|
  {
    if key == [] then h
    else if |key| < 8 then FoldStep(h, Word(Padded(key)))
    else FoldKey(FoldStep(h, Word(key[..8])), key[8..])
  }

  function Finalize(h: U64): (r: U64) {
    XorShift64(MulB(XorShift64(MulA(XorShift64(h, 30)), 27)), 31)
  }

  /** The inverse of `Finalize`: its five stages undone in the opposite order. */
  function Unfinalize(r: U64): (h: U64) {
    XorShiftInverse64(UnmulA(XorShiftInverse64(UnmulB(XorShiftInverse64(r, 31)), 27)), 30)
  }

  function Hash(key: Octets): (h: U64) {
    Finalize(FoldKey(MulK(|key| % M), key))
  }

  method DnsMemoHash(key: Octets) returns (h: U64)
    ensures h == Hash(key)
  {
    h := MulK(|key| % M);
    var i := 0;
    while i + 8 <= |key|
      invariant 0 <= i <= |key|
      invariant FoldKey(h, key[i..]) == FoldKey(MulK(|key| % M), key)
    {
      assert key[i..][..8] == key[i..i + 8] && key[i..][8..] == key[i + 8..];
      h := MulK(Xor64(h, Word(key[i..i + 8])));
      i := i + 8;
    }
    if i < |key| {
      h := MulK(Xor64(h, Word(Padded(key[i..]))));
    }
    h := XorShift64(h, 30);
    h := MulA(h);
    h := XorShift64(h, 27);
    h := MulB(h);
    h := XorShift64(h, 31);
  }

  lemma {:induction false} InverseExpands(x: int, c: int, ci: int, t: int, m: int, q: int)
    requires c * ci == 1 + m * t
    ensures (x * c - m * q) * ci == x + m * (x * t - q * ci)
  {
    calc {
      (x * c - m * q) * ci;
      x * (c * ci) - m * (q * ci);
      x * (1 + m * t) - m * (q * ci);
      x + m * (x * t - q * ci);
    }
  }

  /** Multiplying by `c` modulo 2^64 is undone by multiplying by its inverse `ci`. */
  lemma {:induction false} InverseUndo(x: int, c: int, ci: int, t: int)
    requires 0 <= x < M && c * ci == 1 + M * t
    ensures x * c % M * ci % M == x
  {
    var (q, r) := (x * c / M, x * c % M);
    assert r == x * c - M * q;
    InverseExpands(x, c, ci, t, M, q);
    ModUnique(x, x * t - q * ci);
  }

  lemma {:induction false} MulKUndo(x: U64)
    ensures UnmulK(MulK(x)) == x
  {
    InverseUndo(x, 0x9e37_79b9_7f4a_7c15, 0xf1de_83e1_9937_733d, 0x957bbf35006ed677);
  }

  lemma {:induction false} MulAUndo(x: U64)
    ensures UnmulA(MulA(x)) == x
  {
    InverseUndo(x, 0xbf58_476d_1ce4_e5b9, 0x96de_1b17_3f11_9089, 0x70c3bca78f27f46c);
  }

  lemma {:induction false} MulARedo(x: U64)
    ensures MulA(UnmulA(x)) == x
  {
    InverseUndo(x, 0x96de_1b17_3f11_9089, 0xbf58_476d_1ce4_e5b9, 0x70c3bca78f27f46c);
  }

  lemma {:induction false} MulBUndo(x: U64)
    ensures UnmulB(MulB(x)) == x
  {
    InverseUndo(x, 0x94d0_49bb_1331_11eb, 0x3196_42b2_d24d_8ec3, 0x1cd336eda85f1453);
  }

  lemma {:induction false} MulBRedo(x: U64)
    ensures MulB(UnmulB(x)) == x
  {
    InverseUndo(x, 0x3196_42b2_d24d_8ec3, 0x94d0_49bb_1331_11eb, 0x1cd336eda85f1453);
  }

  /** The finalizer is a bijection on 64-bit words: it cannot merge two fold states. */
  lemma {:induction false} FinalizeBijective(h: U64)
    ensures Unfinalize(Finalize(h)) == h
    ensures Finalize(Unfinalize(h)) == h
  {
    var h1 := MulA(XorShift64(h, 30));
    var h2 := MulB(XorShift64(h1, 27));
    XorShiftBijective(h, 30);
    XorShiftBijective(h1, 27);
    XorShiftBijective(h2, 31);
    MulAUndo(XorShift64(h, 30));
    MulBUndo(XorShift64(h1, 27));
    var g2 := XorShiftInverse64(h, 31);
    var g1 := XorShiftInverse64(UnmulB(g2), 27);
    XorShiftBijective(h, 31);
    XorShiftBijective(UnmulB(g2), 27);
    XorShiftBijective(UnmulA(g1), 30);
    MulBRedo(g2);
    MulARedo(g1);
  }

  /** One fold step is injective in the state and in the chunk. */
  lemma {:induction false} FoldStepInjective(h1: U64, h2: U64, w1: U64, w2: U64)
    ensures FoldStep(h1, w1) == FoldStep(h2, w1) ==> h1 == h2
    ensures FoldStep(h1, w1) == FoldStep(h1, w2) ==> w1 == w2
  {
    MulKUndo(Xor64(h1, w1));
    MulKUndo(Xor64(h2, w1));
    MulKUndo(Xor64(h1, w2));
    XorCancel(h1, w1);
    XorCancel(h2, w1);
    XorComm(h1, w1);
    XorComm(h1, w2);
    XorCancel(w1, h1);
    XorCancel(w2, h1);
  }

  lemma {:induction false} HalvesUnique(al: U32, ah: U32, bl: U32, bh: U32)
    requires al + 0x1_0000_0000 * ah == bl + 0x1_0000_0000 * bh
    ensures al == bl && ah == bh
  {
  }

  lemma {:induction false} WordInjective(c: Octets, d: Octets)
    requires |c| == |d| == 8
    ensures Word(c) == Word(d) ==> c == d
  {
    var (cl, ch) := (FromLe32(c[0], c[1], c[2], c[3]), FromLe32(c[4], c[5], c[6], c[7]));
    var (dl, dh) := (FromLe32(d[0], d[1], d[2], d[3]), FromLe32(d[4], d[5], d[6], d[7]));
    if Word(c) == Word(d) {
      HalvesUnique(cl, ch, dl, dh);
    }
    FromLe32Inverse(c[0], c[1], c[2], c[3]);
    FromLe32Inverse(c[4], c[5], c[6], c[7]);
    FromLe32Inverse(d[0], d[1], d[2], d[3]);
    FromLe32Inverse(d[4], d[5], d[6], d[7]);
    assert c == [c[0], c[1], c[2], c[3]] + [c[4], c[5], c[6], c[7]];
    assert d == [d[0], d[1], d[2], d[3]] + [d[4], d[5], d[6], d[7]];
  }

  lemma {:induction false} FoldKeyInjective(h1: U64, h2: U64, key: Octets)
    requires h1 != h2
    ensures FoldKey(h1, key) != FoldKey(h2, key)
    decreases |key|
  {
    if key == [] {
    } else if |key| < 8 {
      FoldStepInjective(h1, h2, Word(Padded(key)), 0);
    } else {
      FoldStepInjective(h1, h2, Word(key[..8]), 0);
      FoldKeyInjective(FoldStep(h1, Word(key[..8])), FoldStep(h2, Word(key[..8])), key[8..]);
    }
  }

  /** The keys agree outside the eight-byte chunk that starts at `8 * i`. */
  predicate AgreeOutsideChunk(a: Octets, b: Octets, i: nat) {
    && |a| == |b|
    && forall j :: 0 <= j < |a| && !(8 * i <= j < 8 * i + 8) ==> a[j] == b[j]
  }

  lemma {:induction false} FoldSeparates(h: U64, a: Octets, b: Octets, i: nat)
    requires AgreeOutsideChunk(a, b, i) && a != b
    ensures FoldKey(h, a) != FoldKey(h, b)
    decreases |a|
  {
    if |a| < 8 {
      FoldStepInjective(h, h, Word(Padded(a)), Word(Padded(b)));
      WordInjective(Padded(a), Padded(b));
      assert Padded(a)[..|a|] == a && Padded(b)[..|a|] == b;
    } else if i == 0 {
      assert a[8..] == b[8..];
      assert a == a[..8] + a[8..] && b == b[..8] + b[8..];
      WordInjective(a[..8], b[..8]);
      FoldStepInjective(h, h, Word(a[..8]), Word(b[..8]));
      FoldKeyInjective(FoldStep(h, Word(a[..8])), FoldStep(h, Word(b[..8])), a[8..]);
    } else {
      assert a[..8] == b[..8];
      assert a == a[..8] + a[8..] && b == b[..8] + b[8..];
      assert AgreeOutsideChunk(a[8..], b[8..], i - 1);
      FoldSeparates(FoldStep(h, Word(a[..8])), a[8..], b[8..], i - 1);
    }
  }

  /**
    Two different keys of equal length whose differences lie inside one eight-byte chunk,
    the zero-padded tail included, never have the same hash.
   */
  lemma {:induction false} HashSeparatesOneChunk(a: Octets, b: Octets, i: nat)
    requires AgreeOutsideChunk(a, b, i) && a != b
    ensures Hash(a) != Hash(b)
  {
    var seed := MulK(|a| % M);
    FoldSeparates(seed, a, b, i);
    FinalizeBijective(FoldKey(seed, a));
    FinalizeBijective(FoldKey(seed, b));
  }

  /** In particular every single byte of the key reaches the hash. */
  lemma {:induction false} EveryByteReachesHash(key: Octets, j: nat, x: U8)
    requires j < |key| && x != key[j]
    ensures Hash(key[j := x]) != Hash(key)
  {
    HashSeparatesOneChunk(key[j := x], key, j / 8);
  }

  function Zeros(n: nat): (z: Octets)
    ensures |z| == n
  {
    seq(n, _ => 0)
  }

  lemma {:induction false} FoldChunk(h: U64, key: Octets)
    ensures |key| >= 8 ==> FoldKey(h, key) == FoldKey(FoldStep(h, Word(key[..8])), key[8..])
    ensures 0 < |key| < 8 ==> FoldKey(h, key) == FoldStep(h, Word(Padded(key)))
    ensures key == [] ==> FoldKey(h, key) == h
  {
  }

  /** From different states, a key and its extension by zeros within its last chunk fold to different states. */
  lemma {:induction false} FoldPadded(h1: U64, h2: U64, a: Octets, n: nat)
    requires h1 != h2 && (|a| + n + 7) / 8 == (|a| + 7) / 8
    ensures FoldKey(h1, a) != FoldKey(h2, a + Zeros(n))
    decreases |a|
  {
    hide FoldStep, FoldKey, Word;
    var b := a + Zeros(n);
    FoldChunk(h1, a);
    FoldChunk(h2, b);
    if |a| >= 8 {
      assert b[..8] == a[..8] && b[8..] == a[8..] + Zeros(n);
      FoldStepInjective(h1, h2, Word(a[..8]), 0);
      FoldPadded(FoldStep(h1, Word(a[..8])), FoldStep(h2, Word(a[..8])), a[8..], n);
    } else if a != [] {
      FoldStepInjective(h1, h2, Word(Padded(a)), 0);
      if |b| < 8 {
        assert Padded(b) == Padded(a);
      } else {
        assert b == Padded(a) && b[..8] == b && b[8..] == [];
        FoldChunk(FoldStep(h2, Word(b)), []);
      }
    }
  }

  lemma {:induction false} SmallMod(n: nat)
    requires n < M
    ensures n % M == n
  {
  }

  /** The length-mixed seed tells a key from the same key padded with zeros, which the chunks alone do not. */
  lemma {:induction false} LengthReachesHash(key: Octets, n: nat)
    requires n > 0 && (|key| + n + 7) / 8 == (|key| + 7) / 8 && |key| + n < M
    ensures Hash(key + Zeros(n)) != Hash(key)
  {
    hide FoldKey, Finalize, Unfinalize, MulK, UnmulK;
    var (s, t) := (MulK(|key| % M), MulK((|key| + n) % M));
    SmallMod(|key|);
    SmallMod(|key| + n);
    MulKUndo(|key|);
    MulKUndo(|key| + n);
    FoldPadded(s, t, key, n);
    FinalizeBijective(FoldKey(s, key));
    FinalizeBijective(FoldKey(t, key + Zeros(n)));
  }

  /** One mixing stage on numbers: the word against itself divided by `d`. */
  function Mixed(h: nat, d: nat): (r: nat)
    requires d > 0
  {
    Xor(h, h / d)
  }

  /** The splitmix64 finalizer: mix by 2^30, multiply, mix by 2^27, multiply, mix by 2^31. */
  lemma {:induction false} FinalizeIsSplitmix(h: U64)
    ensures var a := Mixed(h, 0x4000_0000) * 0xbf58_476d_1ce4_e5b9 % 0x1_0000_0000_0000_0000;
            var b := Mixed(a, 0x800_0000) * 0x94d0_49bb_1331_11eb % 0x1_0000_0000_0000_0000;
            Finalize(h) == Mixed(b, 0x8000_0000)
  {
    hide Shr, Xor;
    var a := MulA(XorShift64(h, 30));
    var b := MulB(XorShift64(a, 27));
    ShrDivides(h);
    ShrDivides(a);
    ShrDivides(b);
  }
}
