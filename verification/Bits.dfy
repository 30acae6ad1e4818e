/** Shifts and exclusive-or of natural numbers, with the laws the 64-bit hash rests on. */
module Bits {
  /** `a >> k`. */
  function Shr(a: nat, k: nat): (r: nat) {
    if k == 0 then a else Shr(a / 2, k - 1)
  }

  /** `a ^ b`, one binary digit at a time. */
  function Xor(a: nat, b: nat): (r: nat)
    decreases a + b
  {
    if a == 0 && b == 0 then 0 else (a + b) % 2 + 2 * Xor(a / 2, b / 2)
  }

  function Pow2(k: nat): (r: nat) {
    if k == 0 then 1 else 2 * Pow2(k - 1)
  }

  lemma {:induction false} XorHalf(a: nat, b: nat)
    ensures Xor(a, b) / 2 == Xor(a / 2, b / 2)
    ensures Xor(a, b) % 2 == (a + b) % 2
  {
  }

  lemma {:induction false} XorZero(a: nat)
    ensures Xor(a, 0) == a == Xor(0, a)
    decreases a
  {
    if a > 0 {
      XorZero(a / 2);
    }
  }

  lemma {:induction false} XorSelf(a: nat)
    ensures Xor(a, a) == 0
    decreases a
  {
    if a > 0 {
      XorSelf(a / 2);
    }
  }

  lemma {:induction false} FromHalf(a: nat, b: nat)
    requires a / 2 == b / 2 && a % 2 == b % 2
    ensures a == b
  {
  }

  lemma {:induction false} ParityAssoc(a: nat, b: nat, c: nat, x: nat, y: nat)
    requires x % 2 == (a + b) % 2 && y % 2 == (b + c) % 2
    ensures (x + c) % 2 == (a + y) % 2
  {
    var (i, j) := ((a + b) / 2, (b + c) / 2);
    assert a + b == 2 * i + x % 2 && b + c == 2 * j + y % 2;
    assert x + c == a + y + 2 * (x / 2 - y / 2 + j - i);
  }

  lemma {:induction false} XorAssocHalves(a: nat, b: nat, c: nat)
    ensures Xor(Xor(a, b), c) / 2 == Xor(Xor(a / 2, b / 2), c / 2)
    ensures Xor(a, Xor(b, c)) / 2 == Xor(a / 2, Xor(b / 2, c / 2))
  {
    XorHalf(a, b);
    XorHalf(b, c);
    XorHalf(Xor(a, b), c);
    XorHalf(a, Xor(b, c));
  }

  lemma {:induction false} XorAssocParity(a: nat, b: nat, c: nat)
    ensures Xor(Xor(a, b), c) % 2 == Xor(a, Xor(b, c)) % 2
  {
    var (x, y) := (Xor(a, b), Xor(b, c));
    XorHalf(a, b);
    XorHalf(b, c);
    ParityAssoc(a, b, c, x, y);
    XorHalf(x, c);
    XorHalf(a, y);
  }

  lemma {:induction false} XorAssoc(a: nat, b: nat, c: nat)
    ensures Xor(Xor(a, b), c) == Xor(a, Xor(b, c))
    decreases a + b + c
  {
    if a + b + c > 0 {
      XorAssoc(a / 2, b / 2, c / 2);
      XorAssocHalves(a, b, c);
      XorAssocParity(a, b, c);
      FromHalf(Xor(Xor(a, b), c), Xor(a, Xor(b, c)));
    }
  }

  lemma {:induction false} XorCancel(a: nat, b: nat)
    ensures Xor(Xor(a, b), b) == a
  {
    XorAssoc(a, b, b);
    XorSelf(b);
    XorZero(a);
  }

  lemma {:induction false} XorComm(a: nat, b: nat)
    ensures Xor(a, b) == Xor(b, a)
    decreases a + b
  {
    if a + b > 0 {
      XorComm(a / 2, b / 2);
    }
  }

  lemma {:induction false} XorShr(a: nat, b: nat, k: nat)
    ensures Shr(Xor(a, b), k) == Xor(Shr(a, k), Shr(b, k))
    decreases k
  {
    if k > 0 {
      XorHalf(a, b);
      XorShr(a / 2, b / 2, k - 1);
    }
  }

  lemma {:induction false} ShrShr(a: nat, j: nat, k: nat)
    ensures Shr(Shr(a, j), k) == Shr(a, j + k)
    decreases j
  {
    if j > 0 {
      ShrShr(a / 2, j - 1, k);
    }
  }

  /** A number shifts out to zero exactly when it has at most `k` binary digits. */
  lemma {:induction false} ShrFits(a: nat, k: nat)
    ensures Shr(a, k) == 0 <==> a < Pow2(k)
    decreases k
  {
    if k > 0 {
      ShrFits(a / 2, k - 1);
    }
  }

  lemma {:induction false} Pow2Is64()
    ensures Pow2(64) == 0x1_0000_0000_0000_0000
  {
    assert Pow2(8) == 0x100;
    assert Pow2(16) == 0x1_0000;
    assert Pow2(24) == 0x100_0000;
    assert Pow2(32) == 0x1_0000_0000;
    assert Pow2(40) == 0x100_0000_0000;
    assert Pow2(48) == 0x1_0000_0000_0000;
    assert Pow2(56) == 0x100_0000_0000_0000;
  }

  lemma {:induction false} XorFits64(a: nat, b: nat)
    requires a < 0x1_0000_0000_0000_0000 && b < 0x1_0000_0000_0000_0000
    ensures Xor(a, b) < 0x1_0000_0000_0000_0000
  {
    Pow2Is64();
    ShrFits(a, 64);
    ShrFits(b, 64);
    XorShr(a, b, 64);
    ShrFits(Xor(a, b), 64);
  }

  lemma {:induction false} ShrShrinks(a: nat, k: nat)
    ensures Shr(a, k) <= a
    decreases k
  {
    if k > 0 {
      ShrShrinks(a / 2, k - 1);
    }
  }

  function XorShift(h: nat, s: nat): (r: nat) {
    Xor(h, Shr(h, s))
  }

  function XorShiftInverse(r: nat, s: nat): (h: nat) {
    Xor(Xor(r, Shr(r, s)), Shr(r, 2 * s))
  }

  /** A word shifted by a third of its width or more is gone after three shifts. */
  lemma {:induction false} TripleShift(h: nat, s: nat)
    requires h < 0x1_0000_0000_0000_0000 && 3 * s >= 64
    ensures Shr(Shr(h, 2 * s), s) == 0
  {
    Pow2Is64();
    ShrFits(h, 64);
    ShrShr(h, 2 * s, s);
    ShrShr(h, 64, 3 * s - 64);
    ShrShrinks(0, 3 * s - 64);
  }

  /** `h ^ (h >> s)` is a bijection on 64-bit words when `3 * s >= 64`. */
  lemma {:induction false} XorShiftBijective(h: nat, s: nat)
    requires h < 0x1_0000_0000_0000_0000 && 3 * s >= 64
    ensures XorShiftInverse(XorShift(h, s), s) == h
    ensures XorShift(XorShiftInverse(h, s), s) == h
  {
    var (h1, h2) := (Shr(h, s), Shr(h, 2 * s));
    ShrShr(h, s, s);
    ShrShr(h, s, 2 * s);
    ShrShr(h, 2 * s, s);
    TripleShift(h, s);
    var r := XorShift(h, s);
    XorShr(h, h1, s);
    XorShr(h, h1, 2 * s);
    XorZero(h2);
    assert Shr(r, s) == Xor(h1, h2) && Shr(r, 2 * s) == h2;
    XorAssoc(h, h1, Xor(h1, h2));
    XorAssoc(h1, h1, h2);
    XorSelf(h1);
    XorCancel(h, h2);
    var g := XorShiftInverse(h, s);
    XorShr(Xor(h, h1), h2, s);
    XorShr(h, h1, s);
    XorZero(Xor(h1, h2));
    assert Shr(g, s) == Xor(Xor(h1, h2), 0);
    XorZero(Xor(h1, h2));
    XorAssoc(h, h1, h2);
    XorCancel(h, Xor(h1, h2));
  }

  lemma {:induction false} ShrThree(a: nat)
    ensures Shr(a, 3) == a / 8 && Shr(a, 4) == a / 16
  {
    assert Shr(a, 1) == Shr(a / 2, 0) == a / 2;
    ShrShr(a, 1, 1);
    assert Shr(a / 2, 1) == Shr(a / 2 / 2, 0) == a / 4;
    ShrShr(a, 2, 1);
    assert Shr(a / 4, 1) == Shr(a / 4 / 2, 0) == a / 8;
    ShrShr(a, 3, 1);
    assert Shr(a / 8, 1) == Shr(a / 8 / 2, 0) == a / 16;
  }

  lemma {:induction false} ShrNine(a: nat)
    ensures Shr(a, 9) == a / 0x200
  {
    ShrThree(a);
    ShrThree(a / 8);
    ShrThree(a / 64);
    ShrShr(a, 3, 3);
    ShrShr(a, 6, 3);
  }

  /** Shifting by 27, 30 or 31 places is dividing by that power of two. */
  lemma {:induction false} ShrDivides(a: nat)
    ensures Shr(a, 27) == a / 0x800_0000 && Shr(a, 30) == a / 0x4000_0000 && Shr(a, 31) == a / 0x8000_0000
  {
    var (b, c) := (a / 0x200, a / 0x4_0000);
    ShrNine(a);
    ShrNine(b);
    ShrNine(c);
    ShrShr(a, 9, 9);
    ShrShr(a, 18, 9);
    var d := a / 0x800_0000;
    ShrThree(d);
    ShrShr(a, 27, 3);
    ShrShr(a, 27, 4);
  }
}
