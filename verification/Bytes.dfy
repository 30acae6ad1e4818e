/** Octets, fixed-width integers and their wire forms, shared by every codec. */
module Bytes {
  type U8 = x: int | 0 <= x < 0x100
  type U16 = x: int | 0 <= x < 0x1_0000
  type U32 = x: int | 0 <= x < 0x1_0000_0000
  type U64 = x: int | 0 <= x < 0x1_0000_0000_0000_0000

  const U64_MAX: int := 0xFFFF_FFFF_FFFF_FFFF

  type Octets = seq<U8>

  datatype Option<+T> = None | Some(value: T)

  datatype Result<+T, +E> = Ok(value: T) | Err(error: E)

  /** `usize::saturating_add` on a 64-bit target. */
  function SatAdd(a: nat, b: nat): (r: U64)
    ensures a + b <= U64_MAX ==> r == a + b
    ensures a + b > U64_MAX ==> r == U64_MAX
  {
    if a + b <= U64_MAX then a + b else U64_MAX
  }

  /** `u64::wrapping_add`. */
  function WrappingAdd(a: U64, b: U64): (r: U64)
    ensures a + b <= U64_MAX ==> r == a + b
  {
    if a + b <= U64_MAX then a + b else a + b - U64_MAX - 1
  }

  function SatSub(a: nat, b: nat): (r: nat)
    ensures a >= b ==> r == a - b
    ensures a < b ==> r == 0
  {
    if a >= b then a - b else 0
  }

  /** `n as u32` for a length. */
  function AsU32(n: nat): (r: U32)
    ensures n < 0x1_0000_0000 ==> r == n
  {
    if n < 0x1_0000_0000 then n else n % 0x1_0000_0000
  }

  function Le16(n: U16): (b: Octets)
    ensures |b| == 2
  {
    [n % 0x100, n / 0x100]
  }

  function FromLe16(b0: U8, b1: U8): (n: U16) {
    b0 + 0x100 * b1
  }

  function Be16(n: U16): (b: Octets)
    ensures |b| == 2
  {
    [n / 0x100, n % 0x100]
  }

  function FromBe16(b0: U8, b1: U8): (n: U16) {
    0x100 * b0 + b1
  }

  function Le32(n: U32): (b: Octets)
    ensures |b| == 4
  {
    Le16(n % 0x1_0000) + Le16(n / 0x1_0000)
  }

  function FromLe32(b0: U8, b1: U8, b2: U8, b3: U8): (n: U32) {
    FromLe16(b0, b1) + 0x1_0000 * FromLe16(b2, b3)
  }

  lemma {:induction false} Le16Inverse(n: U16)
    ensures FromLe16(Le16(n)[0], Le16(n)[1]) == n
  {
  }

  lemma {:induction false} FromLe16Inverse(b0: U8, b1: U8)
    ensures Le16(FromLe16(b0, b1)) == [b0, b1]
  {
  }

  lemma {:induction false} Be16Inverse(n: U16)
    ensures FromBe16(Be16(n)[0], Be16(n)[1]) == n
  {
  }

  lemma {:induction false} FromBe16Inverse(b0: U8, b1: U8)
    ensures Be16(FromBe16(b0, b1)) == [b0, b1]
  {
  }

  lemma {:induction false} Le32Inverse(n: U32)
    ensures var b := Le32(n); FromLe32(b[0], b[1], b[2], b[3]) == n
  {
    var (lo, hi) := (n % 0x1_0000, n / 0x1_0000);
    Le16Inverse(lo);
    Le16Inverse(hi);
    assert Le32(n)[2] == Le16(hi)[0] && Le32(n)[3] == Le16(hi)[1];
  }

  lemma {:induction false} Le32OfHalves(n: U32, lo: U16, hi: U16)
    requires n == lo + 0x1_0000 * hi
    ensures Le32(n) == Le16(lo) + Le16(hi)
  {
    assert n % 0x1_0000 == lo && n / 0x1_0000 == hi;
  }

  lemma {:induction false} FromLe32Inverse(b0: U8, b1: U8, b2: U8, b3: U8)
    ensures Le32(FromLe32(b0, b1, b2, b3)) == [b0, b1, b2, b3]
  {
    Le32OfHalves(FromLe32(b0, b1, b2, b3), FromLe16(b0, b1), FromLe16(b2, b3));
    FromLe16Inverse(b0, b1);
    FromLe16Inverse(b2, b3);
    Pairs(b0, b1, b2, b3);
  }

  lemma {:induction false} Pairs(b0: U8, b1: U8, b2: U8, b3: U8)
    ensures [b0, b1] + [b2, b3] == [b0, b1, b2, b3]
  {
  }

  lemma {:induction false} Assoc(a: Octets, b: Octets, c: Octets)
    ensures a + b + c == a + (b + c)
  {
  }

  lemma {:induction false} ModUnique(x: U64, z: int)
    ensures (x + 0x1_0000_0000_0000_0000 * z) % 0x1_0000_0000_0000_0000 == x
  {
  }

  /** `s` with `src` written over it at `at`. */
  function Patch(s: Octets, at: nat, src: Octets): (r: Octets)
    requires at + |src| <= |s|
    ensures |r| == |s|
  {
    s[..at] + src + s[at + |src|..]
  }

  lemma {:induction false} PatchPatch(s: Octets, at: nat, a: Octets, b: Octets)
    requires at + |a| + |b| <= |s|
    ensures Patch(Patch(s, at, a), at + |a|, b) == Patch(s, at, a + b)
  {
  }

  /** `copy_from_slice` into `buf[at..]`. */
  method CopySlice(buf: array<U8>, at: nat, src: Octets)
    requires at + |src| <= buf.Length
    modifies buf
    ensures buf[..] == Patch(old(buf[..]), at, src)
  {
    forall k | 0 <= k < |src| {
      buf[at + k] := src[k];
    }
  }

  /** The number two bytes weigh, and four, by position. */
  function Weight2(low: int, high: int): (n: int) {
    low + 256 * high
  }

  function Weight4(b0: int, b1: int, b2: int, b3: int): (n: int) {
    b0 + 256 * b1 + 65_536 * b2 + 16_777_216 * b3
  }

  lemma {:induction false} Le16Weighs(n: U16)
    ensures var b := Le16(n); Weight2(b[0], b[1]) == n
  {
  }

  lemma {:induction false} Be16Weighs(n: U16)
    ensures var b := Be16(n); Weight2(b[1], b[0]) == n
  {
  }

  lemma {:induction false} Le32Weighs(n: U32)
    ensures var b := Le32(n); Weight4(b[0], b[1], b[2], b[3]) == n
  {
    Le16Weighs(n % 0x1_0000);
    Le16Weighs(n / 0x1_0000);
    var (lo, hi) := (Le16(n % 0x1_0000), Le16(n / 0x1_0000));
    assert Le32(n)[0] == lo[0] && Le32(n)[1] == lo[1] && Le32(n)[2] == hi[0] && Le32(n)[3] == hi[1];
  }
}
