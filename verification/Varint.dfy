/** LEB128 integers of at most five bytes, as the reference codecs write and read them. */
module Varint {
  import opened Bytes

  /** The writer's form of `n`: seven bits a byte, low bits first, the top bit set on all but the last. */
  function Leb(n: nat): (b: Octets)
    ensures |b| >= 1
  {
    if n < 0x80 then [n] else [n % 0x80 + 0x80] + Leb(n / 0x80)
  }

  method PutVarint(out: Octets, n: U32) returns (r: Octets)
    ensures r == out + Leb(n)
  {
    r := out;
    var m: nat := n;
    while m >= 0x80
      invariant out + Leb(n) == r + Leb(m)
    {
      r := r + [m % 0x80 + 0x80];
      m := m / 0x80;
    }
    r := r + [m];
  }

  method VarintLen(n: U32) returns (len: nat)
    ensures len == |Leb(n)|
  {
    len := 1;
    var m: nat := n;
    while m >= 0x80
      invariant |Leb(n)| == len - 1 + |Leb(m)|
    {
      m := m / 0x80;
      len := len + 1;
    }
  }

  /** The threshold form of the byte model. */
  function ModelLen(n: nat): (len: nat) {
    if n < 128 then 1
    else if n < 16384 then 2
    else if n < 0x20_0000 then 3
    else if n < 0x1000_0000 then 4
    else 5
  }

  /** One past the largest value that the digits from position `i` on can denote. */
  function Limit(i: nat): (n: nat)
    requires i <= 4
  {
    if i == 0 then 0x1_0000_0000
    else if i == 1 then 0x200_0000
    else if i == 2 then 0x4_0000
    else if i == 3 then 0x800
    else 0x10
  }

  /** The value of the digits from position `i` on, and the offset after them. */
  function RdFrom(b: Octets, off: nat, i: nat): (r: Option<(nat, nat)>)
    requires i <= 4
    decreases |b| - off
  {
    if off >= |b| then None
    else if i == 4 then
      if b[off] >= 0x10 then None else Some((b[off], off + 1))
    else if b[off] < 0x80 then Some((b[off], off + 1))
    else
      var r := RdFrom(b, off + 1, i + 1);
      if r.None? then None else Some((b[off] - 0x80 + 0x80 * r.value.0, r.value.1))
  }

  /** A whole integer: at most five bytes, the fifth below 16, so always below 2^32. */
  function Rd(b: Octets, off: nat): (r: Option<(U32, nat)>) {
    RdBound(b, off, 0);
    RdFrom(b, off, 0)
  }

  lemma {:induction false} RdBound(b: Octets, off: nat, i: nat)
    requires i <= 4
    ensures RdFrom(b, off, i).Some? ==>
              var (v, e) := RdFrom(b, off, i).value;
              v < Limit(i) && off < e <= |b| && e <= off + 5 - i
    decreases 5 - i
  {
    if i < 4 {
      RdBound(b, off + 1, i + 1);
    }
  }

  /** The digit `a` in place `i`: `a << 7 * i`. */
  function Digit(i: nat, a: nat): (n: nat)
    requires i <= 4
  {
    if i == 0 then a
    else if i == 1 then 0x80 * a
    else if i == 2 then 0x4000 * a
    else if i == 3 then 0x20_0000 * a
    else 0x1000_0000 * a
  }

  /** The digits read so far, worth `value`, joined with the rest, whose first digit has place `i`. */
  function Join(value: nat, i: nat, rest: Option<(nat, nat)>): (r: Option<(nat, nat)>)
    requires i <= 4
  {
    match rest
    case None => None
    case Some((v, e)) => Some((value + Digit(i, v), e))
  }

  lemma {:induction false} JoinStep(b: Octets, off: nat, i: nat, value: nat)
    requires i < 4 && off < |b| && b[off] >= 0x80
    ensures Join(value, i, RdFrom(b, off, i)) ==
            Join(value + Digit(i, b[off] - 0x80), i + 1, RdFrom(b, off + 1, i + 1))
  {
  }

  /**
    The reading loop. The digits occupy disjoint bits, so the source's `|=` of a shifted digit is
    an addition. `off` is meaningful only when a value is returned.
   */
  method RdVarint(b: Octets, start: nat) returns (r: Option<U32>, off: nat)
    ensures match Rd(b, start)
            case None => r.None?
            case Some((v, e)) => r == Some(v) && off == e
  {
    ghost var whole := Rd(b, start);
    off := start;
    var value: nat := 0;
    var i: nat := 0;
    while i < 5
      invariant i <= 4 && off == start + i
      invariant Join(value, i, RdFrom(b, off, i)) == whole
      decreases 5 - i
    {
      if off >= |b| {
        return None, off;
      }
      var byte: nat := b[off];
      off := off + 1;
      if i == 4 {
        if byte >= 0x10 {
          return None, off;
        }
        return Some(value + Digit(4, byte)), off;
      }
      if byte < 0x80 {
        return Some(value + Digit(i, byte)), off;
      }
      JoinStep(b, off - 1, i, value);
      value := value + Digit(i, byte - 0x80);
      i := i + 1;
    }
    return None, off;
  }

  /** The writer's length is the threshold form of the byte model. */
  lemma {:induction false} LebLength(n: U32)
    ensures |Leb(n)| == ModelLen(n) <= 5
  {
    var n1 := n / 0x80;
    var n2 := n1 / 0x80;
    var n3 := n2 / 0x80;
    assert n1 < 0x80 <==> n < 16384;
    assert n2 < 0x80 <==> n < 0x20_0000;
    assert n3 < 0x80 <==> n < 0x1000_0000;
    assert n3 / 0x80 < 0x80;
    assert |Leb(n3 / 0x80)| == 1;
    assert |Leb(n3)| == if n3 < 0x80 then 1 else 2;
    assert |Leb(n2)| == if n2 < 0x80 then 1 else 1 + |Leb(n3)|;
    assert |Leb(n1)| == if n1 < 0x80 then 1 else 1 + |Leb(n2)|;
  }

  /** `b` holds `w` at offset `off`. */
  predicate HoldsAt(b: Octets, off: nat, w: Octets) {
    off + |w| <= |b| && b[off..off + |w|] == w
  }

  lemma {:induction false} HoldsParts(b: Octets, off: nat, v: Octets, w: Octets)
    requires HoldsAt(b, off, v + w)
    ensures HoldsAt(b, off, v) && HoldsAt(b, off + |v|, w)
  {
    var s := b[off..off + |v + w|];
    assert s[..|v|] == b[off..off + |v|] && s[|v|..] == b[off + |v|..off + |v| + |w|];
    assert (v + w)[..|v|] == v && (v + w)[|v|..] == w;
  }

  /** The reader inverts the writer wherever it finds its bytes, and stops exactly after them. */
  lemma {:induction false} RdOfLeb(b: Octets, off: nat, n: nat, i: nat)
    requires i <= 4 && n < Limit(i) && HoldsAt(b, off, Leb(n))
    ensures RdFrom(b, off, i) == Some((n, off + |Leb(n)|))
    decreases 5 - i
  {
    if n < 0x80 {
      HoldsParts(b, off, [n], []);
      assert b[off..off + 1][0] == n;
    } else {
      HoldsParts(b, off, [n % 0x80 + 0x80], Leb(n / 0x80));
      assert b[off..off + 1][0] == n % 0x80 + 0x80;
      RdOfLeb(b, off + 1, n / 0x80, i + 1);
    }
  }

  /**
    The reader also accepts padded forms. What it accepts is never shorter than the writer's form
    of the value, and is that form exactly when it is one byte or does not end in a zero byte.
   */
  lemma {:induction false} LebOfRd(b: Octets, off: nat, i: nat)
    requires i <= 4 && RdFrom(b, off, i).Some?
    ensures var (v, e) := RdFrom(b, off, i).value;
            && off < e <= |b| && |Leb(v)| <= e - off
            && (b[off..e] == Leb(v) <==> e - off == 1 || b[e - 1] != 0)
            && (v == 0 && e - off > 1 ==> b[e - 1] == 0)
    decreases 5 - i
  {
    RdBound(b, off, i);
    var (v, e) := RdFrom(b, off, i).value;
    assert b[off..e] == [b[off]] + b[off + 1..e];
    if i < 4 && b[off] >= 0x80 {
      LebOfRd(b, off + 1, i + 1);
      var w := RdFrom(b, off + 1, i + 1).value.0;
      assert v / 0x80 == w && v % 0x80 == b[off] - 0x80;
      if v >= 0x80 {
        assert Leb(v) == [b[off]] + Leb(w);
        assert b[off..e][1..] == b[off + 1..e] && Leb(v)[1..] == Leb(w);
      } else {
        assert w == 0;
        assert |b[off..e]| > 1 == |Leb(v)|;
      }
    }
  }

  lemma {:induction false} RdOfLebAt(b: Octets, off: nat, n: U32)
    requires HoldsAt(b, off, Leb(n))
    ensures Rd(b, off) == Some((n, off + |Leb(n)|))
  {
    RdOfLeb(b, off, n, 0);
  }

  /** The number a string of seven-bit groups denotes, the lowest group first. */
  function Weigh(b: Octets): (n: nat) {
    if b == [] then 0 else b[0] % 128 + 128 * Weigh(b[1..])
  }

  /** What the writer's form says: its groups weigh the number, and exactly its last byte has no top bit. */
  lemma {:induction false} LebWeighs(n: nat)
    ensures Weigh(Leb(n)) == n
    ensures forall i :: 0 <= i < |Leb(n)| ==> (Leb(n)[i] < 128 <==> i == |Leb(n)| - 1)
  {
    if n >= 0x80 {
      LebWeighs(n / 0x80);
      assert Leb(n)[1..] == Leb(n / 0x80);
    } else {
      assert Leb(n)[1..] == [];
    }
  }
}
