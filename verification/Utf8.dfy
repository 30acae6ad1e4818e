/** Well-formed UTF-8 byte strings (table 3-7 of the Unicode Standard), the type of every `str`. */
module Utf8 {
  import opened Bytes

  predicate Continuation(x: U8) {
    0x80 <= x <= 0xBF
  }

  /** Whether `x` may follow the lead byte `l` of a three-byte form. */
  predicate SecondOfThree(l: U8, x: U8) {
    || (l == 0xE0 && 0xA0 <= x <= 0xBF)
    || (0xE1 <= l <= 0xEC && 0x80 <= x <= 0xBF)
    || (l == 0xED && 0x80 <= x <= 0x9F)
    || (0xEE <= l <= 0xEF && 0x80 <= x <= 0xBF)
  }

  /** Whether `x` may follow the lead byte `l` of a four-byte form. */
  predicate SecondOfFour(l: U8, x: U8) {
    || (l == 0xF0 && 0x90 <= x <= 0xBF)
    || (0xF1 <= l <= 0xF3 && 0x80 <= x <= 0xBF)
    || (l == 0xF4 && 0x80 <= x <= 0x8F)
  }

  /** Length of the scalar value `b` starts with, or 0 when it starts with none. */
  function Lead(b: Octets): (n: nat)
    ensures n <= |b|
  {
    if |b| >= 1 && b[0] <= 0x7F then 1
    else if |b| >= 2 && 0xC2 <= b[0] <= 0xDF && Continuation(b[1]) then 2
    else if |b| >= 3 && SecondOfThree(b[0], b[1]) && Continuation(b[2]) then 3
    else if |b| >= 4 && SecondOfFour(b[0], b[1]) && Continuation(b[2]) && Continuation(b[3]) then 4
    else 0
  }

  predicate Valid(b: Octets)
    decreases |b|
  {
    b == [] || (Lead(b) > 0 && Valid(b[Lead(b)..]))
  }

  lemma {:induction false} ValidConcat(a: Octets, b: Octets)
    requires Valid(a)
    ensures Valid(a + b) <==> Valid(b)
    decreases |a|
  {
    if a == [] {
      assert a + b == b;
    } else {
      var n := Lead(a);
      assert Lead(a + b) == n;
      assert (a + b)[n..] == a[n..] + b;
      ValidConcat(a[n..], b);
    }
  }

  lemma {:induction false} ValidConcat3(a: Octets, b: Octets, c: Octets)
    requires Valid(a) && Valid(b + c)
    ensures Valid(a + b + c)
  {
    ValidConcat(a, b + c);
    assert a + b + c == a + (b + c);
  }

  lemma {:induction false} AsciiValid(b: Octets)
    requires forall x :: x in b ==> x < 0x80
    ensures Valid(b)
    decreases |b|
  {
    if b != [] {
      assert b[0] in b;
      assert forall x :: x in b[1..] ==> x in b;
      AsciiValid(b[1..]);
    }
  }

  /** Removing a final ASCII byte keeps the rest well formed. */
  lemma {:induction false} ValidDropAscii(a: Octets, x: U8)
    requires x < 0x80 && Valid(a + [x])
    ensures Valid(a)
    decreases |a|
  {
    if a != [] {
      var n := Lead(a + [x]);
      if n <= |a| {
        assert Lead(a) == n;
        assert (a + [x])[n..] == a[n..] + [x];
        ValidDropAscii(a[n..], x);
      } else {
        assert false;
      }
    }
  }

  // ---------- scalar values ----------

  /** A Unicode scalar value: any code point but a surrogate. */
  predicate Scalar(c: nat) {
    c <= 0xD7FF || 0xE000 <= c <= 0x10FFFF
  }

  /** Its UTF-8 form: six bits a continuation byte, the highest first, in as few bytes as it fits. */
  function Form(c: nat): (b: Octets)
    requires Scalar(c)
  {
    if c < 0x80 then [c]
    else if c < 0x800 then [0xC0 + c / 0x40, 0x80 + c % 0x40]
    else if c < 0x1_0000 then [0xE0 + c / 0x1000, 0x80 + c / 0x40 % 0x40, 0x80 + c % 0x40]
    else [0xF0 + c / 0x4_0000, 0x80 + c / 0x1000 % 0x40, 0x80 + c / 0x40 % 0x40, 0x80 + c % 0x40]
  }

  ghost predicate AllScalar(cs: seq<nat>) {
    forall i :: 0 <= i < |cs| ==> Scalar(cs[i])
  }

  function Text(cs: seq<nat>): (b: Octets)
    requires AllScalar(cs)
  {
    if cs == [] then [] else Form(cs[0]) + Text(cs[1..])
  }

  lemma {:induction false} LeadOfForm(c: nat, rest: Octets)
    requires Scalar(c)
    ensures Lead(Form(c) + rest) == |Form(c)|
  {
    hide Form;
    var (f, b) := (Form(c), Form(c) + rest);
    FormShape(c);
    if |f| == 1 {
      assert b[0] == f[0];
    } else if |f| == 2 {
      assert b[0] == f[0] && b[1] == f[1];
    } else if |f| == 3 {
      assert b[0] == f[0] && b[1] == f[1] && b[2] == f[2];
    } else {
      assert b[0] == f[0] && b[1] == f[1] && b[2] == f[2] && b[3] == f[3];
    }
  }

  lemma {:induction false} FormShape(c: nat)
    requires Scalar(c)
    ensures 1 <= |Form(c)| <= 4 && Lead(Form(c)) == |Form(c)|
  {
    if c < 0x800 {
      assert c >= 0x80 ==> 0xC2 <= 0xC0 + c / 0x40 <= 0xDF;
    } else if c < 0x1_0000 {
      ThreeShape(c);
    } else {
      FourShape(c);
    }
  }

  lemma {:induction false} ThreeShape(c: nat)
    requires Scalar(c) && 0x800 <= c < 0x1_0000
    ensures SecondOfThree(0xE0 + c / 0x1000, 0x80 + c / 0x40 % 0x40)
  {
    var (x, y) := (c / 0x1000, c / 0x40 % 0x40);
    assert c / 0x40 == 0x40 * x + y;
  }

  lemma {:induction false} FourShape(c: nat)
    requires Scalar(c) && 0x1_0000 <= c
    ensures SecondOfFour(0xF0 + c / 0x4_0000, 0x80 + c / 0x1000 % 0x40)
  {
    var (x, y) := (c / 0x4_0000, c / 0x1000 % 0x40);
    assert c / 0x1000 == 0x40 * x + y;
  }

  lemma {:induction false} SixBits(a: nat, r: nat)
    requires r < 0x40
    ensures (a * 0x40 + r) / 0x40 == a && (a * 0x40 + r) % 0x40 == r
  {
  }

  lemma {:induction false} FormOfThree(x: int, y: int, z: int) returns (c: nat)
    requires 0 <= x < 0x10 && 0 <= y < 0x40 && 0 <= z < 0x40 && (x > 0 || y >= 0x20) && !(x == 0xD && y >= 0x20)
    ensures Scalar(c) && Form(c) == [0xE0 + x, 0x80 + y, 0x80 + z]
  {
    c := (x * 0x40 + y) * 0x40 + z;
    SixBits(x * 0x40 + y, z);
    SixBits(x, y);
    assert c / 0x1000 == c / 0x40 / 0x40;
  }

  lemma {:induction false} FormOfFour(x: int, y: int, z: int, w: int) returns (c: nat)
    requires 0 <= x <= 4 && 0 <= y < 0x40 && 0 <= z < 0x40 && 0 <= w < 0x40
    requires (x > 0 || y >= 0x10) && (x < 4 || y < 0x10)
    ensures Scalar(c) && Form(c) == [0xF0 + x, 0x80 + y, 0x80 + z, 0x80 + w]
  {
    c := ((x * 0x40 + y) * 0x40 + z) * 0x40 + w;
    SixBits((x * 0x40 + y) * 0x40 + z, w);
    SixBits(x * 0x40 + y, z);
    SixBits(x, y);
    assert c / 0x1000 == c / 0x40 / 0x40 && c / 0x4_0000 == c / 0x40 / 0x40 / 0x40;
  }

  lemma {:induction false} FormOfLead(b: Octets) returns (c: nat)
    requires Lead(b) > 0
    ensures Scalar(c) && Form(c) == b[..Lead(b)]
  {
    hide Form;
    var n := Lead(b);
    if n == 1 {
      c := FormOfOne(b[0]);
      assert b[..n] == [b[0]];
    } else if n == 2 {
      c := FormOfTwo(b[0] - 0xC0, b[1] - 0x80);
      assert b[..n] == [b[0], b[1]];
    } else if n == 3 {
      c := FormOfThree(b[0] - 0xE0, b[1] - 0x80, b[2] - 0x80);
      assert b[..n] == [b[0], b[1], b[2]];
    } else {
      c := FormOfFour(b[0] - 0xF0, b[1] - 0x80, b[2] - 0x80, b[3] - 0x80);
      assert b[..n] == [b[0], b[1], b[2], b[3]];
    }
  }

  lemma {:induction false} FormOfOne(x: int) returns (c: nat)
    requires 0 <= x < 0x80
    ensures Scalar(c) && Form(c) == [x]
  {
    c := x;
  }

  lemma {:induction false} FormOfTwo(x: int, y: int) returns (c: nat)
    requires 2 <= x < 0x20 && 0 <= y < 0x40
    ensures Scalar(c) && Form(c) == [0xC0 + x, 0x80 + y]
  {
    c := x * 0x40 + y;
    SixBits(x, y);
  }

  /** A byte string is well formed exactly if it is the text of some scalar values. */
  lemma {:induction false} ValidExactly(b: Octets)
    ensures Valid(b) <==> exists cs :: AllScalar(cs) && Text(cs) == b
  {
    if Valid(b) {
      var cs := Scalars(b);
    }
    forall cs | AllScalar(cs) && Text(cs) == b
      ensures Valid(b)
    {
      TextValid(cs);
    }
  }

  lemma {:induction false} Scalars(b: Octets) returns (cs: seq<nat>)
    requires Valid(b)
    ensures AllScalar(cs) && Text(cs) == b
    decreases |b|
  {
    if b == [] {
      cs := [];
    } else {
      var n := Lead(b);
      var c := FormOfLead(b);
      var rest := Scalars(b[n..]);
      cs := [c] + rest;
      assert cs[1..] == rest;
      assert b == b[..n] + b[n..];
    }
  }

  lemma {:induction false} TextValid(cs: seq<nat>)
    requires AllScalar(cs)
    ensures Valid(Text(cs))
  {
    if cs != [] {
      var rest := Text(cs[1..]);
      TextValid(cs[1..]);
      LeadOfForm(cs[0], rest);
      assert (Form(cs[0]) + rest)[|Form(cs[0])|..] == rest;
    }
  }
}
