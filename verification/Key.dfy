/** DNS cache keys: name normalisation, the per-(host, port) key and the host-only key. */
module Key {
  import opened Bytes
  import Utf8

  const DOT: U8 := 0x2E
  const MAX_HOST: nat := 255
  const DNS_KEY_BUF: nat := 255 + 1 + 5
  const DNS_HOST_KEY_BUF: nat := 255

  function LowerByte(x: U8): (y: U8) {
    if 0x41 <= x <= 0x5A then x + 0x20 else x
  }

  function Lower(b: Octets): (r: Octets)
    ensures |r| == |b|
    ensures forall i :: 0 <= i < |b| ==> r[i] == LowerByte(b[i])
  {
    seq(|b|, i requires 0 <= i < |b| => LowerByte(b[i]))
  }

  /** The name without its trailing dots, keeping at least one byte of a non-empty name. */
  function NameBytes(host: Octets): (r: Octets)
    ensures r <= host
    ensures |r| > 1 ==> r[|r| - 1] != DOT
    ensures host != [] ==> r != []
    ensures forall i :: |r| <= i < |host| ==> host[i] == DOT
    decreases |host|
  {
    if |host| > 1 && host[|host| - 1] == DOT then NameBytes(host[..|host| - 1]) else host
  }

  method DnsNameBytes(host: Octets) returns (hb: Octets)
    ensures hb == NameBytes(host)
  {
    hb := host;
    while |hb| > 1 && hb[|hb| - 1] == DOT
      invariant NameBytes(hb) == NameBytes(host)
      decreases |hb|
    {
      hb := hb[..|hb| - 1];
    }
  }

  /** The normal form under which two spellings of one name compare equal. */
  function Normal(host: Octets): (r: Octets) {
    Lower(NameBytes(host))
  }

  /** Canonical decimal digits of `n`. */
  function Decimal(n: nat): (d: Octets) {
    if n < 10 then [0x30 + n] else Decimal(n / 10) + [0x30 + n % 10]
  }

  predicate IsDigit(x: U8) {
    0x30 <= x <= 0x39
  }

  /** The number a digit string denotes. */
  function Value(d: Octets): (n: int) {
    if d == [] then 0 else 10 * Value(d[..|d| - 1]) + d[|d| - 1] - 0x30
  }

  /** Digits only, at least one, and no leading zero except in "0" itself. */
  predicate Canonical(d: Octets) {
    && d != []
    && (forall x :: x in d ==> IsDigit(x))
    && (|d| > 1 ==> d[0] != 0x30)
  }

  function DnsKeyOwned(host: Octets, port: U16): (k: Octets) {
    Normal(host) + [0] + Decimal(port)
  }

  function DnsHostKeyOwned(host: Octets): (k: Octets) {
    Normal(host)
  }

  /**
    Build the key in `buf` and return the view of it. A `str` argument is well-formed UTF-8;
    the final `from_utf8` can therefore not fail, and only the length limit refuses a host.
   */
  method DnsKey(host: Octets, port: U16, buf: array<U8>) returns (r: Option<Octets>)
    requires Utf8.Valid(host)
    requires buf.Length == DNS_KEY_BUF
    modifies buf
    ensures r.None? <==> |NameBytes(host)| > MAX_HOST
    ensures r.Some? ==> r.value == DnsKeyOwned(host, port) && r.value <= buf[..]
  {
    var hb := DnsNameBytes(host);
    if |hb| + 1 + 5 > DNS_KEY_BUF {
      return None;
    }
    LowerInto(hb, buf);
    var pos := |hb|;
    CopySlice(buf, pos, [0]);
    pos := pos + 1;
    var digits, i := PortDigits(port);
    CopySlice(buf, pos, digits[i..]);
    pos := pos + (5 - i);
    assert buf[..pos] == DnsKeyOwned(host, port);
    KeyValid(host, port);
    if Utf8.Valid(buf[..pos]) {
      r := Some(buf[..pos]);
    } else {
      r := None;
    }
  }

  /** The lowercasing loop of both builders. */
  method LowerInto(hb: Octets, buf: array<U8>)
    requires |hb| <= buf.Length
    modifies buf
    ensures buf[..|hb|] == Lower(hb)
  {
    var j := 0;
    while j < |hb|
      invariant 0 <= j <= |hb|
      invariant forall i :: 0 <= i < j ==> buf[i] == LowerByte(hb[i])
    {
      buf[j] := LowerByte(hb[j]);
      j := j + 1;
    }
  }

  /** The digit loop of `DnsKey`: fills a five-byte array from the right. */
  method PortDigits(port: U16) returns (digits: array<U8>, i: nat)
    ensures fresh(digits) && digits.Length == 5 && i <= 5
    ensures digits[i..] == Decimal(port)
  {
    digits := new U8[5](_ => 0);
    var p: nat := port;
    i := 5;
    DecimalWidth(port, 5);
    while true
      invariant i <= 5 && |Decimal(p)| <= i
      invariant Decimal(port) == Decimal(p) + digits[i..]
      decreases p
    {
      i := i - 1;
      ghost var tail := digits[i + 1..];
      digits[i] := 0x30 + p % 10;
      assert digits[i..] == [0x30 + p % 10] + tail;
      p := p / 10;
      if p == 0 {
        break;
      }
    }
  }

  /** Build the host-only key in `buf`. */
  method DnsHostKey(host: Octets, buf: array<U8>) returns (r: Option<Octets>)
    requires Utf8.Valid(host)
    requires buf.Length == DNS_HOST_KEY_BUF
    modifies buf
    ensures r.None? <==> |NameBytes(host)| > MAX_HOST
    ensures r.Some? ==> r.value == DnsHostKeyOwned(host) && r.value <= buf[..]
  {
    var hb := DnsNameBytes(host);
    if |hb| > DNS_HOST_KEY_BUF {
      return None;
    }
    LowerInto(hb, buf);
    NormalValid(host);
    r := if Utf8.Valid(buf[..|hb|]) then Some(buf[..|hb|]) else None;
  }

  // ---------- decimal ports ----------

  lemma {:induction false} DecimalWidth(n: nat, w: nat)
    requires n < Pow10(w) && w > 0
    ensures 1 <= |Decimal(n)| <= w
    decreases n
  {
    if n >= 10 {
      DecimalWidth(n / 10, w - 1);
    }
  }

  function Pow10(w: nat): (r: nat) {
    if w == 0 then 1 else 10 * Pow10(w - 1)
  }

  /** `Decimal` prints the number it is given, in canonical form. */
  lemma {:induction false} DecimalCanonical(n: nat)
    ensures Canonical(Decimal(n)) && Value(Decimal(n)) == n
    ensures n > 0 ==> Decimal(n)[0] != 0x30
    decreases n
  {
    if n >= 10 {
      DecimalCanonical(n / 10);
      assert Decimal(n)[..|Decimal(n)| - 1] == Decimal(n / 10);
    }
  }

  lemma {:induction false} ValuePositive(d: Octets)
    requires Canonical(d)
    ensures Value(d) >= 0
    ensures |d| > 1 ==> Value(d) >= 10
    decreases |d|
  {
    var init := d[..|d| - 1];
    if |d| == 1 {
      assert init == [] && d[0] in d;
    } else {
      assert d[|d| - 1] in d && init[0] in d && IsDigit(init[0]);
      assert forall x :: x in init ==> x in d;
      ValuePositive(init);
      if |init| == 1 {
        assert init[..0] == [];
      }
    }
  }

  /** The canonical form is unique: it is the only digit string `Decimal` could print. */
  lemma {:induction false} CanonicalUnique(d: Octets)
    requires Canonical(d)
    ensures Value(d) >= 0 && Decimal(Value(d)) == d
    decreases |d|
  {
    ValuePositive(d);
    var (init, x) := (d[..|d| - 1], d[|d| - 1]);
    assert d == init + [x] && x in d;
    if |d| > 1 {
      assert forall y :: y in init ==> y in d;
      CanonicalUnique(init);
      assert Value(d) / 10 == Value(init) && Value(d) % 10 == x - 0x30;
    }
  }

  // ---------- normal forms ----------

  lemma {:induction false} LowerLead(b: Octets)
    ensures Utf8.Lead(Lower(b)) == Utf8.Lead(b)
  {
  }

  /** ASCII lowercasing neither breaks nor repairs UTF-8. */
  lemma {:induction false} LowerPreservesUtf8(b: Octets)
    ensures Utf8.Valid(Lower(b)) <==> Utf8.Valid(b)
    decreases |b|
  {
    LowerLead(b);
    var n := Utf8.Lead(b);
    if b != [] && n > 0 {
      assert Lower(b)[n..] == Lower(b[n..]);
      LowerPreservesUtf8(b[n..]);
    }
  }

  lemma {:induction false} NameBytesValid(host: Octets)
    requires Utf8.Valid(host)
    ensures Utf8.Valid(NameBytes(host))
    decreases |host|
  {
    if |host| > 1 && host[|host| - 1] == DOT {
      assert host == host[..|host| - 1] + [DOT];
      Utf8.ValidDropAscii(host[..|host| - 1], DOT);
      NameBytesValid(host[..|host| - 1]);
    }
  }

  lemma {:induction false} NormalValid(host: Octets)
    requires Utf8.Valid(host)
    ensures Utf8.Valid(Normal(host))
  {
    NameBytesValid(host);
    LowerPreservesUtf8(NameBytes(host));
  }

  lemma {:induction false} PortSuffixValid(port: U16)
    ensures Utf8.Valid([0] + Decimal(port))
  {
    DecimalCanonical(port);
    forall x | x in [0] + Decimal(port)
      ensures x < 0x80
    {
    }
    Utf8.AsciiValid([0] + Decimal(port));
  }

  lemma {:induction false} KeyValid(host: Octets, port: U16)
    requires Utf8.Valid(host)
    ensures Utf8.Valid(DnsKeyOwned(host, port))
  {
    NormalValid(host);
    PortSuffixValid(port);
    Utf8.ValidConcat3(Normal(host), [0], Decimal(port));
  }

  /** `x` is the capital letter whose small form is `y`: 'A' is 0x41, 'Z' 0x5A, and small letters are 0x20 above. */
  predicate CapitalOf(x: U8, y: U8) {
    0x41 <= x <= 0x5A && y == x + 0x20
  }

  /** The two bytes are one letter in either case, or equal. */
  predicate SameLetter(x: U8, y: U8) {
    x == y || CapitalOf(x, y) || CapitalOf(y, x)
  }

  lemma {:induction false} LowerMeansSameLetter(x: U8, y: U8)
    ensures LowerByte(x) == LowerByte(y) <==> SameLetter(x, y)
  {
  }

  /** Two spellings that agree letter by letter once some trailing dots of each are ignored. */
  ghost predicate SameName(a: Octets, b: Octets) {
    exists m: nat, n: nat :: SameNameAt(a, b, m, n)
  }

  ghost predicate SameNameAt(a: Octets, b: Octets, m: nat, n: nat) {
    && m <= |a| && n <= |b|
    && (m == 0 <==> a == []) && (n == 0 <==> b == [])
    && (forall i :: m <= i < |a| ==> a[i] == DOT)
    && (forall i :: n <= i < |b| ==> b[i] == DOT)
    && m == n && (forall i :: 0 <= i < m ==> SameLetter(a[i], b[i]))
  }

  lemma {:induction false} LowerMeansSameLetters(a: Octets, b: Octets)
    ensures Lower(a) == Lower(b) <==> |a| == |b| && forall i :: 0 <= i < |a| ==> SameLetter(a[i], b[i])
  {
    forall x: U8, y: U8
      ensures LowerByte(x) == LowerByte(y) <==> SameLetter(x, y)
    {
      LowerMeansSameLetter(x, y);
    }
    if Lower(a) == Lower(b) {
      forall i | 0 <= i < |a|
        ensures SameLetter(a[i], b[i])
      {
        assert Lower(a)[i] == Lower(b)[i];
      }
    }
  }

  lemma {:induction false} NameBytesLower(host: Octets)
    ensures NameBytes(Lower(host)) == Lower(NameBytes(host))
    decreases |host|
  {
    if |host| > 1 && host[|host| - 1] == DOT {
      assert Lower(host)[..|host| - 1] == Lower(host[..|host| - 1]);
      NameBytesLower(host[..|host| - 1]);
    }
  }

  lemma {:induction false} NameBytesIgnoresDots(host: Octets, m: nat)
    requires m <= |host| && (m == 0 ==> host == [])
    requires forall i :: m <= i < |host| ==> host[i] == DOT
    ensures NameBytes(host[..m]) == NameBytes(host)
    decreases |host|
  {
    if m == |host| {
      assert host[..m] == host;
    } else {
      var init := host[..|host| - 1];
      assert init[..m] == host[..m];
      NameBytesIgnoresDots(init, m);
    }
  }

  lemma {:induction false} NormalGivesSameName(a: Octets, b: Octets)
    requires Normal(a) == Normal(b)
    ensures SameName(a, b)
  {
    hide NameBytes, Lower, SameLetter;
    var (m, n) := (|NameBytes(a)|, |NameBytes(b)|);
    assert a[..m] == NameBytes(a) && b[..n] == NameBytes(b);
    LowerMeansSameLetters(a[..m], b[..n]);
    forall i | 0 <= i < m
      ensures SameLetter(a[i], b[i])
    {
      assert a[i] == a[..m][i] && b[i] == b[..n][i];
    }
    assert SameNameAt(a, b, m, n);
  }

  lemma {:induction false} SameNameGivesNormal(a: Octets, b: Octets, m: nat, n: nat)
    requires SameNameAt(a, b, m, n)
    ensures Normal(a) == Normal(b)
  {
    hide NameBytes, Lower, SameLetter;
    NameBytesIgnoresDots(a, m);
    NameBytesIgnoresDots(b, n);
    forall i | 0 <= i < m
      ensures SameLetter(a[..m][i], b[..n][i])
    {
      assert a[i] == a[..m][i] && b[i] == b[..n][i];
    }
    LowerMeansSameLetters(a[..m], b[..n]);
    NameBytesLower(a[..m]);
    NameBytesLower(b[..n]);
  }

  /** Normal forms are equal exactly for two spellings of the same name. */
  lemma {:induction false} NormalMeansSameName(a: Octets, b: Octets)
    ensures Normal(a) == Normal(b) <==> SameName(a, b)
  {
    hide Normal, SameNameAt;
    if Normal(a) == Normal(b) {
      NormalGivesSameName(a, b);
    }
    if SameName(a, b) {
      var m: nat, n: nat :| SameNameAt(a, b, m, n);
      SameNameGivesNormal(a, b, m, n);
    }
  }

  /** A sequence splits at its last NUL in one way only. */
  lemma {:induction false} NulNotLater(a: Octets, d: Octets, b: Octets, e: Octets)
    requires a + [0] + d == b + [0] + e && 0 !in d
    ensures |b| <= |a|
  {
    var s := a + [0] + d;
    assert forall k :: |a| < k < |s| ==> s[k] == d[k - |a| - 1] && s[k] in d;
    assert s[|b|] == 0;
  }

  lemma {:induction false} LastNulSplit(a: Octets, d: Octets, b: Octets, e: Octets)
    requires a + [0] + d == b + [0] + e
    requires 0 !in d && 0 !in e
    ensures a == b && d == e
  {
    var s := a + [0] + d;
    assert s[|a|] == 0 && s[|b|] == 0;
    NulNotLater(a, d, b, e);
    NulNotLater(b, e, a, d);
    assert s[..|a|] == a && s[..|b|] == b && s[|a| + 1..] == d && s[|b| + 1..] == e;
  }

  /** The key is injective in (name, port): equal keys mean one port and one name. */
  lemma {:induction false} KeyInjective(a: Octets, p: U16, b: Octets, q: U16)
    ensures DnsKeyOwned(a, p) == DnsKeyOwned(b, q) <==> p == q && SameName(a, b)
  {
    NormalMeansSameName(a, b);
    DecimalCanonical(p);
    DecimalCanonical(q);
    if DnsKeyOwned(a, p) == DnsKeyOwned(b, q) {
      LastNulSplit(Normal(a), Decimal(p), Normal(b), Decimal(q));
    }
  }

  /** Every host within the wire limit gives a key of at most 261 bytes. */
  lemma {:induction false} KeyFits(host: Octets, port: U16)
    ensures |NameBytes(host)| <= MAX_HOST ==> |DnsKeyOwned(host, port)| <= DNS_KEY_BUF
    ensures |DnsKeyOwned(host, port)| >= |NameBytes(host)| + 2
  {
    DecimalWidth(port, 5);
  }

  /** A key, byte by byte: the name in small letters, a NUL, and the port in decimal without leading zeros. */
  lemma {:induction false} KeyLayout(host: Octets, port: U16)
    ensures var (k, n) := (DnsKeyOwned(host, port), |NameBytes(host)|);
            && |k| > n && k[n] == 0 && Canonical(k[n + 1..]) && Value(k[n + 1..]) == port
            && n <= |host| && forall i :: 0 <= i < n ==> SameLetter(host[i], k[i]) && !(0x41 <= k[i] <= 0x5A)
  {
    var (k, n) := (DnsKeyOwned(host, port), |NameBytes(host)|);
    DecimalCanonical(port);
    assert k[n + 1..] == Decimal(port);
    forall i | 0 <= i < n
      ensures SameLetter(host[i], k[i]) && !(0x41 <= k[i] <= 0x5A)
    {
      assert k[i] == Normal(host)[i] == LowerByte(NameBytes(host)[i]);
    }
  }
}
