/** The MQP-2 address codec: `atyp | addr | port` with a big-endian port. */
module Addr {
  import opened Bytes
  import opened Net
  import Utf8

  /** A Rust `str`: well-formed UTF-8. */
  type Str = b: Octets | Utf8.Valid(b) witness []

  datatype TargetAddr = Ip(sock: SocketAddr) | Domain(name: Str, domainPort: U16)

  /** The reason text an error carries. */
  datatype Reason =
    | UnspecifiedV4 | UnspecifiedV6 | ScopedV6 | EmptyDomain | DomainTooLong
    | EmptyAddr | ShortV4 | UnspecifiedV4Target | ShortV6 | UnspecifiedV6Target
    | ShortDomain | BadDomainLen | ShortDomainBody
    | BadDgram | BadFragment
    | BadBatch | NoBatchCount | BadItemLen | BadItemBody | TrailingBytes

  datatype MqpError =
    | Malformed(why: Reason)
    | Refused(why: Reason)
    | BadDomainUtf8
    | BadAtyp(atyp: U8)
    | BadBatchCount(count: U8)

  const MAX_LEN: nat := 1 + 1 + 255 + 2

  /** An address that was validated and measured. */
  datatype AddrHeader = AddrHeader(addr: TargetAddr, len: nat)

  /** Validate and measure. */
  function Header(a: TargetAddr): (r: Result<AddrHeader, MqpError>) {
    match a
    case Ip(V4(ip, _)) =>
      if ip == ZERO4 then Err(Refused(UnspecifiedV4)) else Ok(AddrHeader(a, 1 + 4 + 2))
    case Ip(V6(ip, _, _, scopeId)) =>
      if ip == ZERO16 then Err(Refused(UnspecifiedV6))
      else if scopeId != 0 then Err(Refused(ScopedV6))
      else Ok(AddrHeader(a, 1 + 16 + 2))
    case Domain(name, _) =>
      if |name| == 0 then Err(Refused(EmptyDomain))
      else if |name| > 255 then Err(Refused(DomainTooLong))
      else Ok(AddrHeader(a, 1 + 1 + |name| + 2))
  }

  /** The wire form of an address `Header` accepts. */
  function Wire(a: TargetAddr): (b: Octets)
    requires Header(a).Ok?
  {
    match a
    case Ip(V4(ip, port)) => [0x01] + ip + Be16(port)
    case Ip(V6(ip, port, _, _)) => [0x04] + ip + Be16(port)
    case Domain(name, port) => [0x03, |name|] + name + Be16(port)
  }

  /** Append the wire form to `v`, validating on the way. */
  method Encode(a: TargetAddr, v: Octets) returns (out: Octets, r: Result<(), MqpError>)
    ensures r.Ok? <==> Header(a).Ok?
    ensures r.Ok? ==> out == v + Wire(a)
    ensures r.Err? ==> out == v && r.error == Header(a).error
  {
    out := v;
    match a {
      case Ip(V4(ip, port)) =>
        if ip == ZERO4 {
          return out, Err(Refused(UnspecifiedV4));
        }
        out := out + [0x01];
        out := out + ip;
        out := out + Be16(port);
        assert out == v + Wire(a);
      case Ip(V6(ip, port, _, scopeId)) =>
        if ip == ZERO16 {
          return out, Err(Refused(UnspecifiedV6));
        }
        if scopeId != 0 {
          return out, Err(Refused(ScopedV6));
        }
        out := out + [0x04];
        out := out + ip;
        out := out + Be16(port);
        assert out == v + Wire(a);
      case Domain(name, port) =>
        if |name| == 0 {
          return out, Err(Refused(EmptyDomain));
        }
        if |name| > 255 {
          return out, Err(Refused(DomainTooLong));
        }
        out := out + [0x03];
        out := out + [|name|];
        out := out + name;
        out := out + Be16(port);
        assert out == v + Wire(a);
    }
    r := Ok(());
  }

  /** The two IP arms of `EncodeInto`: `atyp`, octets, port. */
  method PutIp(buf: array<U8>, start: nat, atyp: U8, ip: Octets, port: U16) returns (n: nat)
    requires start + 1 + |ip| + 2 <= buf.Length
    modifies buf
    ensures n == 1 + |ip| + 2
    ensures buf[..] == Patch(old(buf[..]), start, [atyp] + ip + Be16(port))
  {
    ghost var was := buf[..];
    CopySlice(buf, start, [atyp]);
    CopySlice(buf, start + 1, ip);
    PatchPatch(was, start, [atyp], ip);
    CopySlice(buf, start + 1 + |ip|, Be16(port));
    PatchPatch(was, start, [atyp] + ip, Be16(port));
    n := 1 + |ip| + 2;
  }

  /** The domain arm of `EncodeInto`: `atyp`, length, name, port. */
  method PutDomain(buf: array<U8>, start: nat, name: Octets, port: U16) returns (n: nat)
    requires |name| <= 255 && start + 4 + |name| <= buf.Length
    modifies buf
    ensures n == 4 + |name|
    ensures buf[..] == Patch(old(buf[..]), start, [0x03, |name|] + name + Be16(port))
  {
    hide Patch, Be16;
    ghost var was := buf[..];
    ghost var head: Octets := [0x03, |name|];
    assert [0x03] + [|name|] == head;
    CopySlice(buf, start, [0x03]);
    CopySlice(buf, start + 1, [|name|]);
    PatchPatch(was, start, [0x03], [|name|]);
    CopySlice(buf, start + 2, name);
    PatchPatch(was, start, head, name);
    CopySlice(buf, start + 2 + |name|, Be16(port));
    PatchPatch(was, start, head + name, Be16(port));
    n := 4 + |name|;
  }

  /** Write a validated header into `buf[start..]`, which the caller made long enough. */
  method EncodeInto(h: AddrHeader, buf: array<U8>, start: nat) returns (n: nat)
    requires Header(h.addr) == Ok(h)
    requires start + h.len <= buf.Length
    modifies buf
    ensures n == h.len == |Wire(h.addr)|
    ensures buf[..] == Patch(old(buf[..]), start, Wire(h.addr))
  {
    match h.addr {
      case Ip(V4(ip, port)) =>
        n := PutIp(buf, start, 0x01, ip, port);
      case Ip(V6(ip, port, _, _)) =>
        n := PutIp(buf, start, 0x04, ip, port);
      case Domain(name, port) =>
        n := PutDomain(buf, start, name, port);
    }
  }

  function Decode(b: Octets): (r: Result<(TargetAddr, nat), MqpError>) {
    if b == [] then Err(Malformed(EmptyAddr))
    else if b[0] == 0x01 then
      if |b| < 7 then Err(Malformed(ShortV4))
      else if b[1..5] == ZERO4 then Err(Refused(UnspecifiedV4Target))
      else Ok((Ip(V4(b[1..5], FromBe16(b[5], b[6]))), 7))
    else if b[0] == 0x04 then
      if |b| < 19 then Err(Malformed(ShortV6))
      else if b[1..17] == ZERO16 then Err(Refused(UnspecifiedV6Target))
      else Ok((Ip(V6(b[1..17], FromBe16(b[17], b[18]), 0, 0)), 19))
    else if b[0] == 0x03 then
      if |b| < 2 then Err(Malformed(ShortDomain))
      else
        var n: nat := b[1];
        if n == 0 then Err(Malformed(BadDomainLen))
        else if |b| < 2 + n + 2 then Err(Malformed(ShortDomainBody))
        else if !Utf8.Valid(b[2..2 + n]) then Err(BadDomainUtf8)
        else Ok((Domain(b[2..2 + n], FromBe16(b[2 + n], b[3 + n])), 4 + n))
    else Err(BadAtyp(b[0]))
  }

  /** The address as the far end sees it: the wire carries no IPv6 flow information. */
  function OnWire(a: TargetAddr): (r: TargetAddr) {
    match a
    case Ip(V6(ip, port, _, scopeId)) => Ip(V6(ip, port, 0, scopeId))
    case _ => a
  }

  /** `header` measures what the encoders write, and the fixed buffers are large enough for it. */
  lemma {:induction false} HeaderMeasures(a: TargetAddr)
    requires Header(a).Ok?
    ensures Header(a).value.addr == a && Header(a).value.len == |Wire(a)|
    ensures 5 <= |Wire(a)| <= MAX_LEN
  {
  }

  /** The bytes of an address, position by position: the type, the address, and the port with its high byte first. */
  lemma {:induction false} WireLayout(a: TargetAddr)
    requires Header(a).Ok?
    ensures var b := Wire(a);
            match a
            case Ip(V4(ip, port)) => |b| == 7 && b[0] == 1 && b[1..5] == ip && Weight2(b[6], b[5]) == port
            case Ip(V6(ip, port, _, _)) => |b| == 19 && b[0] == 4 && b[1..17] == ip && Weight2(b[18], b[17]) == port
            case Domain(name, port) =>
              && |b| == 4 + |name| && b[0] == 3 && b[1] == |name| && b[2..2 + |name|] == name
              && Weight2(b[3 + |name|], b[2 + |name|]) == port
  {
    hide Be16;
    var b := Wire(a);
    match a {
      case Ip(V4(_, port)) =>
        Be16Weighs(port);
        assert b[5] == Be16(port)[0] && b[6] == Be16(port)[1];
      case Ip(V6(_, port, _, _)) =>
        Be16Weighs(port);
        assert b[17] == Be16(port)[0] && b[18] == Be16(port)[1];
      case Domain(name, port) =>
        Be16Weighs(port);
        assert b[2 + |name|] == Be16(port)[0] && b[3 + |name|] == Be16(port)[1];
    }
  }

  /** The type byte, the session with its low byte first, and what follows. */
  ghost predicate StartsWith(b: Octets, ty: U8, sess: U32, rest: Octets) {
    && |b| == 5 + |rest| && b[0] == ty && Weight4(b[1], b[2], b[3], b[4]) == sess
    && b[5..] == rest
  }

  lemma {:induction false} SessionLayout(ty: U8, sess: U32, rest: Octets)
    ensures StartsWith([ty] + Le32(sess) + rest, ty, sess, rest)
  {
    hide Le32;
    AfterFive(ty, Le32(sess), rest);
    Le32Weighs(sess);
  }

  lemma {:induction false} DecodeOfV4(ip: Octets4, port: U16, tail: Octets)
    requires ip != ZERO4
    ensures Decode([0x01] + ip + Be16(port) + tail) == Ok((Ip(V4(ip, port)), 7))
  {
    var b := [0x01] + ip + Be16(port) + tail;
    Be16Inverse(port);
    assert b[1..5] == ip && b[5] == Be16(port)[0] && b[6] == Be16(port)[1];
  }

  lemma {:induction false} DecodeOfV6(ip: Octets16, port: U16, tail: Octets)
    requires ip != ZERO16
    ensures Decode([0x04] + ip + Be16(port) + tail) == Ok((Ip(V6(ip, port, 0, 0)), 19))
  {
    var b := [0x04] + ip + Be16(port) + tail;
    Be16Inverse(port);
    assert b[1..17] == ip && b[17] == Be16(port)[0] && b[18] == Be16(port)[1];
  }

  lemma {:induction false} DecodeOfDomain(name: Str, port: U16, tail: Octets)
    requires 0 < |name| <= 255
    ensures Decode([0x03, |name|] + name + Be16(port) + tail) == Ok((Domain(name, port), 4 + |name|))
  {
    var (b, n) := ([0x03, |name|] + name + Be16(port) + tail, |name|);
    Be16Inverse(port);
    assert b[2..2 + n] == name && b[2 + n] == Be16(port)[0] && b[3 + n] == Be16(port)[1];
  }

  /** Whatever follows an encoding, decoding returns the address and exactly the bytes it took. */
  lemma {:induction false} DecodeOfWire(a: TargetAddr, tail: Octets)
    requires Header(a).Ok?
    ensures Decode(Wire(a) + tail) == Ok((OnWire(a), |Wire(a)|))
  {
    match a {
      case Ip(V4(ip, port)) =>
        DecodeOfV4(ip, port, tail);
      case Ip(V6(ip, port, _, _)) =>
        DecodeOfV6(ip, port, tail);
      case Domain(name, port) =>
        DecodeOfDomain(name, port, tail);
    }
  }

  /** The encoders lose exactly the flow information: the address itself comes back iff it has none. */
  lemma {:induction false} RoundTripExactly(a: TargetAddr, tail: Octets)
    requires Header(a).Ok?
    ensures Decode(Wire(a) + tail) == Ok((a, |Wire(a)|)) <==> !(a.Ip? && a.sock.V6? && a.sock.flowinfo != 0)
  {
    DecodeOfWire(a, tail);
  }

  /** `b` ends in the two port bytes after `head`. */
  lemma {:induction false} EndsInPort(b: Octets, head: Octets, p0: U8, p1: U8)
    requires |b| == |head| + 2 && b[..|head|] == head && b[|head|] == p0 && b[|head| + 1] == p1
    ensures b == head + Be16(FromBe16(p0, p1))
  {
    FromBe16Inverse(p0, p1);
  }

  /** Every prefix the decoder accepts is the encoding of the address it returns. */
  lemma {:induction false} WireOfDecode(b: Octets)
    requires Decode(b).Ok?
    ensures var (a, n) := Decode(b).value;
            n <= |b| && Header(a).Ok? && Wire(a) == b[..n] && OnWire(a) == a
  {
    var (a, n) := Decode(b).value;
    match a {
      case Ip(V4(ip, _)) =>
        EndsInPort(b[..7], [0x01] + ip, b[5], b[6]);
      case Ip(V6(ip, _, _, _)) =>
        EndsInPort(b[..19], [0x04] + ip, b[17], b[18]);
      case Domain(name, _) =>
        EndsInPort(b[..n], [0x03, |name|] + name, b[n - 2], b[n - 1]);
    }
  }

  lemma {:induction false} DecodeOfPrefix(a: TargetAddr, b: Octets)
    requires Header(a).Ok? && Wire(a) <= b
    ensures Decode(b) == Ok((OnWire(a), |Wire(a)|))
  {
    var rest := b[|Wire(a)|..];
    assert b == Wire(a) + rest;
    DecodeOfWire(a, rest);
  }

  /** The decoder accepts exactly the byte strings that start with some encoding. */
  lemma {:induction false} DecodeAcceptsExactly(b: Octets)
    ensures Decode(b).Ok? <==> exists a :: Header(a).Ok? && Wire(a) <= b
  {
    if Decode(b).Ok? {
      WireOfDecode(b);
    }
    forall a | Header(a).Ok? && Wire(a) <= b
      ensures Decode(b).Ok?
    {
      DecodeOfPrefix(a, b);
    }
  }

  /** The code is prefix-free: no encoding is a proper prefix of another. */
  lemma {:induction false} PrefixFree(a: TargetAddr, c: TargetAddr)
    requires Header(a).Ok? && Header(c).Ok? && Wire(a) <= Wire(c)
    ensures Wire(a) == Wire(c) && OnWire(a) == OnWire(c)
  {
    DecodeOfPrefix(a, Wire(c));
    DecodeOfPrefix(c, Wire(c));
  }

  // ---------- the session prefix shared by datagrams and batches ----------

  lemma {:induction false} AfterFive(ty: U8, w: Octets, rest: Octets)
    requires |w| == 4
    ensures var b := [ty] + w + rest;
            && b[0] == ty && b[1] == w[0] && b[2] == w[1] && b[3] == w[2] && b[4] == w[3]
            && b[5..] == rest
  {
  }

  /** `type | sess | addr | rest` gives back all four. */
  lemma {:induction false} SessionPrefixDecodes(ty: U8, sess: U32, a: TargetAddr, rest: Octets)
    requires Header(a).Ok?
    ensures var b := [ty] + Le32(sess) + (Wire(a) + rest);
            && b[0] == ty && FromLe32(b[1], b[2], b[3], b[4]) == sess
            && Decode(b[5..]) == Ok((OnWire(a), |Wire(a)|)) && b[5 + |Wire(a)|..] == rest
  {
    var (b, tail) := ([ty] + Le32(sess) + (Wire(a) + rest), Wire(a) + rest);
    AfterFive(ty, Le32(sess), tail);
    Le32Inverse(sess);
    DecodeOfWire(a, rest);
    assert tail[|Wire(a)|..] == rest;
    assert b[5 + |Wire(a)|..] == b[5..][|Wire(a)|..];
  }

  lemma {:induction false} FirstFive(b: Octets)
    requires |b| >= 5
    ensures b == [b[0]] + [b[1], b[2], b[3], b[4]] + b[5..]
  {
  }

  /** And whatever decodes that way is put together from those parts. */
  lemma {:induction false} SessionPrefixOfDecode(b: Octets)
    requires |b| >= 5 && Decode(b[5..]).Ok?
    ensures var (a, n) := Decode(b[5..]).value;
            && 5 + n <= |b| && Header(a).Ok?
            && b == [b[0]] + Le32(FromLe32(b[1], b[2], b[3], b[4])) + (Wire(a) + b[5 + n..])
  {
    var (a, n) := Decode(b[5..]).value;
    WireOfDecode(b[5..]);
    FirstFive(b);
    FromLe32Inverse(b[1], b[2], b[3], b[4]);
    assert b[5..] == b[5..][..n] + b[5..][n..] && b[5..][n..] == b[5 + n..];
  }
}
