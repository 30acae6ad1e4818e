/** MQP-2 datagrams: `type | sess u32 LE | addr | payload`, and the cached prefix of a steady destination. */
module Datagram {
  import opened Bytes
  import opened Addr

  const MQP_DGRAM_TYPE: U8 := 0x02
  const DGRAM_PREFIX_LEN: nat := 1 + 4
  const PREFIX_MAX: nat := DGRAM_PREFIX_LEN + MAX_LEN

  /** Everything before the payload. */
  function Prefix(sess: U32, a: TargetAddr): (b: Octets)
    requires Header(a).Ok?
    ensures |b| == DGRAM_PREFIX_LEN + |Wire(a)| && DGRAM_PREFIX_LEN + 5 <= |b| <= PREFIX_MAX
  {
    HeaderMeasures(a);
    [MQP_DGRAM_TYPE] + Le32(sess) + Wire(a)
  }

  /** The reference encoder: validate, measure, refuse what exceeds the limit. */
  function Encoded(sess: U32, a: TargetAddr, payload: Octets, limit: nat): (r: Option<Octets>) {
    if Header(a).Ok? && |Prefix(sess, a)| + |payload| <= limit then Some(Prefix(sess, a) + payload) else None
  }

  method EncodeWithHeader(sess: U32, h: AddrHeader, payload: Octets, limit: nat) returns (r: Option<Octets>)
    requires Header(h.addr) == Ok(h)
    ensures r == Encoded(sess, h.addr, payload, limit)
  {
    HeaderMeasures(h.addr);
    var total := DGRAM_PREFIX_LEN + h.len + |payload|;
    if total > limit {
      return None;
    }
    var v := [MQP_DGRAM_TYPE];
    v := v + Le32(sess);
    var hdr := new U8[h.len](_ => 0);
    var n := EncodeInto(h, hdr, 0);
    assert hdr[..] == Wire(h.addr);
    v := v + hdr[..];
    v := v + payload;
    r := Some(v);
  }

  method EncodeRefWithLimit(sess: U32, a: TargetAddr, payload: Octets, limit: nat) returns (r: Option<Octets>)
    ensures r == Encoded(sess, a, payload, limit)
  {
    var h := Header(a);
    if h.Err? {
      return None;
    }
    HeaderMeasures(a);
    r := EncodeWithHeader(sess, h.value, payload, limit);
  }

  method EncodeWithPrefix(prefix: Octets, payload: Octets, limit: nat) returns (r: Option<Octets>)
    ensures r == if |prefix| + |payload| > limit then None else Some(prefix + payload)
  {
    var total := |prefix| + |payload|;
    if total > limit {
      return None;
    }
    var v := prefix;
    v := v + payload;
    r := Some(v);
  }

  function PayloadCap(limit: nat, a: TargetAddr): (n: nat) {
    match Header(a)
    case Ok(h) => SatSub(limit, DGRAM_PREFIX_LEN + h.len)
    case Err(_) => 0
  }

  function DecodeDatagram(b: Octets): (r: Result<(U32, TargetAddr, Octets), MqpError>) {
    if |b| < DGRAM_PREFIX_LEN + 1 || b[0] != MQP_DGRAM_TYPE then Err(Malformed(BadDgram))
    else
      match Decode(b[DGRAM_PREFIX_LEN..])
      case Err(e) => Err(e)
      case Ok((a, n)) =>
        WireOfDecode(b[DGRAM_PREFIX_LEN..]);
        Ok((FromLe32(b[1], b[2], b[3], b[4]), a, b[DGRAM_PREFIX_LEN + n..]))
  }

  /** Decoding an encoded datagram gives back session, address and payload. */
  lemma {:induction false} DecodeOfEncoded(sess: U32, a: TargetAddr, payload: Octets, limit: nat)
    requires Encoded(sess, a, payload, limit).Some?
    ensures DecodeDatagram(Encoded(sess, a, payload, limit).value) == Ok((sess, OnWire(a), payload))
  {
    SessionPrefixDecodes(MQP_DGRAM_TYPE, sess, a, payload);
    Assoc([MQP_DGRAM_TYPE] + Le32(sess), Wire(a), payload);
  }

  /** Every datagram the decoder accepts is what the encoder makes of its parts. */
  lemma {:induction false} EncodedOfDecode(b: Octets, limit: nat)
    requires DecodeDatagram(b).Ok?
    ensures var (sess, a, payload) := DecodeDatagram(b).value;
            Encoded(sess, a, payload, limit) == if |b| <= limit then Some(b) else None
  {
    var (sess, a, payload) := DecodeDatagram(b).value;
    SessionPrefixOfDecode(b);
    Assoc([MQP_DGRAM_TYPE] + Le32(sess), Wire(a), payload);
  }

  /**
    When the limit covers prefix and header, a payload encodes iff it is at most the payload cap;
    below that limit nothing encodes, not even the empty payload whose cap reads 0.
   */
  lemma {:induction false} EncodesIffWithinCap(sess: U32, a: TargetAddr, payload: Octets, limit: nat)
    requires Header(a).Ok?
    ensures Encoded(sess, a, payload, limit).Some? <==>
            limit >= DGRAM_PREFIX_LEN + Header(a).value.len && |payload| <= PayloadCap(limit, a)
    ensures limit < DGRAM_PREFIX_LEN + Header(a).value.len ==> PayloadCap(limit, a) == 0
  {
    HeaderMeasures(a);
  }

  // ---------- the prefix cache ----------

  datatype Request = Request(sess: U32, addr: TargetAddr)

  class DgramPrefixCache {
    var sess: U32
    var addr: Option<TargetAddr>
    const prefix: array<U8>
    var prefixLen: nat
    var validations: nat

    /** The stored prefix is the one the encoder would write for the stored key. */
    ghost predicate Valid()
      reads this, prefix
    {
      && prefix.Length == PREFIX_MAX && prefixLen <= PREFIX_MAX
      && (prefixLen == 0 ==> addr.None?)
      && (prefixLen != 0 ==> addr.Some? && Header(addr.value).Ok? && prefix[..prefixLen] == Prefix(sess, addr.value))
    }

    /** The destination the cache answers without validating. */
    ghost function Entry(): (r: Option<Request>)
      requires Valid()
      reads this, prefix
    {
      if prefixLen == 0 then None else Some(Request(sess, addr.value))
    }

    constructor ()
      ensures Valid() && fresh(prefix) && Entry() == None && validations == 0
    {
      sess, addr, prefixLen, validations := 0, None, 0, 0;
      prefix := new U8[PREFIX_MAX](_ => 0);
    }

    /** Hit: the stored bytes. Miss: one validation and one encoding, or a cleared entry when refused. */
    method PrefixFor(s: U32, a: TargetAddr) returns (r: Option<Octets>)
      requires Valid()
      modifies this, prefix
      ensures Valid()
      ensures r == if Header(a).Ok? then Some(Prefix(s, a)) else None
      ensures Entry() == if Header(a).Ok? then Some(Request(s, a)) else None
      ensures validations == old(validations) +
                             if Header(a).Ok? && old(Entry()) != Some(Request(s, a)) then 1 else 0
    {
      if prefixLen != 0 && sess == s && addr == Some(a) {
        return Some(prefix[..prefixLen]);
      }
      var header := Header(a);
      if header.Err? {
        addr := None;
        prefixLen := 0;
        return None;
      }
      HeaderMeasures(a);
      validations := validations + 1;
      sess := s;
      addr := Some(a);
      ghost var was := prefix[..];
      CopySlice(prefix, 0, [MQP_DGRAM_TYPE]);
      CopySlice(prefix, 1, Le32(s));
      PatchPatch(was, 0, [MQP_DGRAM_TYPE], Le32(s));
      var n := EncodeInto(header.value, prefix, DGRAM_PREFIX_LEN);
      PatchPatch(was, 0, [MQP_DGRAM_TYPE] + Le32(s), Wire(a));
      prefixLen := DGRAM_PREFIX_LEN + n;
      assert prefix[..prefixLen] == Prefix(s, a);
      r := Some(prefix[..prefixLen]);
    }
  }

  /** One outgoing packet. */
  datatype Packet = Packet(dest: Request, payload: Octets, limit: nat)

  /** The entry after a run of requests: the last request when it was accepted. */
  function EntryAfter(ps: seq<Packet>): (r: Option<Request>) {
    if ps == [] then None
    else
      var last := ps[|ps| - 1].dest;
      if Header(last.addr).Ok? then Some(last) else None
  }

  /** Accepted requests that differ from the request just before them. */
  function Changes(ps: seq<Packet>): (n: nat) {
    if ps == [] then 0
    else
      var (init, last) := (ps[..|ps| - 1], ps[|ps| - 1].dest);
      Changes(init) +
      if Header(last.addr).Ok? && (init == [] || init[|init| - 1].dest != last) then 1 else 0
  }

  /** What the uncached encoder makes of one packet. */
  function Uncached(p: Packet): (r: Option<Octets>) {
    Encoded(p.dest.sess, p.dest.addr, p.payload, p.limit)
  }

  function UncachedAll(ps: seq<Packet>): (r: seq<Option<Octets>>)
    ensures |r| == |ps| && forall i :: 0 <= i < |ps| ==> r[i] == Uncached(ps[i])
  {
    seq(|ps|, i requires 0 <= i < |ps| => Uncached(ps[i]))
  }

  lemma {:induction false} RunStep(ps: seq<Packet>, i: nat)
    requires i < |ps|
    ensures var (dest, ok) := (ps[i].dest, Header(ps[i].dest.addr).Ok?);
            && UncachedAll(ps[..i + 1]) == UncachedAll(ps[..i]) + [Uncached(ps[i])]
            && EntryAfter(ps[..i + 1]) == (if ok then Some(dest) else None)
            && Changes(ps[..i + 1]) ==
               Changes(ps[..i]) + if ok && EntryAfter(ps[..i]) != Some(dest) then 1 else 0
  {
    assert ps[..i + 1][..i] == ps[..i];
  }

  /** The steady-state send path: the cached prefix, then one copy of the payload. */
  method SendCached(cache: DgramPrefixCache, p: Packet) returns (frame: Option<Octets>)
    requires cache.Valid()
    modifies cache, cache.prefix
    ensures cache.Valid()
    ensures frame == Uncached(p)
    ensures cache.Entry() == if Header(p.dest.addr).Ok? then Some(p.dest) else None
    ensures cache.validations == old(cache.validations) +
                                 if Header(p.dest.addr).Ok? && old(cache.Entry()) != Some(p.dest) then 1 else 0
  {
    var prefix := cache.PrefixFor(p.dest.sess, p.dest.addr);
    if prefix.None? {
      return None;
    }
    frame := EncodeWithPrefix(prefix.value, p.payload, p.limit);
  }

  /** After the first `i` packets: the frames so far and what the cache then holds. */
  ghost predicate Sent(cache: DgramPrefixCache, frames: seq<Option<Octets>>, ps: seq<Packet>, i: nat)
    reads cache, cache.prefix
  {
    && i <= |ps| && cache.Valid()
    && frames == UncachedAll(ps[..i])
    && cache.Entry() == EntryAfter(ps[..i])
    && cache.validations == Changes(ps[..i])
  }

  method SendNext(cache: DgramPrefixCache, frames: seq<Option<Octets>>, ps: seq<Packet>, i: nat)
    returns (more: seq<Option<Octets>>)
    requires i < |ps| && Sent(cache, frames, ps, i)
    modifies cache, cache.prefix
    ensures Sent(cache, more, ps, i + 1)
  {
    RunStep(ps, i);
    var frame := SendCached(cache, ps[i]);
    more := frames + [frame];
  }

  /**
    Over any run of packets, refused destinations included, a fresh cache gives every packet the
    verdict and the bytes of the uncached encoder, and validates exactly once per change.
   */
  method SendAll(ps: seq<Packet>) returns (frames: seq<Option<Octets>>, validations: nat)
    ensures frames == UncachedAll(ps)
    ensures validations == Changes(ps)
  {
    var cache := new DgramPrefixCache();
    frames := [];
    var i: nat := 0;
    while i < |ps|
      invariant fresh(cache) && fresh(cache.prefix) && Sent(cache, frames, ps, i)
    {
      frames := SendNext(cache, frames, ps, i);
      i := i + 1;
    }
    assert ps[..|ps|] == ps;
    validations := cache.validations;
  }

  /** A steady destination is validated exactly once, however many packets it gets. */
  lemma {:induction false} SteadyStateValidatesOnce(ps: seq<Packet>, dest: Request)
    requires ps != [] && Header(dest.addr).Ok?
    requires forall i :: 0 <= i < |ps| ==> ps[i].dest == dest
    ensures Changes(ps) == 1
    decreases |ps|
  {
    var init := ps[..|ps| - 1];
    if init != [] {
      SteadyStateValidatesOnce(init, dest);
    }
  }

  /** A datagram on the wire: type 2, session, address, payload. */
  lemma {:induction false} DatagramLayout(sess: U32, a: TargetAddr, payload: Octets, limit: nat)
    requires Encoded(sess, a, payload, limit).Some?
    ensures StartsWith(Encoded(sess, a, payload, limit).value, 2, sess, Wire(a) + payload)
  {
    Assoc([MQP_DGRAM_TYPE] + Le32(sess), Wire(a), payload);
    SessionLayout(2, sess, Wire(a) + payload);
  }
}
