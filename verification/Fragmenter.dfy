/** Cutting an oversized payload into fragments, naming it with an id, and the fragment frame. */
module Fragmenter {
  import opened Bytes
  import opened Addr
  import opened Partials
  import Datagram

  const MQP_DGRAM_FRAG: U8 := 0x05
  const FRAG_PREFIX_LEN: nat := 1 + 4 + 4 + 1 + 1
  const SAFE_WINDOW_MS: nat := 2_000 + 500 + 500

  // ---------- the frame ----------

  function Head(f: Fragment): (b: Octets)
    ensures |b| == FRAG_PREFIX_LEN
  {
    [MQP_DGRAM_FRAG] + Le32(f.sess) + Le32(f.id) + [f.idx, f.total]
  }

  function EncodedFragment(f: Fragment, limit: nat): (r: Option<Octets>) {
    if Header(f.address).Ok? && FRAG_PREFIX_LEN + |Wire(f.address)| + |f.chunk| <= limit then
      Some(Head(f) + Wire(f.address) + f.chunk)
    else None
  }

  method EncodeFragment(f: Fragment, limit: nat) returns (r: Option<Octets>)
    ensures r == EncodedFragment(f, limit)
  {
    var h := Header(f.address);
    if h.Err? {
      return None;
    }
    HeaderMeasures(f.address);
    if FRAG_PREFIX_LEN + h.value.len + |f.chunk| > limit {
      return None;
    }
    var v := [MQP_DGRAM_FRAG];
    v := v + Le32(f.sess);
    v := v + Le32(f.id);
    v := v + [f.idx, f.total];
    var hdr := new U8[h.value.len](_ => 0);
    var n := EncodeInto(h.value, hdr, 0);
    assert hdr[..] == Wire(f.address);
    v := v + hdr[..];
    v := v + f.chunk;
    r := Some(v);
  }

  function DecodeFragment(b: Chunk): (r: Result<Fragment, MqpError>) {
    if |b| < FRAG_PREFIX_LEN + 1 || b[0] != MQP_DGRAM_FRAG then Err(Malformed(BadFragment))
    else
      match Decode(b[FRAG_PREFIX_LEN..])
      case Err(e) => Err(e)
      case Ok((a, n)) =>
        WireOfDecode(b[FRAG_PREFIX_LEN..]);
        Ok(Fragment(FromLe32(b[1], b[2], b[3], b[4]), FromLe32(b[5], b[6], b[7], b[8]), b[9], b[10], a,
                       b[FRAG_PREFIX_LEN + n..]))
  }

  lemma {:induction false} HeadReads(f: Fragment, rest: Octets)
    ensures var b := Head(f) + rest;
            && b[0] == MQP_DGRAM_FRAG && FromLe32(b[1], b[2], b[3], b[4]) == f.sess
            && FromLe32(b[5], b[6], b[7], b[8]) == f.id && b[9] == f.idx && b[10] == f.total
            && b[FRAG_PREFIX_LEN..] == rest
  {
    Le32Inverse(f.sess);
    Le32Inverse(f.id);
  }

  /** A fragment on the wire: type 5, session, id, index, total, address, chunk. */
  lemma {:induction false} FragmentLayout(f: Fragment, limit: nat)
    requires EncodedFragment(f, limit).Some?
    ensures var b := EncodedFragment(f, limit).value;
            && |b| >= 11 && StartsWith(b, 5, f.sess, b[5..])
            && Weight4(b[5], b[6], b[7], b[8]) == f.id
            && b[9] == f.idx && b[10] == f.total && b[11..] == Wire(f.address) + f.chunk
  {
    var b := EncodedFragment(f, limit).value;
    var tail := Le32(f.id) + [f.idx, f.total] + (Wire(f.address) + f.chunk);
    assert b == [MQP_DGRAM_FRAG] + Le32(f.sess) + tail;
    SessionLayout(5, f.sess, tail);
    Le32Weighs(f.id);
    assert forall i :: 0 <= i < 4 ==> b[5 + i] == Le32(f.id)[i];
    assert b[9] == f.idx && b[10] == f.total;
    assert b[11..] == Wire(f.address) + f.chunk;
  }

  /** A frame decodes to the fragment it was made from, with the address as it reads on the wire. */
  lemma {:induction false} FragmentRoundTrip(f: Fragment, limit: nat)
    requires EncodedFragment(f, limit).Some? && limit <= ISIZE_MAX
    ensures DecodeFragment(EncodedFragment(f, limit).value) == Ok(f.(address := OnWire(f.address)))
  {
    var tail := Wire(f.address) + f.chunk;
    assert EncodedFragment(f, limit).value == Head(f) + tail;
    HeadReads(f, tail);
    DecodeOfWire(f.address, f.chunk);
    HeaderMeasures(f.address);
    var b := Head(f) + tail;
    assert b[FRAG_PREFIX_LEN + |Wire(f.address)|..] == tail[|Wire(f.address)|..] == f.chunk;
  }

  lemma {:induction false} HeadOfBytes(f: Fragment, b: Octets)
    requires |b| >= FRAG_PREFIX_LEN && b[0] == MQP_DGRAM_FRAG && b[9] == f.idx && b[10] == f.total
    requires f.sess == FromLe32(b[1], b[2], b[3], b[4]) && f.id == FromLe32(b[5], b[6], b[7], b[8])
    ensures Head(f) == b[..FRAG_PREFIX_LEN]
  {
    FromLe32Inverse(b[1], b[2], b[3], b[4]);
    FromLe32Inverse(b[5], b[6], b[7], b[8]);
  }

  /** Every frame the decoder accepts is what the encoder makes of its parts. */
  lemma {:induction false} FrameOfDecode(b: Chunk, limit: nat)
    requires DecodeFragment(b).Ok?
    ensures EncodedFragment(DecodeFragment(b).value, limit) == if |b| <= limit then Some(b) else None
  {
    var f := DecodeFragment(b).value;
    HeadOfBytes(f, b);
    var tail := b[FRAG_PREFIX_LEN..];
    WireOfDecode(tail);
    var n := |Wire(f.address)|;
    assert tail == tail[..n] + tail[n..] && tail[n..] == b[FRAG_PREFIX_LEN + n..];
    assert b == b[..FRAG_PREFIX_LEN] + tail;
    assert b == Head(f) + Wire(f.address) + f.chunk;
  }

  // ---------- cutting ----------

  /** `slice::chunks`. */
  function Cut(payload: Octets, size: nat): (pieces: seq<Octets>)
    requires size > 0
    ensures forall i :: 0 <= i < |pieces| ==> 1 <= |pieces[i]| <= size
  {
    if payload == [] then []
    else if |payload| <= size then [payload]
    else [payload[..size]] + Cut(payload[size..], size)
  }

  function DivCeil(n: nat, d: nat): (q: nat)
    requires d > 0
  {
    (n + d - 1) / d
  }

  lemma {:induction false} NextMultiple(a: nat, b: nat, d: nat)
    requires a < b
    ensures a * d + d <= b * d
    decreases b
  {
    assert b * d == (b - 1) * d + d;
    if a + 1 < b {
      NextMultiple(a, b - 1, d);
    }
  }

  lemma {:induction false} CeilUnique(n: nat, d: nat, q: nat)
    requires d > 0 && q > 0 && (q - 1) * d < n <= q * d
    ensures DivCeil(n, d) == q
  {
    var p := (n + d - 1) / d;
    assert n + d - 1 == p * d + (n + d - 1) % d;
    assert q * d == (q - 1) * d + d;
    if p < q {
      NextMultiple(p, q, d);
    } else if q < p {
      NextMultiple(q, p, d);
    }
  }

  lemma {:induction false} CutIsWhole(payload: Chunk, size: nat)
    requires size > 0
    ensures Flat(Cut(payload, size)) == payload
  {
    if |payload| > size {
      CutIsWhole(payload[size..], size);
    } else if payload != [] {
      assert Flat([payload]) == payload + Flat([payload][1..]);
    }
  }

  lemma {:induction false} CutBounds(payload: Octets, size: nat, k: nat)
    requires size > 0 && payload != [] && k == |Cut(payload, size)|
    ensures k > 0 && (k - 1) * size < |payload| <= k * size
  {
    if |payload| > size {
      CutBounds(payload[size..], size, k - 1);
      assert (k - 1) * size == (k - 2) * size + size;
      assert k * size == (k - 1) * size + size;
    }
  }

  lemma {:induction false} CutCount(payload: Octets, size: nat)
    requires size > 0
    ensures |Cut(payload, size)| == DivCeil(|payload|, size)
  {
    if payload != [] {
      CutBounds(payload, size, |Cut(payload, size)|);
      CeilUnique(|payload|, size, |Cut(payload, size)|);
    } else {
      assert (size - 1) / size == 0;
    }
  }

  /** The fragments of a payload cut into `pieces`. */
  function Named(sess: U32, id: U32, address: TargetAddr, pieces: seq<Chunk>): (fs: seq<Fragment>)
    requires |pieces| <= MAX_TOTAL
    ensures |fs| == |pieces|
  {
    seq(|pieces|, i requires 0 <= i < |pieces| => Fragment(sess, id, i, |pieces|, address, pieces[i]))
  }

  function ChunkSize(limit: nat, address: TargetAddr): (n: nat)
    requires Header(address).Ok?
  {
    SatSub(limit, FRAG_PREFIX_LEN + Header(address).value.len)
  }

  predicate Sendable(address: TargetAddr, payload: Octets, limit: nat) {
    && Header(address).Ok? && ChunkSize(limit, address) > 0
    && DivCeil(|payload|, ChunkSize(limit, address)) <= MAX_TOTAL && |payload| <= MAX_PAYLOAD
  }

  /** The fragment path of a send: refuse, or cut and number the whole payload. */
  method Fragments(sess: U32, id: U32, address: TargetAddr, payload: Chunk, limit: nat) returns (r: Option<seq<Fragment>>)
    ensures r.Some? <==> Sendable(address, payload, limit)
    ensures r.Some? ==> r.value == Named(sess, id, address, Pieces(address, payload, limit))
  {
    var h := Header(address);
    if h.Err? {
      return None;
    }
    var chunk := SatSub(limit, FRAG_PREFIX_LEN + h.value.len);
    if chunk == 0 || DivCeil(|payload|, chunk) > MAX_TOTAL || |payload| > MAX_PAYLOAD {
      return None;
    }
    var fs := Number(sess, id, address, payload, chunk);
    r := Some(fs);
  }

  /** What the fragments of a sendable payload carry. */
  function Pieces(address: TargetAddr, payload: Chunk, limit: nat): (pieces: seq<Chunk>)
    requires Sendable(address, payload, limit)
    ensures |pieces| <= MAX_TOTAL
  {
    CutCount(payload, ChunkSize(limit, address));
    Cut(payload, ChunkSize(limit, address))
  }

  method Number(sess: U32, id: U32, address: TargetAddr, payload: Chunk, size: nat) returns (fs: seq<Fragment>)
    requires size > 0 && DivCeil(|payload|, size) <= MAX_TOTAL
    ensures |Cut(payload, size)| <= MAX_TOTAL && fs == Named(sess, id, address, Cut(payload, size))
  {
    hide Cut, DivCeil;
    CutCount(payload, size);
    var total := DivCeil(|payload|, size);
    fs := [];
    var off := 0;
    ghost var cut: seq<Chunk> := [];
    assert payload[0..] == payload;
    while off < |payload|
      invariant off <= |payload| && cut + Cut(payload[off..], size) == Cut(payload, size)
      invariant |fs| == |cut| <= total
      invariant forall i :: 0 <= i < |fs| ==> fs[i] == Fragment(sess, id, i, total, address, cut[i])
    {
      var end := if off + size <= |payload| then off + size else |payload|;
      NextCut(payload, off, size, end);
      cut := cut + [payload[off..end]];
      fs := fs + [Fragment(sess, id, |fs|, total, address, payload[off..end])];
      off := end;
    }
    NoCut(payload[off..], size);
    assert cut == Cut(payload, size);
  }

  lemma {:induction false} NoCut(payload: Octets, size: nat)
    requires size > 0 && payload == []
    ensures Cut(payload, size) == []
  {
  }

  lemma {:induction false} NextCut(payload: Octets, off: nat, size: nat, end: nat)
    requires size > 0 && off < |payload| && end == if off + size <= |payload| then off + size else |payload|
    ensures Cut(payload[off..], size) == [payload[off..end]] + Cut(payload[end..], size)
  {
    var rest := payload[off..];
    if |rest| > size {
      assert rest[..size] == payload[off..end] && rest[size..] == payload[end..];
    } else {
      assert rest == payload[off..end];
      if |rest| == size {
        assert payload[end..] == [];
      }
    }
  }

  /**
    The pieces make up the payload and every frame fits the limit; a payload too long for one plain
    datagram gives at least two fragments, all of a shape the receiver accepts.
   */
  lemma {:induction false} FragmentsCarryPayload(sess: U32, id: U32, address: TargetAddr, payload: Chunk, limit: nat, i: nat)
    requires Sendable(address, payload, limit) && i < |Pieces(address, payload, limit)|
    ensures var pieces := Pieces(address, payload, limit);
            && Flat(pieces) == payload && EncodedFragment(Named(sess, id, address, pieces)[i], limit).Some?
            && (|payload| > SatSub(limit, Datagram.DGRAM_PREFIX_LEN + Header(address).value.len) ==>
                  |pieces| >= 2 && WellShaped(Named(sess, id, address, pieces)[i]))
  {
    var size := ChunkSize(limit, address);
    CutIsWhole(payload, size);
    CutBounds(payload, size, |Cut(payload, size)|);
    HeaderMeasures(address);
  }

  // ---------- naming ----------

  /** The id to hand out next, and when the ids last wrapped (0: never). */
  datatype Ids = Ids(nextId: U32, lastWrap: U64)

  predicate ReuseBlocked(lastWrap: U64, now: U64) {
    lastWrap != 0 && SatSub(now, lastWrap) < SAFE_WINDOW_MS
  }

  function Claim(s: Ids, now: U64): (r: (Ids, Option<U32>)) {
    if ReuseBlocked(s.lastWrap, now) then (s, None)
    else if s.nextId == 0xFFFF_FFFF then (Ids(0, if now == 0 then 1 else now), Some(s.nextId))
    else (Ids(s.nextId + 1, s.lastWrap), Some(s.nextId))
  }

  class DgramFragmenter {
    var nextId: U32
    var lastWrap: U64

    function State(): (s: Ids)
      reads this
    {
      Ids(nextId, lastWrap)
    }

    constructor ()
      ensures State() == Ids(0, 0)
    {
      nextId, lastWrap := 0, 0;
    }

    method TryClaimId(now: U64) returns (id: Option<U32>)
      modifies this
      ensures (State(), id) == Claim(old(State()), now)
    {
      if ReuseBlocked(lastWrap, now) {
        return None;
      }
      id := Some(nextId);
      nextId := if nextId == 0xFFFF_FFFF then 0 else nextId + 1;
      if nextId == 0 {
        lastWrap := if now > 1 then now else 1;
      }
    }

    /** The claim that skips the clock before the first wrap is the same claim, whatever the clock reads. */
    method ClaimId(now: U64) returns (id: Option<U32>)
      modifies this
      ensures (State(), id) == Claim(old(State()), now)
    {
      if lastWrap == 0 && nextId != 0xFFFF_FFFF {
        id := Some(nextId);
        nextId := nextId + 1;
        return id;
      }
      id := TryClaimId(now);
    }
  }

  /** The state after the claims made at `times`. */
  function After(s: Ids, times: seq<U64>): (r: Ids) {
    if times == [] then s else Claim(After(s, times[..|times| - 1]), times[|times| - 1]).0
  }

  /** The id the `n`-th claim hands out. */
  function Granted(s: Ids, times: seq<U64>, n: nat): (r: Option<U32>)
    requires n < |times|
  {
    Claim(After(s, times[..n]), times[n]).1
  }

  ghost predicate Monotone(times: seq<U64>) {
    forall i, j :: 0 <= i < j < |times| ==> times[i] <= times[j]
  }

  /** Once an id was handed out, the counter is past it or has wrapped since. */
  lemma {:induction false} PastOrWrapped(s: Ids, times: seq<U64>, i: nat, n: nat)
    requires i < n <= |times| && Monotone(times) && Granted(s, times, i).Some?
    ensures var t := After(s, times[..n]);
            t.nextId > Granted(s, times, i).value || (t.lastWrap != 0 && t.lastWrap >= times[i])
    decreases n
  {
    var prev := times[..n][..n - 1];
    assert prev == times[..n - 1];
    if n > i + 1 {
      PastOrWrapped(s, times, i, n - 1);
    }
  }

  /**
    No id is handed out twice within the window that outlasts the receiver's memory of it, in any run
    of claims from any state, as long as the clock does not run backwards.
   */
  lemma {:induction false} IdReuseOutsideWindow(s: Ids, times: seq<U64>, i: nat, j: nat)
    requires i < j < |times| && Monotone(times)
    requires Granted(s, times, i).Some? && Granted(s, times, i) == Granted(s, times, j)
    ensures times[j] - times[i] >= SAFE_WINDOW_MS
  {
    PastOrWrapped(s, times, i, j);
  }

  // ---------- what a fresh counter hands out ----------

  const FRESH: Ids := Ids(0, 0)

  /** How many of the first `n` claims were granted. */
  function Grants(times: seq<U64>, n: nat): (g: nat)
    requires n <= |times|
  {
    if n == 0 then 0 else Grants(times, n - 1) + if Granted(FRESH, times, n - 1).Some? then 1 else 0
  }

  /** Claim `i` took the last id of a cycle. */
  predicate Wraps(times: seq<U64>, i: nat)
    requires i < |times|
  {
    Granted(FRESH, times, i) == Some(0xFFFF_FFFF)
  }

  /** The reading a wrap is remembered by; 0 would mean there was none. */
  function WrapStamp(t: U64): (s: U64) {
    if t == 0 then 1 else t
  }

  lemma {:induction false} AfterNext(times: seq<U64>, n: nat)
    requires n < |times|
    ensures After(FRESH, times[..n + 1]) == Claim(After(FRESH, times[..n]), times[n]).0
  {
    assert times[..n + 1][..n] == times[..n];
  }

  /** Ids go out in turn, and none is refused before the first cycle is over. */
  lemma {:induction false} IdsInTurn(times: seq<U64>, n: nat)
    requires n <= |times|
    ensures var t := After(FRESH, times[..n]);
            && t.nextId == Grants(times, n) % 0x1_0000_0000
            && (Grants(times, n) < 0x1_0000_0000 ==> t.lastWrap == 0)
    ensures n < |times| && Granted(FRESH, times, n).Some? ==>
              Granted(FRESH, times, n).value == Grants(times, n) % 0x1_0000_0000
    ensures n < |times| && Grants(times, n) < 0x1_0000_0000 ==> Granted(FRESH, times, n).Some?
  {
    if n > 0 {
      IdsInTurn(times, n - 1);
      AfterNext(times, n - 1);
      NextInCycle(Grants(times, n - 1));
    }
  }

  lemma {:induction false} NextInCycle(g: nat)
    ensures (g + 1) % 0x1_0000_0000 == if g % 0x1_0000_0000 == 0xFFFF_FFFF then 0 else g % 0x1_0000_0000 + 1
  {
  }

  /** One claim moves the wrap stamp exactly if it wraps. */
  lemma {:induction false} StampNext(times: seq<U64>, n: nat)
    requires n < |times|
    ensures var (was, now) := (After(FRESH, times[..n]).lastWrap, After(FRESH, times[..n + 1]).lastWrap);
            now == if Wraps(times, n) then WrapStamp(times[n]) else was
  {
    AfterNext(times, n);
  }

  /** Some wrap left the stamp. */
  lemma {:induction false} StampOfWrap(times: seq<U64>, n: nat) returns (i: nat)
    requires n <= |times| && After(FRESH, times[..n]).lastWrap != 0
    ensures i < n && Wraps(times, i) && After(FRESH, times[..n]).lastWrap == WrapStamp(times[i])
    decreases n
  {
    hide Claim, Wraps;
    assert times[..0] == [];
    if n > 0 {
      StampNext(times, n - 1);
      if Wraps(times, n - 1) {
        i := n - 1;
      } else {
        i := StampOfWrap(times, n - 1);
      }
    }
  }

  /** And no wrap is later than it. */
  lemma {:induction false} StampNotEarlier(times: seq<U64>, n: nat, i: nat)
    requires i < n <= |times| && Monotone(times) && Wraps(times, i)
    ensures WrapStamp(times[i]) <= After(FRESH, times[..n]).lastWrap
    decreases n
  {
    hide Claim, Wraps, After;
    StampNext(times, n - 1);
    if i < n - 1 {
      StampNotEarlier(times, n - 1, i);
    }
  }

  /** A claim is refused exactly if the ids wrapped less than the window before it. */
  lemma {:induction false} RefusedExactly(times: seq<U64>, n: nat)
    requires n < |times| && Monotone(times)
    ensures Granted(FRESH, times, n).None? <==>
            exists i :: 0 <= i < n && Wraps(times, i) && times[n] < WrapStamp(times[i]) + 3_000
  {
    hide Wraps, After;
    var stamp := After(FRESH, times[..n]).lastWrap;
    if Granted(FRESH, times, n).None? {
      var i := StampOfWrap(times, n);
    }
    forall i | 0 <= i < n && Wraps(times, i)
      ensures WrapStamp(times[i]) <= stamp
    {
      StampNotEarlier(times, n, i);
    }
  }
}
