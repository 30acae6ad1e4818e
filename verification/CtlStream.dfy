/** The reliable control stream: framed control messages, decoded from a growing buffer or by exact reads. */
module CtlStream {
  import opened Bytes

  const MAX_CTL_MESSAGE: nat := 64
  const OVERHEAD: nat := 3
  const FID_MAX: U16 := 0x3FFF

  datatype CtlMessage =
    | AssocClose(sess: U32, reason: U8)
    | FlowClose(fid: U16, reason: U8)
    | Reject(fid: U16, reason: U8)
    | NeedContext(fid: U16)
    | SessClose(sess: U32, reason: U8)
    | Goaway
  {
    function MsgType(): (t: U8) {
      match this
      case AssocClose(_, _) => 0x01
      case FlowClose(_, _) => 0x02
      case Reject(_, _) => 0x81
      case NeedContext(_) => 0x82
      case SessClose(_, _) => 0x83
      case Goaway => 0x84
    }

    /** The body, without its framing. */
    function Body(): (b: Octets)
      ensures |b| <= 5
    {
      match this
      case AssocClose(sess, reason) => Le32(sess) + [reason]
      case FlowClose(fid, reason) => Le16(fid) + [reason]
      case Reject(fid, reason) => Le16(fid) + [reason]
      case NeedContext(fid) => Le16(fid)
      case SessClose(sess, reason) => Le32(sess) + [reason]
      case Goaway => []
    }

    /** Every flow id must fit its 14 bits. */
    predicate Representable() {
      (FlowClose? || Reject? || NeedContext?) ==> fid <= FID_MAX
    }
  }

  datatype CtlError = Short | TooLong | Truncated | BadBodyLen | BadFid | BadType | LengthMismatch | FinishedEarly

  function EncodeCtl(m: CtlMessage): (r: Option<Octets>) {
    if m.Representable() then Some([m.MsgType()] + Le16(|m.Body()|) + m.Body()) else None
  }

  /** The message a body of the given type denotes. */
  function DecodeBody(ty: U8, body: Octets): (r: Result<CtlMessage, CtlError>) {
    if ty == 0x01 || ty == 0x83 then
      if |body| != 5 then Err(BadBodyLen)
      else
        var sess := FromLe32(body[0], body[1], body[2], body[3]);
        Ok(if ty == 0x01 then AssocClose(sess, body[4]) else SessClose(sess, body[4]))
    else if ty == 0x02 || ty == 0x81 then
      if |body| != 3 then Err(BadBodyLen)
      else
        var fid := FromLe16(body[0], body[1]);
        if fid > FID_MAX then Err(BadFid)
        else Ok(if ty == 0x02 then FlowClose(fid, body[2]) else Reject(fid, body[2]))
    else if ty == 0x82 then
      if |body| != 2 then Err(BadBodyLen)
      else
        var fid := FromLe16(body[0], body[1]);
        if fid > FID_MAX then Err(BadFid) else Ok(NeedContext(fid))
    else if ty == 0x84 then
      if body != [] then Err(BadBodyLen) else Ok(Goaway)
    else Err(BadType)
  }

  function DecodeCtl(b: Octets): (r: Result<(CtlMessage, nat), CtlError>) {
    if |b| < OVERHEAD then Err(Short)
    else
      var len := FromLe16(b[1], b[2]);
      if len > MAX_CTL_MESSAGE then Err(TooLong)
      else if |b| < OVERHEAD + len then Err(Truncated)
      else
        match DecodeBody(b[0], b[OVERHEAD..OVERHEAD + len])
        case Err(e) => Err(e)
        case Ok(m) => Ok((m, OVERHEAD + len))
  }

  /** The message at the front of a growing buffer, or `None` while it is incomplete. */
  function DecodeMessage(buf: Octets): (r: Result<Option<(CtlMessage, nat)>, CtlError>)
    ensures r.Ok? && r.value.Some? ==> OVERHEAD <= r.value.value.1 <= |buf|
  {
    if |buf| < OVERHEAD then Ok(None)
    else
      var bodyLen := FromLe16(buf[1], buf[2]);
      if bodyLen > MAX_CTL_MESSAGE then Err(TooLong)
      else
        var total := OVERHEAD + bodyLen;
        if |buf| < total then Ok(None)
        else
          match DecodeCtl(buf[..total])
          case Err(e) => Err(e)
          case Ok((m, consumed)) => if consumed != total then Err(LengthMismatch) else Ok(Some((m, total)))
  }

  lemma {:induction false} BodyRoundTrip(m: CtlMessage)
    requires m.Representable()
    ensures DecodeBody(m.MsgType(), m.Body()) == Ok(m)
  {
    if m.AssocClose? || m.SessClose? {
      Le32Inverse(m.sess);
    }
  }

  lemma {:induction false} BodyOfDecode(ty: U8, body: Octets)
    requires DecodeBody(ty, body).Ok?
    ensures var m := DecodeBody(ty, body).value;
            m.Representable() && m.MsgType() == ty && m.Body() == body
  {
    if |body| == 5 {
      FromLe32Inverse(body[0], body[1], body[2], body[3]);
      assert body == [body[0], body[1], body[2], body[3]] + [body[4]];
    }
  }

  lemma {:induction false} FrameLayout(m: CtlMessage)
    requires m.Representable()
    ensures var (f, body) := (EncodeCtl(m).value, m.Body());
            && |body| <= MAX_CTL_MESSAGE && |f| == OVERHEAD + |body| && f[0] == m.MsgType()
            && FromLe16(f[1], f[2]) == |body| && f[OVERHEAD..OVERHEAD + |body|] == body
  {
    var (f, n) := (EncodeCtl(m).value, |m.Body()|);
    Le16Inverse(n);
    assert f[1] == Le16(n)[0] && f[2] == Le16(n)[1];
  }

  lemma {:induction false} ControlHead(m: CtlMessage)
    requires m.Representable()
    ensures EncodeCtl(m).Some?
    ensures var (b, body) := (EncodeCtl(m).value, m.Body());
            |b| == 3 + |body| && b[0] == m.MsgType() && b[1] == |body| && b[2] == 0 && b[3..] == body
  {
    var (b, n) := (EncodeCtl(m).value, |m.Body()|);
    assert Le16(n) == [n, 0];
    assert b[1] == Le16(n)[0] && b[2] == Le16(n)[1];
  }

  lemma {:induction false} FromThird(b: Octets, body: Octets)
    requires |b| == 3 + |body| && b[3..] == body
    ensures forall i :: 0 <= i < |body| ==> b[3 + i] == body[i]
  {
    forall i | 0 <= i < |body|
      ensures b[3 + i] == body[i]
    {
      assert b[3..][i] == b[3 + i];
    }
  }

  /** A control frame, byte by byte: type, body length, session or flow id, reason; low bytes first. */
  lemma {:induction false} ControlLayout(m: CtlMessage)
    requires m.Representable()
    ensures var b := EncodeCtl(m).value;
            && |b| >= 3 && b[2] == 0 && |b| == 3 + b[1]
            && match m
               case AssocClose(sess, reason) => b[0] == 0x01 && SessionAndReason(b, sess, reason)
               case SessClose(sess, reason) => b[0] == 0x83 && SessionAndReason(b, sess, reason)
               case FlowClose(fid, reason) => b[0] == 0x02 && b[1] == 3 && Weight2(b[3], b[4]) == fid && b[5] == reason
               case Reject(fid, reason) => b[0] == 0x81 && b[1] == 3 && Weight2(b[3], b[4]) == fid && b[5] == reason
               case NeedContext(fid) => b[0] == 0x82 && b[1] == 2 && Weight2(b[3], b[4]) == fid
               case Goaway => b[0] == 0x84 && b[1] == 0
  {
    hide EncodeCtl, Le16, Le32, Weight2, Weight4;
    ControlHead(m);
    var (b, body) := (EncodeCtl(m).value, m.Body());
    FromThird(b, body);
    if m.AssocClose? || m.SessClose? {
      Le32Weighs(m.sess);
      assert body[0] == Le32(m.sess)[0] && body[1] == Le32(m.sess)[1] && body[2] == Le32(m.sess)[2] && body[3] == Le32(m.sess)[3];
      assert b[3] == body[0] && b[4] == body[1] && b[5] == body[2] && b[6] == body[3] && b[7] == body[4] == m.reason;
    } else if m.FlowClose? || m.Reject? || m.NeedContext? {
      Le16Weighs(m.fid);
      assert body[0] == Le16(m.fid)[0] && body[1] == Le16(m.fid)[1];
      assert b[3] == body[0] && b[4] == body[1];
    }
  }

  predicate SessionAndReason(b: Octets, sess: U32, reason: U8) {
    && |b| == 8 && b[1] == 5 && b[7] == reason
    && Weight4(b[3], b[4], b[5], b[6]) == sess
  }

  /** A representable message survives the wire, whatever follows it in the buffer. */
  lemma {:induction false} MessageRoundTrip(m: CtlMessage, tail: Octets)
    requires m.Representable()
    ensures DecodeMessage(EncodeCtl(m).value + tail) == Ok(Some((m, |EncodeCtl(m).value|)))
  {
    var (f, body) := (EncodeCtl(m).value, m.Body());
    hide Le16, FromLe16, DecodeBody;
    BodyRoundTrip(m);
    FrameLayout(m);
    assert (f + tail)[1] == f[1] && (f + tail)[2] == f[2];
    assert (f + tail)[..|f|] == f;
  }

  lemma {:induction false} FrameParts(f: Octets)
    requires |f| >= OVERHEAD && |f| == OVERHEAD + FromLe16(f[1], f[2])
    ensures f == [f[0]] + Le16(|f[OVERHEAD..]|) + f[OVERHEAD..]
  {
    FromLe16Inverse(f[1], f[2]);
    assert f == [f[0]] + [f[1], f[2]] + f[OVERHEAD..];
  }

  /** Every frame the decoder accepts is the encoding of its message. */
  lemma {:induction false} MessageOfDecode(buf: Octets)
    requires DecodeMessage(buf).Ok? && DecodeMessage(buf).value.Some?
    ensures var (m, n) := DecodeMessage(buf).value.value;
            EncodeCtl(m) == Some(buf[..n])
  {
    var (m, n) := DecodeMessage(buf).value.value;
    var f := buf[..n];
    assert f[OVERHEAD..n] == f[OVERHEAD..];
    BodyOfDecode(f[0], f[OVERHEAD..]);
    FrameParts(f);
  }

  /** A verdict, message or error, is final: more bytes do not change it. */
  lemma {:induction false} VerdictIsFinal(buf: Octets, more: Octets)
    requires DecodeMessage(buf) != Ok(None)
    ensures DecodeMessage(buf + more) == DecodeMessage(buf)
  {
    var total := OVERHEAD + FromLe16(buf[1], buf[2]);
    if total <= |buf| {
      assert (buf + more)[..total] == buf[..total];
    }
  }

  // ---------- draining a growing buffer ----------

  /** The messages taken out of a buffer, the undecided rest and the error that stopped it, if any. */
  datatype Drained = Drained(msgs: seq<CtlMessage>, rest: Octets, error: Option<CtlError>)

  /** Repeated `DecodeMessage` until the buffer holds no complete message. */
  function Drain(buf: Octets): (d: Drained)
    decreases |buf|
  {
    match DecodeMessage(buf)
    case Err(e) => Drained([], buf, Some(e))
    case Ok(None) => Drained([], buf, None)
    case Ok(Some((m, n))) =>
      var d := Drain(buf[n..]);
      d.(msgs := [m] + d.msgs)
  }

  /** A chunk arrives; after an error the stream is closed and nothing more is decoded. */
  function Feed(d: Drained, chunk: Octets): (r: Drained) {
    if d.error.Some? then d
    else
      var e := Drain(d.rest + chunk);
      e.(msgs := d.msgs + e.msgs)
  }

  function FeedAll(chunks: seq<Octets>): (d: Drained) {
    if chunks == [] then Drained([], [], None)
    else Feed(FeedAll(chunks[..|chunks| - 1]), chunks[|chunks| - 1])
  }

  function Flatten(chunks: seq<Octets>): (b: Octets) {
    if chunks == [] then [] else Flatten(chunks[..|chunks| - 1]) + chunks[|chunks| - 1]
  }

  /** Equal up to the bytes left behind an error. */
  predicate SameOutcome(d: Drained, e: Drained) {
    d.msgs == e.msgs && d.error == e.error && (d.error.None? ==> d.rest == e.rest)
  }

  /** Draining in two steps is draining at once. */
  lemma {:induction false} DrainSplit(a: Octets, b: Octets)
    ensures SameOutcome(Drain(a + b), Feed(Drain(a), b))
    decreases |a|
  {
    match DecodeMessage(a) {
      case Err(e) =>
        VerdictIsFinal(a, b);
      case Ok(None) =>
        assert [] + Drain(a + b).msgs == Drain(a + b).msgs;
      case Ok(Some((m, n))) =>
        VerdictIsFinal(a, b);
        assert (a + b)[n..] == a[n..] + b;
        DrainSplit(a[n..], b);
        var d := Drain(a[n..]);
        if d.error.None? {
          var e := Drain(d.rest + b);
          assert [m] + (d.msgs + e.msgs) == ([m] + d.msgs) + e.msgs;
        }
    }
  }

  /** However a byte stream, well formed or not, is cut into chunks, the outcome is the same. */
  lemma {:induction false} ChunkingIsIrrelevant(chunks: seq<Octets>)
    ensures SameOutcome(FeedAll(chunks), Drain(Flatten(chunks)))
    decreases |chunks|
  {
    if chunks != [] {
      var (init, last) := (chunks[..|chunks| - 1], chunks[|chunks| - 1]);
      ChunkingIsIrrelevant(init);
      DrainSplit(Flatten(init), last);
    }
  }

  predicate AllRepresentable(ms: seq<CtlMessage>) {
    forall i :: 0 <= i < |ms| ==> ms[i].Representable()
  }

  function Stream(ms: seq<CtlMessage>): (b: Octets)
    requires AllRepresentable(ms)
  {
    if ms == [] then [] else EncodeCtl(ms[0]).value + Stream(ms[1..])
  }

  lemma {:induction false} DrainCons(m: CtlMessage, rest: Octets)
    requires m.Representable()
    ensures var d := Drain(rest);
            Drain(EncodeCtl(m).value + rest) == d.(msgs := [m] + d.msgs)
  {
    var f := EncodeCtl(m).value;
    MessageRoundTrip(m, rest);
    assert (f + rest)[|f|..] == rest;
  }

  lemma {:induction false} DrainNothing()
    ensures Drain([]) == Drained([], [], None)
  {
  }

  lemma {:induction false} DrainOfStream(ms: seq<CtlMessage>)
    requires AllRepresentable(ms)
    ensures Drain(Stream(ms)) == Drained(ms, [], None)
  {
    hide EncodeCtl, DecodeMessage;
    if ms == [] {
      DrainNothing();
    } else {
      var (m, rest) := (ms[0], ms[1..]);
      DrainCons(m, Stream(rest));
      DrainOfStream(rest);
      assert [m] + rest == ms;
    }
  }

  /** One chunk earlier there was no error either, and no message that is not there one chunk later. */
  lemma {:induction false} FedBefore(chunks: seq<Octets>, k: nat)
    requires k < |chunks| && FeedAll(chunks[..k + 1]).error == None
    ensures FeedAll(chunks[..k]).error == None && FeedAll(chunks[..k]).msgs <= FeedAll(chunks[..k + 1]).msgs
  {
    hide Drain;
    assert chunks[..k + 1][..k] == chunks[..k];
  }

  /**
    However a concatenation of control frames is cut, the messages come out in order. On the way
    there is never an error, and what has come out so far is a prefix of what was sent.
   */
  lemma {:induction false} StreamSurvivesChunking(ms: seq<CtlMessage>, chunks: seq<Octets>, k: nat)
    requires AllRepresentable(ms) && Flatten(chunks) == Stream(ms) && k <= |chunks|
    ensures FeedAll(chunks) == Drained(ms, [], None)
    ensures FeedAll(chunks[..k]).error == None && FeedAll(chunks[..k]).msgs <= ms
    decreases |chunks| - k
  {
    hide Drain, DecodeMessage, EncodeCtl, Stream, AllRepresentable, FeedAll, Flatten;
    ChunkingIsIrrelevant(chunks);
    DrainOfStream(ms);
    if k < |chunks| {
      StreamSurvivesChunking(ms, chunks, k + 1);
      FedBefore(chunks, k);
    } else {
      assert chunks[..k] == chunks;
    }
  }

  // ---------- the receiver with exact reads ----------

  datatype Received = Message(msg: CtlMessage) | Closed | Failed(error: CtlError)

  /** What one `recv` returns, in terms of the incremental decoder on the bytes still to be read. */
  function RecvOutcome(stream: Octets): (r: Received) {
    match DecodeMessage(stream)
    case Err(e) => Failed(e)
    case Ok(None) => if stream == [] then Closed else Failed(FinishedEarly)
    case Ok(Some((m, _))) => Message(m)
  }

  /** A frame cut to its own length is consumed whole. */
  lemma {:induction false} WholeFrameConsumed(b: Octets)
    requires |b| >= OVERHEAD && |b| == OVERHEAD + FromLe16(b[1], b[2])
    ensures DecodeCtl(b).Ok? ==> DecodeCtl(b).value.1 == |b|
  {
  }

  /** The receive half. `stream` is what the peer will have sent by the time it finishes the stream. */
  class CtlReceiver {
    var stream: Octets
    var buf: Octets

    constructor (stream: Octets)
      ensures this.stream == stream
    {
      this.stream, buf := stream, [];
    }

    /** `read_exact`: all `n` bytes, or the number read before the peer finished. */
    method ReadExact(n: nat) returns (r: Result<Octets, nat>)
      modifies this`stream
      ensures |old(stream)| >= n ==> r == Ok(old(stream)[..n]) && stream == old(stream)[n..]
      ensures |old(stream)| < n ==> r == Err(|old(stream)|) && stream == []
    {
      if |stream| < n {
        r := Err(|stream|);
        stream := [];
      } else {
        r := Ok(stream[..n]);
        stream := stream[n..];
      }
    }

    /** Two exact reads: the framing header, then the body. */
    method Recv() returns (r: Received)
      modifies this
      ensures r == RecvOutcome(old(stream))
      ensures r.Message? ==> stream == old(stream)[DecodeMessage(old(stream)).value.value.1..]
    {
      hide FromLe16, DecodeCtl;
      ghost var all := stream;
      var head := ReadExact(OVERHEAD);
      if head.Err? {
        return if head.error == 0 then Closed else Failed(FinishedEarly);
      }
      var bodyLen := FromLe16(head.value[1], head.value[2]);
      if bodyLen > MAX_CTL_MESSAGE {
        return Failed(TooLong);
      }
      buf := head.value;
      if bodyLen > 0 {
        var body := ReadExact(bodyLen);
        if body.Err? {
          return Failed(FinishedEarly);
        }
        buf := buf + body.value;
      }
      assert stream == all[OVERHEAD + bodyLen..];
      assert buf == all[..OVERHEAD + bodyLen];
      WholeFrameConsumed(buf);
      match DecodeCtl(buf) {
        case Err(e) =>
          return Failed(e);
        case Ok((m, consumed)) =>
          return if consumed != |buf| then Failed(LengthMismatch) else Message(m);
      }
    }
  }

  /** How the receiver reports the end of a drained stream. */
  function Ending(d: Drained): (r: Received) {
    if d.error.Some? then Failed(d.error.value)
    else if d.rest == [] then Closed
    else Failed(FinishedEarly)
  }

  /** One `recv` peels one message off the drain of the stream, or ends it. */
  lemma {:induction false} RecvPeels(stream: Octets, done: seq<CtlMessage>)
    ensures var (r, d) := (RecvOutcome(stream), Drain(stream));
            && (r.Message? ==>
                  var e := Drain(stream[DecodeMessage(stream).value.value.1..]);
                  Ending(e) == Ending(d) && done + d.msgs == done + [r.msg] + e.msgs)
            && (!r.Message? ==> Ending(d) == r && done + d.msgs == done)
  {
    hide DecodeMessage;
    if RecvOutcome(stream).Message? {
      var (m, n) := DecodeMessage(stream).value.value;
      var e := Drain(stream[n..]);
      assert done + ([m] + e.msgs) == done + [m] + e.msgs;
    }
  }

  /** Receiving until the stream ends yields exactly what draining the whole stream yields. */
  method RecvAll(stream: Octets) returns (msgs: seq<CtlMessage>, last: Received)
    ensures msgs == Drain(stream).msgs && last == Ending(Drain(stream))
  {
    var rx := new CtlReceiver(stream);
    msgs := [];
    ghost var d := Drain(stream);
    last := Closed;
    assert [] + d.msgs == d.msgs;
    while true
      invariant fresh(rx)
      invariant Ending(Drain(rx.stream)) == Ending(d) && msgs + Drain(rx.stream).msgs == d.msgs
      decreases |rx.stream|
    {
      RecvPeels(rx.stream, msgs);
      last := rx.Recv();
      if !last.Message? {
        break;
      }
      msgs := msgs + [last.msg];
    }
  }
}
