/**
  No splice, end to end. One receiver reassembles whatever arrives, from any number of sessions, swept
  by its reader's tick and stamped by a clock that may lag behind. For a session whose sender takes its
  fragment ids from the guarded counter, every payload that comes out is one that was sent, however
  frames are lost, repeated or reordered and however often the ids wrap, as long as the clock's lag
  and the time on the way together stay within the margin of the id window. Past it, payloads do mix.
 */
module NoSplice {
  import opened Bytes
  import opened Net
  import opened Addr
  import opened FragTable
  import opened Partials
  import opened Reassembler
  import opened Reader
  import opened FragmentTrip
  import opened FragmentRuns
  import Datagram
  import Fragmenter

  const SWEEP_INTERVAL_MS: nat := 500

  /** The longest a partial lives by a precise clock: its timeout, and one tick until it is noticed. */
  const PARTIAL_LIFE_MS: nat := TIMEOUT_MS + SWEEP_INTERVAL_MS

  /** What the id window leaves beyond that. */
  const MARGIN_MS: nat := Fragmenter.SAFE_WINDOW_MS - PARTIAL_LIFE_MS

  /** The last tick among the first `n` events, or the start. */
  function TickAt(start: Stamp, es: seq<Event>, n: nat): (t: Stamp)
    requires n <= |es|
  {
    if n == 0 then start else if es[n - 1].Tick? then es[n - 1].t else TickAt(start, es, n - 1)
  }

  /** The last of the first `n` events, or the start. */
  function ClockAt(start: Stamp, es: seq<Event>, n: nat): (t: Stamp)
    requires n <= |es|
  {
    if n == 0 then start else es[n - 1].t
  }

  /** A reading is never ahead of the time and at most `lag` behind it. */
  predicate Lags(t: Stamp, lag: nat) {
    t.at <= t.time <= t.at + lag
  }

  /** Neither time nor readings run backwards, readings lag at most `lag`, and the reader ticks every 500 ms. */
  predicate Ticked(start: Stamp, lag: nat, es: seq<Event>) {
    Lags(start, lag) &&
    forall n :: 0 <= n < |es| ==>
      && Lags(es[n].t, lag)
      && ClockAt(start, es, n).at <= es[n].t.at && ClockAt(start, es, n).time <= es[n].t.time
      && es[n].t.time - TickAt(start, es, n).time <= SWEEP_INTERVAL_MS
  }

  lemma {:induction false} TickSane(start: Stamp, lag: nat, es: seq<Event>, n: nat)
    requires Ticked(start, lag, es) && n <= |es|
    ensures Lags(TickAt(start, es, n), lag) && TickAt(start, es, n).at <= ClockAt(start, es, n).at
  {
    if n > 0 {
      TickSane(start, lag, es, n - 1);
      assert Lags(es[n - 1].t, lag) && ClockAt(start, es, n - 1).at <= es[n - 1].t.at;
    }
  }

  lemma {:induction false} TimeRises(start: Stamp, lag: nat, es: seq<Event>, m: nat, k: nat)
    requires Ticked(start, lag, es) && m <= k < |es|
    ensures es[m].t.time <= es[k].t.time
    decreases k
  {
    if m < k {
      TimeRises(start, lag, es, m, k - 1);
      assert ClockAt(start, es, k).time <= es[k].t.time;
    }
  }

  // ---------- what the table holds, in time ----------

  /** `g` is among the first `n` events, with a reading of at least `from`. */
  ghost predicate Arrived(es: seq<Event>, n: nat, g: Fragment, from: int)
    requires n <= |es|
  {
    exists m :: 0 <= m < n && es[m].Arrive? && es[m].f == g && from <= es[m].t.at
  }

  /** Every chunk of a partial arrived, under the partial's identity, while the partial was open. */
  ghost predicate Timely(es: seq<Event>, n: nat, k: Key, e: Entry<Partial>)
    requires n <= |es|
  {
    forall i :: 0 <= i < |e.item.chunks| && i < 0x100 && e.item.chunks[i].Some? ==>
      Arrived(es, n, Fragment(k.sess, k.id, i, e.item.total, e.item.address, e.item.chunks[i].value), e.ms)
  }

  /** After `n` events: every partial is timely, and none outlived the last tick. */
  ghost predicate Current(start: Stamp, es: seq<Event>, n: nat, parts: Table<Partial>)
    requires n <= |es|
  {
    forall k :: k in parts ==>
      && Timely(es, n, k, parts[k])
      && parts[k].ms <= ClockAt(start, es, n).at && Fresh(parts[k].ms, TickAt(start, es, n).at)
  }

  lemma {:induction false} StillArrived(es: seq<Event>, n: nat, g: Fragment, from: int)
    requires n < |es| && Arrived(es, n, g, from)
    ensures Arrived(es, n + 1, g, from)
  {
    var m :| 0 <= m < n && es[m].Arrive? && es[m].f == g && from <= es[m].t.at;
    assert 0 <= m < n + 1;
  }

  lemma {:induction false} TimelyLater(es: seq<Event>, n: nat, k: Key, e: Entry<Partial>)
    requires n < |es| && Timely(es, n, k, e)
    ensures Timely(es, n + 1, k, e)
  {
    forall i | 0 <= i < |e.item.chunks| && i < 0x100 && e.item.chunks[i].Some?
      ensures Arrived(es, n + 1, Fragment(k.sess, k.id, i, e.item.total, e.item.address, e.item.chunks[i].value), e.ms)
    {
      StillArrived(es, n, Fragment(k.sess, k.id, i, e.item.total, e.item.address, e.item.chunks[i].value), e.ms);
    }
  }

  /** Storing the fragment that just arrived keeps its partial timely. */
  lemma {:induction false} TimelyStore(es: seq<Event>, n: nat, e: Entry<Partial>, f: Fragment)
    requires n < |es| && es[n].Arrive? && es[n].f == f && e.ms <= es[n].t.at
    requires f.idx < |e.item.chunks| && e.item.total == f.total && e.item.address == f.address
    requires Timely(es, n, KeyOf(f), e)
    ensures Timely(es, n + 1, KeyOf(f), Store(e, f))
  {
    TimelyLater(es, n, KeyOf(f), e);
    assert Arrived(es, n + 1, f, e.ms);
  }

  lemma {:induction false} NextTimely(es: seq<Event>, n: nat, prior: Option<Entry<Partial>>, f: Fragment, now: U64)
    requires n < |es| && es[n].Arrive? && es[n].f == f && es[n].t.at == now && WellShaped(f)
    requires prior.Some? ==> Exact(prior.value) && Timely(es, n, KeyOf(f), prior.value) && prior.value.ms <= now
    ensures Timely(es, n + 1, KeyOf(f), Next(prior, f, now))
    ensures Next(prior, f, now).ms == now || (prior.Some? && Next(prior, f, now).ms == prior.value.ms)
  {
    if prior.None? || Restarts(prior.value.item, f) {
      TimelyStore(es, n, NewPartial(f, now), f);
    } else {
      TimelyStore(es, n, prior.value, f);
    }
  }

  /** A push leaves only current partials, whatever the caps then take away. */
  lemma {:induction false} CurrentAfterPush(start: Stamp, lag: nat, es: seq<Event>, n: nat, parts: Table<Partial>, f: Fragment)
    requires Ticked(start, lag, es) && n < |es| && es[n].Arrive? && es[n].f == f && WellShaped(f)
    requires Current(start, es, n, parts) && PartsOk(parts)
    ensures Current(start, es, n + 1, Goal(parts, f, es[n].t.at))
  {
    var (k, now) := (KeyOf(f), es[n].t.at);
    var goal := Goal(parts, f, now);
    assert ClockAt(start, es, n).at <= now;
    TickSane(start, lag, es, n);
    forall j | j in goal
      ensures Timely(es, n + 1, j, goal[j]) && goal[j].ms <= now && Fresh(goal[j].ms, TickAt(start, es, n + 1).at)
    {
      if j == k {
        NextTimely(es, n, Find(parts, k), f, now);
      } else {
        TimelyLater(es, n, j, parts[j]);
      }
    }
  }

  lemma {:induction false} CurrentWithin(start: Stamp, es: seq<Event>, n: nat, parts: Table<Partial>, t: Table<Partial>)
    requires n <= |es| && Current(start, es, n, parts) && Within(t, parts)
    ensures Current(start, es, n, t)
  {
  }

  /** An event that leaves the table alone leaves it current; a tick drops what it would make stale. */
  lemma {:induction false} CurrentLater(start: Stamp, lag: nat, es: seq<Event>, n: nat, parts: Table<Partial>)
    requires Ticked(start, lag, es) && n < |es| && Current(start, es, n, parts)
    ensures Current(start, es, n + 1, if es[n].Tick? then Alive(parts, es[n].t.at) else parts)
  {
    assert ClockAt(start, es, n).at <= es[n].t.at;
    forall k | k in parts
      ensures Timely(es, n + 1, k, parts[k])
    {
      TimelyLater(es, n, k, parts[k]);
    }
  }

  lemma {:induction false} NothingCurrent(start: Stamp, es: seq<Event>, parts: Table<Partial>)
    requires parts == map[]
    ensures Current(start, es, 0, parts)
  {
  }

  // ---------- what comes out ----------

  /** `g` is among the first `n` events, no earlier than `from`. */
  ghost predicate Came(es: seq<Event>, n: nat, g: Fragment, from: int)
    requires n <= |es|
  {
    exists m :: 0 <= m < n && es[m].Arrive? && es[m].f == g && from <= es[m].t.time
  }

  ghost predicate RecentPieces(es: seq<Event>, lag: nat, n: nat, f: Fragment, pieces: seq<Chunk>)
    requires n < |es|
  {
    && |pieces| == f.total
    && forall i :: 0 <= i < f.total ==>
         Came(es, n + 1, Piece(f, i, pieces[i]), es[n].t.time - PARTIAL_LIFE_MS - lag + 1)
  }

  /**
    `d`, handed on at event `n`, is the in-order concatenation of pieces that all arrived under the
    identity of the fragment that completed it, within the life of one partial and the clock's lag.
   */
  ghost predicate Assembled(es: seq<Event>, lag: nat, n: nat, d: Delivery)
    requires n < |es|
  {
    es[n].Arrive? && exists pieces ::
      RecentPieces(es, lag, n, es[n].f, pieces) && d == Delivery(es[n].f.sess, es[n].f.address, Flat(pieces))
  }

  lemma {:induction false} ArrivedCame(start: Stamp, lag: nat, es: seq<Event>, n: nat, g: Fragment, from: int, since: int)
    requires Ticked(start, lag, es) && n <= |es| && Arrived(es, n, g, from) && since <= from
    ensures Came(es, n, g, since)
  {
    var m :| 0 <= m < n && es[m].Arrive? && es[m].f == g && from <= es[m].t.at;
    assert Lags(es[m].t, lag);
  }

  lemma {:induction false} DeliveredIsAssembled(start: Stamp, lag: nat, es: seq<Event>, n: nat, parts: Table<Partial>, f: Fragment)
    requires Ticked(start, lag, es) && n < |es| && es[n].Arrive? && es[n].f == f && WellShaped(f)
    requires Current(start, es, n, parts) && PartsOk(parts)
    ensures var d := Delivered(Find(parts, KeyOf(f)), f); d.Some? ==> Assembled(es, lag, n, d.value)
  {
    var (k, now) := (KeyOf(f), es[n].t.time);
    if Delivered(Find(parts, k), f).Some? {
      var e := parts[k];
      TickSane(start, lag, es, n);
      assert ClockAt(start, es, n).at <= es[n].t.at && now - TickAt(start, es, n).time <= SWEEP_INTERVAL_MS;
      CompleteWithinCap(e, f);
      TimelyStore(es, n, e, f);
      var p := Store(e, f).item;
      var pieces := seq(|p.chunks|, i requires 0 <= i < |p.chunks| => p.chunks[i].value);
      JoinedIsFlat(p.chunks, pieces);
      forall i | 0 <= i < f.total
        ensures Came(es, n + 1, Piece(f, i, pieces[i]), now - PARTIAL_LIFE_MS - lag + 1)
      {
        ArrivedCame(start, lag, es, n + 1, Piece(f, i, pieces[i]), e.ms, now - PARTIAL_LIFE_MS - lag + 1);
      }
      assert RecentPieces(es, lag, n, f, pieces);
    }
  }

  lemma {:induction false} StepCurrent(hash: HashFn, start: Stamp, lag: nat, es: seq<Event>, n: nat,
                                       h: Snapshot, g: Snapshot, out: Option<Delivery>)
    requires Ticked(start, lag, es) && n < |es| && Current(start, es, n, h.parts) && Steps(hash, h, es[n], g, out)
    ensures Current(start, es, n + 1, g.parts)
    ensures out.Some? ==> Assembled(es, lag, n, out.value)
  {
    hide Current, Ticked, Assembled, Goal, Delivered, Retained, Remembers, Retired, Replays;
    CurrentLater(start, lag, es, n, h.parts);
    match es[n] {
      case Tick(t) =>
      case Arrive(f, t) =>
        if !TurnedAway(hash, h, f, t.at) {
          var seen := Swept(h.parts, h.lastSweep, t.at);
          CurrentWithin(start, es, n, h.parts, seen);
          CurrentAfterPush(start, lag, es, n, seen, f);
          DeliveredIsAssembled(start, lag, es, n, seen, f);
          CurrentWithin(start, es, n + 1, Goal(seen, f, t.at), g.parts);
        }
    }
  }

  lemma {:induction false} RunCurrent(hash: HashFn, start: Stamp, lag: nat, es: seq<Event>, hs: seq<Snapshot>,
                                      outs: seq<Option<Delivery>>, n: nat)
    requires Ticked(start, lag, es) && Runs(hash, es, hs, outs) && n <= |es|
    ensures Current(start, es, n, hs[n].parts)
  {
    hide Current, Ticked, Steps, Assembled;
    if n == 0 {
      NothingCurrent(start, es, hs[0].parts);
    } else {
      RunCurrent(hash, start, lag, es, hs, outs, n - 1);
      StepCurrent(hash, start, lag, es, n - 1, hs[n - 1], hs[n], outs[n - 1]);
    }
  }

  /** Whatever arrives, everything a run hands on was assembled within one partial's life and the clock's lag. */
  lemma {:induction false} RunAssembles(hash: HashFn, start: Stamp, lag: nat, es: seq<Event>, hs: seq<Snapshot>,
                                        outs: seq<Option<Delivery>>, n: nat)
    requires Ticked(start, lag, es) && Runs(hash, es, hs, outs) && n < |es| && outs[n].Some?
    ensures Assembled(es, lag, n, outs[n].value)
  {
    hide Current, Ticked, Steps, Assembled;
    RunCurrent(hash, start, lag, es, hs, outs, n);
    StepCurrent(hash, start, lag, es, n, hs[n], hs[n + 1], outs[n]);
  }

  // ---------- the sender ----------

  datatype Send = Send(address: TargetAddr, payload: Chunk, limit: nat)
  {
    /** The payload goes out in fragments: too long for one datagram, and not refused. */
    predicate Fragmented() {
      && Fragmenter.Sendable(address, payload, limit) && limit <= ISIZE_MAX
      && |payload| > SatSub(limit, Datagram.DGRAM_PREFIX_LEN + Header(address).value.len)
    }

    function Pieces(): (pieces: seq<Chunk>)
      requires Fragmented()
      ensures |pieces| <= MAX_TOTAL
    {
      Fragmenter.Pieces(address, payload, limit)
    }
  }

  /** One sending context: where its ids start, and what it sends after the claims made at `times`. */
  datatype Sender = Sender(sess: U32, ids: Fragmenter.Ids, times: seq<U64>, sends: seq<Send>)
  {
    ghost predicate Valid() {
      |sends| == |times| && Fragmenter.Monotone(times)
    }

    /** `g` decodes from a frame of the `n`-th payload, which was granted an id. */
    ghost predicate Emits(n: nat, g: Fragment)
      requires Valid()
    {
      n < |sends| && sends[n].Fragmented() && Fragmenter.Granted(ids, times, n).Some? &&
      exists i :: 0 <= i < |sends[n].Pieces()| && FrameReads(n, i, g)
    }

    ghost predicate FrameReads(n: nat, i: nat, g: Fragment)
      requires Valid() && n < |sends| && sends[n].Fragmented() && Fragmenter.Granted(ids, times, n).Some?
      requires i < |sends[n].Pieces()|
    {
      var (s, id) := (sends[n], Fragmenter.Granted(ids, times, n).value);
      var frame := Fragmenter.EncodedFragment(Fragmenter.Named(sess, id, s.address, s.Pieces())[i], s.limit);
      frame.Some? && |frame.value| <= ISIZE_MAX && Fragmenter.DecodeFragment(frame.value) == Ok(g)
    }

    /** What arrives for this session comes from this sender, at most `delay` after its id was claimed. */
    ghost predicate Feeds(es: seq<Event>, delay: nat)
      requires Valid()
    {
      forall m :: 0 <= m < |es| && es[m].Arrive? && es[m].f.sess == sess ==> FeedsOne(es[m], delay)
    }

    ghost predicate FeedsOne(e: Event, delay: nat)
      requires Valid() && e.Arrive?
    {
      exists n: nat :: Emits(n, e.f) && times[n] <= e.t.time <= times[n] + delay
    }

    /** A fragment the `n`-th payload emits is the piece its index names. */
    lemma {:induction false} EmitsPiece(n: nat, g: Fragment)
      requires Valid() && Emits(n, g)
      ensures var (s, pieces) := (sends[n], sends[n].Pieces());
              && Fragmenter.Granted(ids, times, n) == Some(g.id) && Flat(pieces) == s.payload
              && g.idx < g.total == |pieces| && g.address == OnWire(s.address) && g.chunk == pieces[g.idx]
    {
      var (s, id) := (sends[n], Fragmenter.Granted(ids, times, n).value);
      var i :| 0 <= i < |s.Pieces()| && FrameReads(n, i, g);
      FramesAreOneParcel(sess, id, s.address, s.payload, s.limit, i);
    }

    /** And every piece is emitted. */
    lemma {:induction false} PieceEmitted(n: nat, i: nat)
      requires Valid() && n < |sends| && sends[n].Fragmented() && Fragmenter.Granted(ids, times, n).Some?
      requires i < |sends[n].Pieces()|
      ensures var s := sends[n];
              Emits(n, Fragment(sess, Fragmenter.Granted(ids, times, n).value, i, |s.Pieces()|, OnWire(s.address), s.Pieces()[i]))
    {
      var (s, id) := (sends[n], Fragmenter.Granted(ids, times, n).value);
      FramesAreOneParcel(sess, id, s.address, s.payload, s.limit, i);
      assert FrameReads(n, i, Fragment(sess, id, i, |s.Pieces()|, OnWire(s.address), s.Pieces()[i]));
    }

    /** Two claims of one id that are closer than the window are one claim. */
    lemma {:induction false} SameClaim(n: nat, m: nat)
      requires Valid() && n < |times| && m < |times|
      requires Fragmenter.Granted(ids, times, n).Some?
      requires Fragmenter.Granted(ids, times, n) == Fragmenter.Granted(ids, times, m)
      requires times[n] < times[m] + Fragmenter.SAFE_WINDOW_MS && times[m] < times[n] + Fragmenter.SAFE_WINDOW_MS
      ensures n == m
    {
      if n < m {
        Fragmenter.IdReuseOutsideWindow(ids, times, n, m);
      } else if m < n {
        Fragmenter.IdReuseOutsideWindow(ids, times, m, n);
      }
    }
  }

  /** One piece of a delivered payload is the piece of the payload that the completing fragment was cut from. */
  lemma {:induction false} PieceIsOwn(s: Sender, start: Stamp, lag: nat, delay: nat, es: seq<Event>, k: nat, n: nat, i: U8, c: Chunk)
    requires s.Valid() && s.Feeds(es, delay) && Ticked(start, lag, es) && lag + delay <= MARGIN_MS
    requires k < |es| && es[k].Arrive? && es[k].f.sess == s.sess && i < es[k].f.total
    requires s.Emits(n, es[k].f) && s.times[n] <= es[k].t.time <= s.times[n] + delay
    requires Came(es, k + 1, Piece(es[k].f, i, c), es[k].t.time - PARTIAL_LIFE_MS - lag + 1)
    ensures i < |s.sends[n].Pieces()| && c == s.sends[n].Pieces()[i]
  {
    hide Sender.FrameReads, Flat, Fragmenter.Granted, Send.Pieces, Fragmenter.Monotone;
    var (g, now) := (Piece(es[k].f, i, c), es[k].t.time);
    var m :| 0 <= m < k + 1 && es[m].Arrive? && es[m].f == g && now - PARTIAL_LIFE_MS - lag + 1 <= es[m].t.time;
    TimeRises(start, lag, es, m, k);
    assert s.FeedsOne(es[m], delay);
    var j: nat :| s.Emits(j, g) && s.times[j] <= es[m].t.time <= s.times[j] + delay;
    s.EmitsPiece(n, es[k].f);
    s.EmitsPiece(j, g);
    s.SameClaim(n, j);
  }

  lemma {:induction false} AssembledWasSent(s: Sender, start: Stamp, lag: nat, delay: nat, es: seq<Event>, k: nat, d: Delivery)
    returns (n: nat)
    requires s.Valid() && s.Feeds(es, delay) && Ticked(start, lag, es) && lag + delay <= MARGIN_MS
    requires k < |es| && Assembled(es, lag, k, d) && d.sess == s.sess
    ensures n < |s.sends| && s.sends[n].Fragmented() && Fragmenter.Granted(s.ids, s.times, n) == Some(es[k].f.id)
    ensures d == Delivery(s.sess, OnWire(s.sends[n].address), s.sends[n].payload)
  {
    hide Sender.FrameReads, Came, Ticked, Flat, Fragmenter.Granted, Send.Pieces, Fragmenter.Monotone;
    var f := es[k].f;
    var pieces :| RecentPieces(es, lag, k, f, pieces) && d == Delivery(f.sess, f.address, Flat(pieces));
    assert s.FeedsOne(es[k], delay);
    n :| s.Emits(n, f) && s.times[n] <= es[k].t.time <= s.times[n] + delay;
    s.EmitsPiece(n, f);
    var sent := s.sends[n].Pieces();
    forall i | 0 <= i < f.total
      ensures pieces[i] == sent[i]
    {
      PieceIsOwn(s, start, lag, delay, es, k, n, i, pieces[i]);
    }
    assert pieces == sent;
  }

  /**
    Every payload a run hands on for the session is one its sender sent, to the address it was sent
    to, as long as the clock's lag and the time on the way stay within the margin: fragments of two
    payloads never mix.
   */
  lemma {:induction false} DeliveredWasSent(s: Sender, hash: HashFn, start: Stamp, lag: nat, delay: nat, es: seq<Event>,
                                            hs: seq<Snapshot>, outs: seq<Option<Delivery>>, k: nat) returns (n: nat)
    requires s.Valid() && s.Feeds(es, delay) && Ticked(start, lag, es) && lag + delay <= MARGIN_MS
    requires Runs(hash, es, hs, outs) && k < |es| && outs[k].Some? && outs[k].value.sess == s.sess
    ensures n < |s.sends| && s.sends[n].Fragmented() && es[k].Arrive?
    ensures Fragmenter.Granted(s.ids, s.times, n) == Some(es[k].f.id)
    ensures outs[k].value == Delivery(s.sess, OnWire(s.sends[n].address), s.sends[n].payload)
  {
    hide Sender.Feeds, Ticked, Steps, RecentPieces, Fragmenter.Granted, Send.Fragmented;
    RunAssembles(hash, start, lag, es, hs, outs, k);
    n := AssembledWasSent(s, start, lag, delay, es, k, outs[k].value);
  }

  // ---------- what was sent comes out ----------

  /** The `n`-th payload as its pieces arrive. */
  ghost function Sent(s: Sender, n: nat): (p: Parcel)
    requires s.Valid() && n < |s.sends| && s.sends[n].Fragmented() && Fragmenter.Granted(s.ids, s.times, n).Some?
  {
    Parcel(s.sess, Fragmenter.Granted(s.ids, s.times, n).value, OnWire(s.sends[n].address), s.sends[n].Pieces())
  }

  lemma {:induction false} SentLegal(s: Sender, n: nat)
    requires s.Valid() && n < |s.sends| && s.sends[n].Fragmented() && Fragmenter.Granted(s.ids, s.times, n).Some?
    ensures Legal(Sent(s, n)) && Flat(Sent(s, n).pieces) == s.sends[n].payload
  {
    hide Fragmenter.Granted;
    var d := s.sends[n];
    Fragmenter.FragmentsCarryPayload(s.sess, Sent(s, n).id, d.address, d.payload, d.limit, 0);
    FramesAreOneParcel(s.sess, Sent(s, n).id, d.address, d.payload, d.limit, 0);
  }

  /** Close enough to an arrival of the `n`-th payload, whatever arrives under its key is a piece of it. */
  lemma {:induction false} OnlyItsPieces(s: Sender, start: Stamp, lag: nat, delay: nat, es: seq<Event>, n: nat, a: nat, j: nat)
    requires s.Valid() && s.Feeds(es, delay) && Ticked(start, lag, es) && TIMEOUT_MS + lag + delay <= Fragmenter.SAFE_WINDOW_MS
    requires n < |s.sends| && s.sends[n].Fragmented() && Fragmenter.Granted(s.ids, s.times, n).Some? && Legal(Sent(s, n))
    requires a <= j < |es| && s.times[n] <= es[a].t.time <= s.times[n] + delay
    requires SatSub(es[j].t.at, es[a].t.at) < TIMEOUT_MS && OfKey(es[j], Name(Sent(s, n)))
    ensures PieceOf(Sent(s, n), es[j].f)
  {
    hide Sender.FrameReads, Flat, Fragmenter.Granted, Send.Pieces, Fragmenter.Monotone, Legal;
    TimeRises(start, lag, es, a, j);
    assert Lags(es[a].t, lag) && Lags(es[j].t, lag);
    assert s.FeedsOne(es[j], delay);
    var c: nat :| s.Emits(c, es[j].f) && s.times[c] <= es[j].t.time <= s.times[c] + delay;
    s.EmitsPiece(c, es[j].f);
    s.SameClaim(n, c);
  }

  /**
    End to end, the other way: once a piece of the `n`-th payload is taken, at event `a`, and as long as
    nothing is forced out, the payload that was sent comes out with the last of its pieces to arrive
    within the timeout, and nothing comes out for its key before, though ids wrap and any other traffic
    arrives in between.
   */
  lemma {:induction false} SentIsDelivered(s: Sender, hash: HashFn, start: Stamp, lag: nat, delay: nat, es: seq<Event>,
                                           hs: seq<Snapshot>, outs: seq<Option<Delivery>>, n: nat, a: nat, b: nat)
    requires s.Valid() && s.Feeds(es, delay) && Ticked(start, lag, es) && TIMEOUT_MS + lag + delay <= Fragmenter.SAFE_WINDOW_MS
    requires Continues(hash, es, hs, outs) && n < |s.sends| && s.sends[n].Fragmented()
    requires Fragmenter.Granted(s.ids, s.times, n).Some?
    requires a <= b < |es| && Opens(hash, es, hs, Sent(s, n), a) && s.times[n] <= es[a].t.time <= s.times[n] + delay
    requires forall j :: a <= j <= b ==> SatSub(es[j].t.at, es[a].t.at) < TIMEOUT_MS
    requires forall j :: a <= j < b ==> Roomy(hash, hs[j], es[j])
    requires OfKey(es[b], Name(Sent(s, n))) && !Everything(Sent(s, n), Collected(hash, es, hs, Name(Sent(s, n)), a, b))
    ensures forall j :: a <= j < b && OfKey(es[j], Name(Sent(s, n))) ==> outs[j] == None
    ensures if Everything(Sent(s, n), Collected(hash, es, hs, Name(Sent(s, n)), a, b + 1)) then
              outs[b] == Some(Delivery(s.sess, OnWire(s.sends[n].address), s.sends[n].payload))
            else outs[b] == None
  {
    hide Sender.Feeds, Ticked, Continues, Roomy, Collected, Everything, Opens, PieceOf, Legal, Flat, Fragmenter.Granted,
      Send.Pieces, Send.Fragmented, HandsOn;
    var p := Sent(s, n);
    SentLegal(s, n);
    forall j | a <= j <= b && OfKey(es[j], Name(p))
      ensures PieceOf(p, es[j].f)
    {
      OnlyItsPieces(s, start, lag, delay, es, n, a, j);
    }
    ContinuesSize(hash, es, hs, outs);
    Delivers(hash, es, hs, outs, p, a, b);
  }

  lemma {:induction false} ContinuesSize(hash: HashFn, es: seq<Event>, hs: seq<Snapshot>, outs: seq<Option<Delivery>>)
    requires Continues(hash, es, hs, outs)
    ensures |hs| == |es| + 1 && |outs| == |es|
  {
  }

  // ---------- past the margin ----------

  const DEST: TargetAddr := Ip(V4([192, 0, 2, 1], 53))
  const IDS: nat := 0x1_0000_0000
  const LAST_ID: U32 := 0xFFFF_FFFF

  /** Fourteen equal bytes, sent in two fragments of seven. */
  function Uniform(x: U8): (s: Send)
  {
    Send(DEST, seq(14, _ => x), 25)
  }

  lemma {:induction false} UniformPieces(x: U8)
    ensures Uniform(x).Fragmented()
    ensures Uniform(x).Pieces() == [seq(7, _ => x), seq(7, _ => x)]
  {
    var p := Uniform(x).payload;
    assert Fragmenter.ChunkSize(25, DEST) == 7 && Fragmenter.DivCeil(14, 7) == 2;
    assert p[..7] == seq(7, _ => x) && p[7..] == seq(7, _ => x);
    assert Fragmenter.Cut(p, 7) == [p[..7]] + Fragmenter.Cut(p[7..], 7);
  }

  /** The last id goes out at 1000 and, a whole cycle of ids later, again at 4000: as early as the guard allows. */
  ghost function Wrapping(): (s: Sender) {
    Sender(7, Fragmenter.Ids(LAST_ID, 0), seq(IDS + 1, i => if i == 0 then 1_000 else 4_000),
           seq(IDS + 1, i => if i == IDS then Uniform(1) else Uniform(0)))
  }

  lemma {:induction false} CycleOfIds(k: nat)
    requires k < IDS
    ensures var s := Wrapping(); Fragmenter.After(s.ids, s.times[..k + 1]) == Fragmenter.Ids(k, 1_000)
  {
    var s := Wrapping();
    var ts := s.times[..k + 1];
    assert ts[..k] == s.times[..k];
    if k > 0 {
      CycleOfIds(k - 1);
    }
  }

  lemma {:induction false} WrappingGrants()
    ensures var s := Wrapping();
            && s.Valid() && Fragmenter.Granted(s.ids, s.times, 0) == Some(LAST_ID)
            && Fragmenter.Granted(s.ids, s.times, IDS) == Some(LAST_ID)
  {
    CycleOfIds(IDS - 1);
    assert Wrapping().times[..0] == [];
  }

  /** A payload nobody sent: the first half of one, the second half of the other. */
  function Mixed(): (p: Parcel) {
    Parcel(7, LAST_ID, DEST, [seq(7, _ => 0), seq(7, _ => 1)])
  }

  lemma {:induction false} MixedLegal()
    ensures Legal(Mixed()) && Flat(Mixed().pieces) == seq(7, _ => 0) + seq(7, _ => 1)
  {
    FlatPair(seq(7, _ => 0), seq(7, _ => 1));
  }

  /**
    One fragment of the first payload arrives `d` after its claim; the readings then fall `lag`
    behind, five ticks pass, and the other fragment of the second payload arrives at once.
   */
  function LateRun(d: nat, lag: nat): (es: seq<Event>)
    requires d + lag == MARGIN_MS + 1
  {
    MixedLegal();
    var open := 1_000 + d;
    var first := if open + 500 <= 2_000 then open + 500 else 2_000;
    [Arrive(At(Mixed(), 0), Stamp(open, open)),
     Tick(Stamp(if first - lag < open then open else first - lag, first)),
     Tick(Stamp(2_000 - lag, 2_000)), Tick(Stamp(2_500 - lag, 2_500)),
     Tick(Stamp(3_000 - lag, 3_000)), Tick(Stamp(3_500 - lag, 3_500)),
     Arrive(At(Mixed(), 1), Stamp(4_000 - lag, 4_000))]
  }

  lemma {:induction false} LateRunTicked(d: nat, lag: nat, most: nat)
    requires d + lag == MARGIN_MS + 1 && lag <= most
    ensures Ticked(Stamp(1_000 + d, 1_000 + d), most, LateRun(d, lag))
  {
    var (start, es) := (Stamp(1_000 + d, 1_000 + d), LateRun(d, lag));
    assert TickAt(start, es, 0) == start;
    assert TickAt(start, es, 1) == TickAt(start, es, 0);
    assert es[1].Tick? && TickAt(start, es, 2) == es[1].t;
    assert es[2].Tick? && TickAt(start, es, 3) == es[2].t;
    assert es[3].Tick? && TickAt(start, es, 4) == es[3].t;
    assert es[4].Tick? && TickAt(start, es, 5) == es[4].t;
    assert es[5].Tick? && TickAt(start, es, 6) == es[5].t;
  }

  /** Half `i` of the `n`-th payload of the wrapping sender, as it arrives. */
  lemma {:induction false} HalfEmitted(n: nat, x: U8, i: nat)
    requires n <= IDS && i < 2 && (n == 0 || n == IDS) && x == if n == IDS then 1 else 0
    ensures Wrapping().Valid() && Wrapping().Emits(n, Fragment(7, LAST_ID, i, 2, DEST, seq(7, _ => x)))
  {
    hide Sender.Emits, Fragmenter.Granted, Send.Fragmented, Send.Pieces;
    var s := Wrapping();
    WrappingGrants();
    UniformPieces(x);
    assert s.sends[n] == Uniform(x);
    s.PieceEmitted(n, i);
  }

  lemma {:induction false} LateRunFed(d: nat, lag: nat, delay: nat)
    requires d + lag == MARGIN_MS + 1 && d <= delay
    ensures Wrapping().Valid() && Wrapping().Feeds(LateRun(d, lag), delay)
  {
    hide Sender.Emits, Sender.Valid, Legal;
    var (s, es) := (Wrapping(), LateRun(d, lag));
    HalfEmitted(0, 0, 0);
    HalfEmitted(IDS, 1, 1);
    MixedLegal();
    assert s.times[0] == 1_000 && s.times[IDS] == 4_000;
    assert s.FeedsOne(es[0], delay);
    assert s.FeedsOne(es[6], delay);
  }

  /** Until the last event of the late run the first half is still held, and no tombstone stands for it. */
  ghost predicate HalfHeld(h: Snapshot, d: nat)
    requires d <= MARGIN_MS + 1
  {
    Gathers(Find(h.parts, Name(Mixed())), Mixed(), {0}, 1_000 + d) && Name(Mixed()) !in h.recent
  }

  lemma {:induction false} FirstHalf(hash: HashFn, d: nat, e: Event, g: Snapshot, out: Option<Delivery>)
    requires d <= MARGIN_MS + 1 && Legal(Mixed()) && e.Arrive? && e.f == At(Mixed(), 0) && e.t.at == 1_000 + d
    requires Steps(hash, NOTHING, e, g, out)
    ensures HalfHeld(g, d)
  {
    hide Steps, Gathers, Everything, Legal, Mixed;
    HalfMissing();
    NothingGathered(NOTHING, Mixed(), 1_000 + d);
    RoomForFirst(hash, NOTHING, e, Mixed(), 0);
    PieceArrives(hash, NOTHING, e, g, out, Mixed(), 0, {}, 1_000 + d);
  }

  lemma {:induction false} HalfKept(d: nat, h: Snapshot, at: U64, g: Snapshot)
    requires d <= MARGIN_MS + 1 && HalfHeld(h, d) && Expires(h, at, g) && at < 3_000 + d
    ensures HalfHeld(g, d) && g.lastSweep == at
  {
    hide Mixed, Holds;
  }

  lemma {:induction false} SecondHalf(hash: HashFn, d: nat, h: Snapshot, e: Event, g: Snapshot, out: Option<Delivery>)
    requires d <= MARGIN_MS + 1 && Legal(Mixed()) && e.Arrive? && e.f == At(Mixed(), 1)
    requires HalfHeld(h, d) && h.lastSweep != 0 && SatSub(e.t.at, h.lastSweep) < SWEEP_EVERY_MS
    requires Steps(hash, h, e, g, out)
    ensures out == Some(Delivery(7, DEST, Flat(Mixed().pieces)))
  {
    hide Steps, Gathers, Everything, Flat, Legal, Mixed;
    HalfMissing();
    PieceArrives(hash, h, e, g, out, Mixed(), 1, {0}, 1_000 + d);
    HandedOn(hash, h, e, g, out, Mixed());
  }

  /** Every run on the late events ends by handing on the mixture. */
  lemma {:induction false} LateRunMixes(hash: HashFn, d: nat, lag: nat, hs: seq<Snapshot>, outs: seq<Option<Delivery>>)
    requires d + lag == MARGIN_MS + 1 && Runs(hash, LateRun(d, lag), hs, outs)
    ensures outs[6] == Some(Delivery(7, DEST, Flat(Mixed().pieces)))
  {
    hide Pushes, Expires, HalfHeld, Flat, Mixed, Legal;
    MixedLegal();
    var es := LateRun(d, lag);
    assert Steps(hash, hs[0], es[0], hs[1], outs[0]);
    FirstHalf(hash, d, es[0], hs[1], outs[0]);
    for n := 1 to 6
      invariant HalfHeld(hs[n], d) && (n == 6 ==> hs[n].lastSweep == 3_500 - lag)
    {
      assert Steps(hash, hs[n], es[n], hs[n + 1], outs[n]);
      HalfKept(d, hs[n], es[n].t.at, hs[n + 1]);
    }
    assert Steps(hash, hs[6], es[6], hs[7], outs[6]);
    SecondHalf(hash, d, hs[6], es[6], hs[7], outs[6]);
  }

  /**
    Past the margin the guarantee fails: for any larger sum of lag and delay there is a run within both
    bounds, fed by a sender that keeps to the id window, in which a payload nobody sent comes out.
   */
  method LateFragmentsSplice(hash: HashFn, lag: nat, delay: nat)
    returns (start: Stamp, es: seq<Event>, outs: seq<Option<Delivery>>, ghost hs: seq<Snapshot>, ghost s: Sender)
    requires lag + delay > MARGIN_MS
    ensures s.Valid() && s.Feeds(es, delay) && Ticked(start, lag, es)
    ensures Runs(hash, es, hs, outs) && |es| == 7 && outs[6].Some? && outs[6].value.sess == s.sess
    ensures forall n :: 0 <= n < |s.sends| ==> outs[6].value.payload != s.sends[n].payload
  {
    hide Runs, Ticked, Sender.Feeds, Sender.Valid, Flat;
    var d := if delay <= MARGIN_MS then delay else MARGIN_MS + 1;
    var behind := MARGIN_MS + 1 - d;
    start, es, s := Stamp(1_000 + d, 1_000 + d), LateRun(d, behind), Wrapping();
    LateRunTicked(d, behind, lag);
    LateRunFed(d, behind, delay);
    NobodySentMixed();
    outs := Receive(hash, es);
    hs :| Runs(hash, es, hs, outs);
    LateRunMixes(hash, d, behind, hs, outs);
  }

  lemma {:induction false} HalfMissing()
    ensures |Mixed().pieces| == 2 && Mixed().sess == 7 && Mixed().id == LAST_ID && Mixed().address == DEST
    ensures !Everything(Mixed(), {}) && !Everything(Mixed(), {} + {0}) && !Everything(Mixed(), {0})
    ensures Everything(Mixed(), {0} + {1}) && {} + {0} == {0}
  {
    OfTwo(Mixed());
  }

  lemma {:induction false} NobodySentMixed()
    ensures forall n :: 0 <= n < |Wrapping().sends| ==> Flat(Mixed().pieces) != Wrapping().sends[n].payload
  {
    MixedLegal();
    var m := Flat(Mixed().pieces);
    assert m[0] == 0 && m[13] == 1;
    forall n | 0 <= n < |Wrapping().sends|
      ensures m != Wrapping().sends[n].payload
    {
      var s := Wrapping().sends[n];
      assert s == Uniform(if n == IDS then 1 else 0);
      assert s.payload[0] == s.payload[13];
    }
  }
}
