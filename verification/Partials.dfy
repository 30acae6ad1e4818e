/** A partially reassembled payload, and what one more fragment does to it. */
module Partials {
  import opened Bytes
  import opened Addr
  import opened FragTable

  const MAX_PAYLOAD: nat := 8192
  const MAX_TOTAL: nat := 64

  /** Bytes of one slot of the chunk table, and of one slot of a tombstone's fingerprint table. */
  const SLOT_BYTES: nat := 32
  const PRINT_BYTES: nat := 24

  /** No slice is longer than `isize::MAX` bytes. */
  const ISIZE_MAX: nat := 0x7FFF_FFFF_FFFF_FFFF

  type Chunk = c: Octets | |c| <= ISIZE_MAX

  datatype Fragment = Fragment(sess: U32, id: U32, idx: U8, total: U8, address: TargetAddr, chunk: Chunk)

  predicate WellShaped(f: Fragment) {
    2 <= f.total <= MAX_TOTAL && f.idx < f.total
  }

  datatype Partial = Partial(total: U8, address: TargetAddr, chunks: seq<Option<Chunk>>, got: nat, bytes: nat)

  // ---------- the chunk table ----------

  function Got(chunks: seq<Option<Chunk>>): (n: nat)
    ensures n <= |chunks|
  {
    if chunks == [] then 0 else (if chunks[0].Some? then 1 else 0) + Got(chunks[1..])
  }

  function Held(chunks: seq<Option<Chunk>>): (n: nat) {
    if chunks == [] then 0 else (if chunks[0].Some? then |chunks[0].value| else 0) + Held(chunks[1..])
  }

  function Joined(chunks: seq<Option<Chunk>>): (b: Octets)
    ensures |b| == Held(chunks)
  {
    if chunks == [] then [] else (if chunks[0].Some? then chunks[0].value else []) + Joined(chunks[1..])
  }

  function Empty(n: nat): (chunks: seq<Option<Chunk>>)
    ensures |chunks| == n && forall i :: 0 <= i < n ==> chunks[i].None?
  {
    if n == 0 then [] else [None] + Empty(n - 1)
  }

  lemma {:induction false} EmptyHoldsNothing(n: nat)
    ensures Got(Empty(n)) == 0 && Held(Empty(n)) == 0
  {
    if n > 0 {
      assert Empty(n)[1..] == Empty(n - 1);
      EmptyHoldsNothing(n - 1);
    }
  }

  lemma {:induction false} Fill(chunks: seq<Option<Chunk>>, i: nat, c: Chunk)
    requires i < |chunks| && chunks[i].None?
    ensures Got(chunks[i := Some(c)]) == Got(chunks) + 1
    ensures Held(chunks[i := Some(c)]) == Held(chunks) + |c|
  {
    if i == 0 {
      assert chunks[i := Some(c)][1..] == chunks[1..];
    } else {
      assert chunks[i := Some(c)][1..] == chunks[1..][i - 1 := Some(c)];
      Fill(chunks[1..], i - 1, c);
    }
  }

  lemma {:induction false} FullExactly(chunks: seq<Option<Chunk>>)
    ensures Got(chunks) == |chunks| <==> forall i :: 0 <= i < |chunks| ==> chunks[i].Some?
  {
    if chunks != [] {
      FullExactly(chunks[1..]);
      if forall i :: 0 <= i < |chunks| ==> chunks[i].Some? {
        assert forall i :: 0 <= i < |chunks[1..]| ==> chunks[1..][i] == chunks[i + 1];
      }
      if Got(chunks) == |chunks| {
        forall i | 0 <= i < |chunks|
          ensures chunks[i].Some?
        {
          if i > 0 {
            assert chunks[i] == chunks[1..][i - 1];
          }
        }
      }
    }
  }

  lemma {:induction false} ChunkWithinHeld(chunks: seq<Option<Chunk>>, i: nat)
    requires i < |chunks| && chunks[i].Some?
    ensures |chunks[i].value| <= Held(chunks)
  {
    if i > 0 {
      assert chunks[i] == chunks[1..][i - 1];
      ChunkWithinHeld(chunks[1..], i - 1);
    }
  }

  lemma {:induction false} JoinedNext(chunks: seq<Option<Chunk>>, i: nat)
    requires i < |chunks|
    ensures Joined(chunks[i..]) == (if chunks[i].Some? then chunks[i].value else []) + Joined(chunks[i + 1..])
  {
    assert chunks[i..][1..] == chunks[i + 1..];
  }

  lemma {:induction false} NothingJoined(chunks: seq<Option<Chunk>>)
    requires chunks == []
    ensures Joined(chunks) == []
  {
  }

  method Assemble(chunks: seq<Option<Chunk>>) returns (out: Octets)
    ensures out == Joined(chunks)
  {
    hide Joined, Held;
    out := [];
    assert chunks[0..] == chunks;
    for i := 0 to |chunks|
      invariant out + Joined(chunks[i..]) == Joined(chunks)
    {
      JoinedNext(chunks, i);
      if chunks[i].Some? {
        Assoc(out, chunks[i].value, Joined(chunks[i + 1..]));
        out := out + chunks[i].value;
      }
    }
    NothingJoined(chunks[|chunks|..]);
  }

  /** The payload whose consecutive pieces are `pieces`. */
  function Flat(pieces: seq<Chunk>): (b: Octets) {
    if pieces == [] then [] else pieces[0] + Flat(pieces[1..])
  }

  lemma {:induction false} JoinedIsFlat(chunks: seq<Option<Chunk>>, pieces: seq<Chunk>)
    requires |chunks| == |pieces| && forall i :: 0 <= i < |chunks| ==> chunks[i] == Some(pieces[i])
    ensures Joined(chunks) == Flat(pieces)
  {
    if chunks != [] {
      JoinedIsFlat(chunks[1..], pieces[1..]);
    }
  }

  // ---------- one fragment ----------

  predicate Taken(p: Partial, f: Fragment) {
    f.idx < |p.chunks| && p.chunks[f.idx].Some?
  }

  /** The fragment would push the payload past its ceiling; a duplicate adds nothing. */
  predicate OverCap(p: Partial, f: Fragment) {
    !Taken(p, f) && SatAdd(p.bytes, |f.chunk|) > MAX_PAYLOAD
  }

  /** The fragment belongs to another generation of the same key. */
  predicate Restarts(p: Partial, f: Fragment) {
    p.total != f.total || (p.got > 0 && (p.address != f.address || (Taken(p, f) && p.chunks[f.idx].value != f.chunk)))
  }

  function NewPartial(f: Fragment, now: U64): (e: Entry<Partial>) {
    Entry(now, 0, Partial(f.total, f.address, Empty(f.total), 0, 0))
  }

  /** Bytes storing the fragment adds: its own, and the slot table with the first one. */
  function Charge(p: Partial, f: Fragment): (n: nat) {
    |f.chunk| + if p.got == 0 then p.total * SLOT_BYTES else 0
  }

  function Store(e: Entry<Partial>, f: Fragment): (r: Entry<Partial>)
    requires f.idx < |e.item.chunks|
  {
    var p := e.item;
    if Taken(p, f) then e
    else
      Entry(e.ms, SatAdd(e.retained, Charge(p, f)),
            Partial(p.total, p.address, p.chunks[f.idx := Some(f.chunk)], p.got + 1, p.bytes + |f.chunk|))
  }

  /** What the table holds for the fragment's key once the fragment is in. */
  function Next(prior: Option<Entry<Partial>>, f: Fragment, now: U64): (r: Entry<Partial>)
    requires WellShaped(f) && (prior.Some? ==> |prior.value.item.chunks| == prior.value.item.total)
  {
    if prior.None? || Restarts(prior.value.item, f) then Store(NewPartial(f, now), f) else Store(prior.value, f)
  }

  predicate Completes(p: Partial, f: Fragment) {
    !OverCap(p, f) && !Restarts(p, f) && !Taken(p, f) && p.got + 1 == p.total
  }

  // ---------- what every partial keeps ----------

  /**
    The counters are what the chunk table says they are, the charge is the chunks plus the slot table,
    and only a payload that holds a single chunk can be over the ceiling.
   */
  ghost predicate Exact(e: Entry<Partial>) {
    var p := e.item;
    && 2 <= p.total <= MAX_TOTAL && |p.chunks| == p.total
    && 1 <= p.got == Got(p.chunks) && p.bytes == Held(p.chunks)
    && e.retained == p.bytes + p.total * SLOT_BYTES
    && (p.got == 1 || p.bytes <= MAX_PAYLOAD)
    && p.bytes <= ISIZE_MAX
  }

  lemma {:induction false} StoreNew(f: Fragment, now: U64)
    requires WellShaped(f)
    ensures var e := Store(NewPartial(f, now), f);
            Exact(e) && e.item.got == 1 && e.retained == Charge(NewPartial(f, now).item, f)
  {
    EmptyHoldsNothing(f.total);
    Fill(Empty(f.total), f.idx, f.chunk);
  }

  lemma {:induction false} StoreKeepsExact(e: Entry<Partial>, f: Fragment)
    requires Exact(e) && WellShaped(f) && !Restarts(e.item, f) && !OverCap(e.item, f)
    ensures Exact(Store(e, f))
    ensures Store(e, f).retained == e.retained + if Taken(e.item, f) then 0 else Charge(e.item, f)
  {
    if !Taken(e.item, f) {
      Fill(e.item.chunks, f.idx, f.chunk);
    }
  }

  /** A partial is over the payload ceiling exactly when it holds a single chunk that is. */
  lemma {:induction false} OverCeilingExactly(e: Entry<Partial>)
    requires Exact(e)
    ensures e.item.bytes > MAX_PAYLOAD <==>
            e.item.got == 1 && exists i :: 0 <= i < e.item.total && e.item.chunks[i].Some? && |e.item.chunks[i].value| > MAX_PAYLOAD
  {
    var chunks := e.item.chunks;
    if e.item.bytes > MAX_PAYLOAD {
      OnlyChunk(chunks);
    }
    forall i | 0 <= i < |chunks| && chunks[i].Some?
      ensures |chunks[i].value| <= e.item.bytes
    {
      ChunkWithinHeld(chunks, i);
    }
  }

  lemma {:induction false} NoChunk(chunks: seq<Option<Chunk>>)
    requires Got(chunks) == 0
    ensures Held(chunks) == 0
  {
    if chunks != [] {
      NoChunk(chunks[1..]);
    }
  }

  lemma {:induction false} OnlyChunk(chunks: seq<Option<Chunk>>)
    requires Got(chunks) == 1
    ensures exists i :: 0 <= i < |chunks| && chunks[i].Some? && |chunks[i].value| == Held(chunks)
  {
    if chunks[0].Some? {
      NoChunk(chunks[1..]);
    } else {
      OnlyChunk(chunks[1..]);
      var i :| 0 <= i < |chunks[1..]| && chunks[1..][i].Some? && |chunks[1..][i].value| == Held(chunks[1..]);
      assert chunks[i + 1] == chunks[1..][i];
    }
  }

  /** The chunk that opens a partial is not held against the ceiling: any longer one is stored all the same. */
  lemma {:induction false} FirstChunkUncapped(f: Fragment, now: U64)
    requires WellShaped(f)
    ensures var e := Store(NewPartial(f, now), f);
            Exact(e) && (e.item.bytes > MAX_PAYLOAD <==> |f.chunk| > MAX_PAYLOAD)
  {
    StoreNew(f, now);
  }

  /** But a partial over the ceiling delivers nothing: every fragment that would add to it removes it. */
  lemma {:induction false} OverCeilingNeverDelivers(e: Entry<Partial>, f: Fragment)
    requires Exact(e) && WellShaped(f) && e.item.bytes > MAX_PAYLOAD
    ensures !Completes(e.item, f) && (OverCap(e.item, f) <==> !Taken(e.item, f))
  {
  }

  /** The fragment contradicts what is held: another total, another address, or other bytes at its index. */
  predicate Conflicts(p: Partial, f: Fragment) {
    p.total != f.total || p.address != f.address || (f.idx < |p.chunks| && p.chunks[f.idx].Some? && p.chunks[f.idx].value != f.chunk)
  }

  /**
    What is held once a fragment is in, chunk by chunk: its own chunk at its index; everywhere else what
    was held if it agrees with that, and nothing if it does not, for then it opens a new generation.
   */
  lemma {:induction false} NextExactly(prior: Option<Entry<Partial>>, f: Fragment, now: U64)
    requires WellShaped(f) && (prior.Some? ==> Exact(prior.value))
    ensures var (e, kept) := (Next(prior, f, now), prior.Some? && !Conflicts(prior.value.item, f));
            && e.item.total == f.total == |e.item.chunks| && e.item.address == f.address
            && e.ms == (if kept then prior.value.ms else now)
            && forall i :: 0 <= i < f.total ==>
                 e.item.chunks[i] == if i == f.idx then Some(f.chunk) else if kept then prior.value.item.chunks[i] else None
  {
    hide Got, Held;
  }

  /** A payload that completes is within the ceiling, because its last chunk is not its first. */
  lemma {:induction false} CompleteWithinCap(e: Entry<Partial>, f: Fragment)
    requires Exact(e) && WellShaped(f) && Completes(e.item, f)
    ensures |Joined(Store(e, f).item.chunks)| <= MAX_PAYLOAD
    ensures forall i :: 0 <= i < f.total ==> Store(e, f).item.chunks[i].Some?
  {
    StoreKeepsExact(e, f);
    FullExactly(Store(e, f).item.chunks);
  }
}
