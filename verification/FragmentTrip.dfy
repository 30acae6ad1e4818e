/** A payload's fragments through the reassembler: any order, with duplicates, one delivery. */
module FragmentTrip {
  import opened Bytes
  import opened Addr
  import opened FragTable
  import opened Partials
  import opened Reassembler
  import Datagram
  import Fragmenter

  /** The payload whose fragments are pushed. */
  datatype Parcel = Parcel(sess: U32, id: U32, address: TargetAddr, pieces: seq<Chunk>)

  predicate Legal(p: Parcel) {
    2 <= |p.pieces| <= MAX_TOTAL && |Flat(p.pieces)| <= MAX_PAYLOAD
  }

  function At(p: Parcel, i: nat): (f: Fragment)
    requires Legal(p) && i < |p.pieces|
  {
    Fragment(p.sess, p.id, i, |p.pieces|, p.address, p.pieces[i])
  }

  /** The table entry holds exactly the pieces in `got`. */
  ghost predicate Holds(e: Entry<Partial>, p: Parcel, got: set<nat>) {
    && e.item.total == |p.pieces| == |e.item.chunks| && e.item.address == p.address
    && forall i :: 0 <= i < |p.pieces| ==> e.item.chunks[i] == if i in got then Some(p.pieces[i]) else None
  }

  /** What a key's partial has gathered of the payload, if it has one; the first piece came at `since`. */
  ghost predicate Gathers(prior: Option<Entry<Partial>>, p: Parcel, got: set<nat>, since: U64) {
    if got == {} then prior.None? else prior.Some? && Holds(prior.value, p, got) && prior.value.ms == since
  }

  /** The chunk table of the whole payload. */
  function Whole(p: Parcel): (chunks: seq<Option<Chunk>>)
    ensures |chunks| == |p.pieces| && forall i :: 0 <= i < |chunks| ==> chunks[i] == Some(p.pieces[i])
  {
    seq(|p.pieces|, i requires 0 <= i < |p.pieces| => Some(p.pieces[i]))
  }

  /** What is remembered of the payload once it was handed on. */
  function TombOf(hash: HashFn, p: Parcel, at: U64): (e: Entry<Tombstone>)
    requires Legal(p)
  {
    Entry(at, |p.pieces| * PRINT_BYTES, Tombstone(|p.pieces|, p.address, PrintsOf(hash, Whole(p))))
  }

  /** The tombstone refuses each piece of its payload for the window, and no longer. */
  lemma {:induction false} TombRefuses(hash: HashFn, p: Parcel, at: U64, i: nat, now: U64)
    requires Legal(p) && i < |p.pieces|
    ensures Replays(hash, TombOf(hash, p, at), At(p, i), now) <==> SatSub(now, at) < TIMEOUT_MS
  {
    PieceWithinFlat(p.pieces, i);
    PrintOf(hash, Partial(|p.pieces|, p.address, Whole(p), 0, 0), at, At(p, i), now);
  }

  lemma {:induction false} PieceWithinFlat(pieces: seq<Chunk>, i: nat)
    requires i < |pieces|
    ensures |pieces[i]| <= |Flat(pieces)|
  {
    if i > 0 {
      PieceWithinFlat(pieces[1..], i - 1);
    }
  }

  lemma {:induction false} HeldOfPieces(chunks: seq<Option<Chunk>>, pieces: seq<Chunk>)
    requires |chunks| == |pieces|
    requires forall i :: 0 <= i < |pieces| ==> chunks[i] == None || chunks[i] == Some(pieces[i])
    ensures Held(chunks) <= |Flat(pieces)|
  {
    if chunks != [] {
      HeldOfPieces(chunks[1..], pieces[1..]);
    }
  }

  lemma {:induction false} PieceFits(e: Entry<Partial>, p: Parcel, got: set<nat>, i: nat)
    requires Legal(p) && i < |p.pieces| && Exact(e) && Holds(e, p, got)
    ensures !OverCap(e.item, At(p, i)) && !Restarts(e.item, At(p, i))
    ensures Holds(Store(e, At(p, i)), p, got + {i}) && Exact(Store(e, At(p, i)))
    ensures Store(e, At(p, i)).retained <= MAX_PAYLOAD + MAX_TOTAL * SLOT_BYTES
  {
    var f := At(p, i);
    if !Taken(e.item, f) {
      Fill(e.item.chunks, i, p.pieces[i]);
      HeldOfPieces(e.item.chunks[i := Some(p.pieces[i])], p.pieces);
    } else {
      HeldOfPieces(e.item.chunks, p.pieces);
    }
    StoreKeepsExact(e, f);
  }

  lemma {:induction false} FirstPiece(p: Parcel, i: nat, now: U64)
    requires Legal(p) && i < |p.pieces|
    ensures var e := Store(NewPartial(At(p, i), now), At(p, i));
            Holds(e, p, {i}) && Exact(e) && e.retained <= MAX_PAYLOAD + MAX_TOTAL * SLOT_BYTES
  {
    StoreNew(At(p, i), now);
    var e := Store(NewPartial(At(p, i), now), At(p, i));
    HeldOfPieces(e.item.chunks, p.pieces);
  }

  lemma {:induction false} LastPiece(e: Entry<Partial>, p: Parcel, got: set<nat>, i: nat)
    requires Legal(p) && i < |p.pieces| && Exact(e) && Holds(e, p, got) && i !in got
    ensures Completes(e.item, At(p, i)) <==> Everything(p, got + {i})
    ensures Completes(e.item, At(p, i)) ==>
              && Store(e, At(p, i)).item.chunks == Whole(p)
              && Delivered(Some(e), At(p, i)) == Some(Delivery(p.sess, p.address, Flat(p.pieces)))
  {
    PieceFits(e, p, got, i);
    var chunks := Store(e, At(p, i)).item.chunks;
    FullExactly(chunks);
    if Completes(e.item, At(p, i)) {
      JoinedIsFlat(chunks, p.pieces);
    }
  }

  ghost predicate Everything(p: Parcel, got: set<nat>) {
    forall j :: 0 <= j < |p.pieces| ==> j in got
  }

  /** One more piece, or one of them again: delivered exactly when nothing is missing any more. */
  lemma {:induction false} OnePiece(prior: Option<Entry<Partial>>, p: Parcel, got: set<nat>, i: nat, since: U64, now: U64)
    requires Legal(p) && i < |p.pieces| && Gathers(prior, p, got, since) && (prior.Some? ==> Exact(prior.value))
    requires (got == {} ==> now == since) && !Everything(p, got)
    ensures var f := At(p, i);
            if Everything(p, got + {i}) then
              && prior.Some? && Completes(prior.value.item, f) && Store(prior.value, f).item.chunks == Whole(p)
              && Delivered(prior, f) == Some(Delivery(p.sess, p.address, Flat(p.pieces)))
            else
              && Delivered(prior, f) == None && Retired(prior, f) == None
              && (prior.Some? ==> !OverCap(prior.value.item, f) && !Completes(prior.value.item, f))
              && Gathers(Some(Next(prior, f, now)), p, got + {i}, since)
              && Next(prior, f, now).retained <= MAX_PAYLOAD + MAX_TOTAL * SLOT_BYTES
  {
    hide Flat, Joined, Delivered;
    var f := At(p, i);
    if got == {} {
      FirstPiece(p, i, now);
      assert got + {i} == {i};
      var other := if i == 0 then 1 else 0;
      assert 0 <= other < |p.pieces| && other !in got + {i};
      NothingDelivered(prior, f);
    } else {
      var e := prior.value;
      PieceFits(e, p, got, i);
      if i in got {
        assert got + {i} == got;
      } else {
        LastPiece(e, p, got, i);
      }
      if !Everything(p, got + {i}) {
        NothingDelivered(prior, f);
      }
    }
  }

  lemma {:induction false} NothingDelivered(prior: Option<Entry<Partial>>, f: Fragment)
    requires WellShaped(f) && (prior.Some? ==> |prior.value.item.chunks| == prior.value.item.total)
    requires prior.Some? ==> !Completes(prior.value.item, f)
    ensures Delivered(prior, f) == None
  {
  }

  /**
    A payload too long for one datagram, cut, framed, and each frame decoded: the decoded fragments are
    those of one legal payload, under the address as it reads on the wire.
   */
  lemma {:induction false} FramesAreOneParcel(sess: U32, id: U32, address: TargetAddr, payload: Chunk, limit: nat, i: nat)
    requires Fragmenter.Sendable(address, payload, limit) && limit <= ISIZE_MAX
    requires |payload| > SatSub(limit, Datagram.DGRAM_PREFIX_LEN + Header(address).value.len)
    requires i < |Fragmenter.Pieces(address, payload, limit)|
    ensures var pieces := Fragmenter.Pieces(address, payload, limit);
            var p := Parcel(sess, id, OnWire(address), pieces);
            var frame := Fragmenter.EncodedFragment(Fragmenter.Named(sess, id, address, pieces)[i], limit);
            && Legal(p) && Flat(p.pieces) == payload
            && frame.Some? && Fragmenter.DecodeFragment(frame.value) == Ok(At(p, i))
  {
    Fragmenter.FragmentsCarryPayload(sess, id, address, payload, limit, i);
    var f := Fragmenter.Named(sess, id, address, Fragmenter.Pieces(address, payload, limit))[i];
    Fragmenter.FragmentRoundTrip(f, limit);
  }

  /**
    Two payloads of the same shape under one live id can come out mixed: a fragment of the second lands
    in a slot the first has not filled. Handing out ids no sooner than the window rules this out.
   */
  lemma {:induction false} ReusedIdSplices(first: Parcel, second: Parcel, now: U64)
    requires Legal(first) && Legal(second) && |first.pieces| == |second.pieces| == 2
    requires first.sess == second.sess && first.id == second.id && first.address == second.address
    requires |first.pieces[0]| + |second.pieces[1]| <= MAX_PAYLOAD
    ensures var held := Goal(map[], At(first, 0), now);
            Delivered(Find(held, Key(first.sess, first.id)), At(second, 1)) ==
            Some(Delivery(first.sess, first.address, first.pieces[0] + second.pieces[1]))
  {
    var e := Store(NewPartial(At(first, 0), now), At(first, 0));
    var mixed := Parcel(first.sess, first.id, first.address, [first.pieces[0], second.pieces[1]]);
    FlatPair(first.pieces[0], second.pieces[1]);
    FirstPiece(first, 0, now);
    LastPiece(e, mixed, {0}, 1);
    assert Goal(map[], At(first, 0), now) == map[Key(first.sess, first.id) := e];
    assert At(mixed, 1) == At(second, 1);
    assert Everything(mixed, {0} + {1});
  }

  lemma {:induction false} FlatPair(a: Chunk, b: Chunk)
    ensures Flat([a, b]) == a + b
  {
    assert [a, b][1..] == [b] && [b][1..] == [];
    assert Flat([b]) == b + Flat([b][1..]);
  }
}
