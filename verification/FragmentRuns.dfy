/**
  What whole runs of the reader hand on: a payload whose pieces arrive among any other traffic comes out
  once the last one is in, comes out again exactly when it may, and not twice under one tombstone.
 */
module FragmentRuns {
  import opened Bytes
  import opened Addr
  import opened FragTable
  import opened Partials
  import opened Reassembler
  import opened Reader
  import opened FragmentTrip

  function Name(p: Parcel): (k: Key) {
    Key(p.sess, p.id)
  }

  predicate OfKey(e: Event, k: Key) {
    e.Arrive? && KeyOf(e.f) == k
  }

  /** The event brings a fragment under the payload's key that is not refused on sight. */
  predicate Takes(hash: HashFn, h: Snapshot, e: Event, k: Key) {
    OfKey(e, k) && !TurnedAway(hash, h, e.f, e.t.at)
  }

  predicate PieceOf(p: Parcel, f: Fragment)
    requires Legal(p)
  {
    f.idx < |p.pieces| && f == At(p, f.idx)
  }

  /** The arrival fits both caps, so that nothing is forced out. */
  ghost predicate Roomy(hash: HashFn, h: Snapshot, e: Event) {
    e.Arrive? && !TurnedAway(hash, h, e.f, e.t.at) ==>
      var seen := Swept(h.parts, h.lastSweep, e.t.at);
      && PartsOk(seen) && (KeyOf(e.f) in seen || |seen| < MAX_PARTIALS)
      && Retained(Goal(seen, e.f, e.t.at)) <= MAX_HELD
  }

  /** What the event leaves to be remembered fits both caps, beside the partials it leaves. */
  ghost predicate Ample(hash: HashFn, h: Snapshot, e: Event) {
    e.Arrive? && !TurnedAway(hash, h, e.f, e.t.at) ==>
      var seen := Swept(h.parts, h.lastSweep, e.t.at);
      PartsOk(seen) &&
      var all := Filed(hash, Swept(h.recent, h.lastSweep, e.t.at), KeyOf(e.f), Retired(Find(seen, KeyOf(e.f)), e.f), e.t.at);
      |all| <= MAX_PARTIALS && Retained(Goal(seen, e.f, e.t.at)) + Retained(all) <= MAX_HELD
  }

  /** The event takes a fragment of the key, and a generation out: it completes one, or starts the key over. */
  ghost predicate Retires(hash: HashFn, h: Snapshot, e: Event, k: Key) {
    Takes(hash, h, e, k) &&
    var seen := Swept(h.parts, h.lastSweep, e.t.at);
    PartsOk(seen) && Retired(Find(seen, k), e.f).Some?
  }

  // ---------- one step ----------

  /** What is remembered under the key is what was, or nothing. */
  predicate Forgets(h: Snapshot, g: Snapshot, k: Key) {
    k in g.recent ==> k in h.recent && g.recent[k] == h.recent[k]
  }

  /** An event of another key, or a tick, keeps the key's partial unless it timed out. */
  lemma {:induction false} OtherKeeps(hash: HashFn, h: Snapshot, e: Event, g: Snapshot, out: Option<Delivery>, k: Key)
    requires Steps(hash, h, e, g, out) && Roomy(hash, h, e) && !Takes(hash, h, e, k)
    requires k in h.parts ==> Fresh(h.parts[k].ms, e.t.at)
    ensures Find(g.parts, k) == Find(h.parts, k)
  {
    hide Delivered, Retained, Remembers, Retired, Replays, Goal;
    if e.Arrive? && !TurnedAway(hash, h, e.f, e.t.at) {
      GoalElsewhere(Swept(h.parts, h.lastSweep, e.t.at), e.f, e.t.at, k);
    }
  }

  /** What an event that takes nothing for the key can do to what is held under it. */
  lemma {:induction false} OtherWithin(hash: HashFn, h: Snapshot, e: Event, g: Snapshot, out: Option<Delivery>, k: Key)
    requires Steps(hash, h, e, g, out) && !Takes(hash, h, e, k)
    ensures OfKey(e, k) ==> out == None
    ensures k in g.parts ==> k in h.parts && g.parts[k] == h.parts[k]
    ensures Forgets(h, g, k)
  {
    hide Delivered, Retained, Retired, Replays, Goal;
    if e.Arrive? && !TurnedAway(hash, h, e.f, e.t.at) {
      GoalElsewhere(Swept(h.parts, h.lastSweep, e.t.at), e.f, e.t.at, k);
    }
  }

  lemma {:induction false} GoalElsewhere(parts: Table<Partial>, f: Fragment, now: U64, k: Key)
    requires WellShaped(f) && PartsOk(parts) && k != KeyOf(f)
    ensures Find(Goal(parts, f, now), k) == Find(parts, k)
  {
    hide Next, OverCap, Completes, Got, Held;
  }

  /** The event completes the payload: its partial and this piece are all of it. */
  ghost predicate HandsOn(hash: HashFn, h: Snapshot, e: Event, p: Parcel) {
    Legal(p) && Takes(hash, h, e, Name(p)) && PieceOf(p, e.f) &&
    var prior := Find(Swept(h.parts, h.lastSweep, e.t.at), Name(p));
    prior.Some? && Exact(prior.value) && Completes(prior.value.item, e.f) && Store(prior.value, e.f).item.chunks == Whole(p)
  }

  /** One more piece arrives: handed on exactly when nothing is missing, and otherwise kept. */
  lemma {:induction false} PieceArrives(hash: HashFn, h: Snapshot, e: Event, g: Snapshot, out: Option<Delivery>,
                                        p: Parcel, i: nat, got: set<nat>, since: U64)
    requires Legal(p) && i < |p.pieces| && e.Arrive? && e.f == At(p, i) && Takes(hash, h, e, Name(p))
    requires (got == {} ==> e.t.at == since) && !Everything(p, got)
    requires Gathers(Find(Swept(h.parts, h.lastSweep, e.t.at), Name(p)), p, got, since)
    requires Steps(hash, h, e, g, out)
    ensures Everything(p, got + {i}) ==> HandsOn(hash, h, e, p)
    ensures !Everything(p, got + {i}) ==> out == None && Forgets(h, g, Name(p))
    ensures !Everything(p, got + {i}) && Roomy(hash, h, e) ==> Gathers(Find(g.parts, Name(p)), p, got + {i}, since)
  {
    hide Delivered, Retained, Retired, Replays, Next, OverCap, Completes, Flat, Everything, Legal, Gathers, Swept;
    var seen := Swept(h.parts, h.lastSweep, e.t.at);
    SweptIsWithin(h.recent, h.lastSweep, e.t.at);
    OnePiece(Find(seen, Name(p)), p, got, i, since, e.t.at);
  }

  lemma {:induction false} SweptIsWithin<V>(t: Table<V>, lastSweep: U64, now: U64)
    ensures Within(Swept(t, lastSweep, now), t)
    ensures forall k :: k in t && Fresh(t[k].ms, now) ==> k in Swept(t, lastSweep, now)
  {
  }

  /** Handing on a payload forgets its partial, and what is remembered under the key is the payload. */
  ghost predicate Settled(hash: HashFn, h: Snapshot, p: Parcel, at: U64)
    requires Legal(p)
  {
    Name(p) !in h.parts && (Name(p) in h.recent ==> h.recent[Name(p)] == TombOf(hash, p, at))
  }

  lemma {:induction false} HandedOn(hash: HashFn, h: Snapshot, e: Event, g: Snapshot, out: Option<Delivery>, p: Parcel)
    requires Steps(hash, h, e, g, out) && HandsOn(hash, h, e, p)
    ensures out == Some(Delivery(p.sess, p.address, Flat(p.pieces))) && Settled(hash, g, p, e.t.at)
  {
    hide Flat, Legal, Swept, Replays, Retained, Joined, Held;
    var e0 := Find(Swept(h.parts, h.lastSweep, e.t.at), Name(p)).value;
    JoinedIsFlat(Whole(p), p.pieces);
    assert Store(e0, e.f).item.chunks == e0.item.chunks[e.f.idx := Some(e.f.chunk)];
    assert Tomb(hash, Store(e0, e.f).item, e.t.at) == TombOf(hash, p, e.t.at);
  }

  /** Whatever is handed on is some payload, completed by the event. */
  lemma {:induction false} EveryDelivery(hash: HashFn, h: Snapshot, e: Event, g: Snapshot, out: Option<Delivery>)
    returns (p: Parcel)
    requires Steps(hash, h, e, g, out) && out.Some?
    ensures HandsOn(hash, h, e, p) && out.value == Delivery(p.sess, p.address, Flat(p.pieces))
  {
    var (f, seen) := (e.f, Swept(h.parts, h.lastSweep, e.t.at));
    var e0 := seen[KeyOf(f)];
    assert Exact(e0);
    p := Completed(e0, f);
    HandedOn(hash, h, e, g, out, p);
  }

  lemma {:induction false} Completed(e: Entry<Partial>, f: Fragment) returns (p: Parcel)
    requires Exact(e) && WellShaped(f) && Completes(e.item, f)
    ensures Legal(p) && Name(p) == KeyOf(f) && PieceOf(p, f) && Store(e, f).item.chunks == Whole(p)
  {
    var item := Store(e, f).item;
    CompleteWithinCap(e, f);
    p := Parcel(f.sess, f.id, f.address, seq(f.total, i requires 0 <= i < f.total => item.chunks[i].value));
    JoinedIsFlat(item.chunks, p.pieces);
  }

  // ---------- the payload comes out ----------

  /** The indices of the payload's pieces that are taken from event `a` on, before event `n`. */
  ghost function Collected(hash: HashFn, es: seq<Event>, hs: seq<Snapshot>, k: Key, a: nat, n: nat): (got: set<nat>)
    requires a <= n <= |es| < |hs|
    decreases n
  {
    if n == a then {}
    else Collected(hash, es, hs, k, a, n - 1) + if Takes(hash, hs[n - 1], es[n - 1], k) then {es[n - 1].f.idx as nat} else {}
  }

  /**
    From event `a` to event `b`: only pieces of the payload carry its key, every reading is within the
    timeout of the one at `a`, and until `b` everything that arrives fits.
   */
  ghost predicate Undisturbed(hash: HashFn, es: seq<Event>, hs: seq<Snapshot>, p: Parcel, a: nat, b: nat)
    requires Legal(p) && |es| < |hs|
  {
    && a <= b < |es|
    && (forall n :: a <= n <= b ==> SatSub(es[n].t.at, es[a].t.at) < TIMEOUT_MS)
    && (forall n :: a <= n <= b && OfKey(es[n], Name(p)) ==> PieceOf(p, es[n].f))
    && (forall n :: a <= n < b ==> Roomy(hash, hs[n], es[n]))
  }

  /** At event `a` the first piece of the payload is taken, and no partial is seen under its key. */
  ghost predicate Opens(hash: HashFn, es: seq<Event>, hs: seq<Snapshot>, p: Parcel, a: nat)
    requires a < |es| < |hs|
  {
    Takes(hash, hs[a], es[a], Name(p)) && Name(p) !in Swept(hs[a].parts, hs[a].lastSweep, es[a].t.at)
  }

  lemma {:induction false} StillSeen(h: Snapshot, p: Parcel, got: set<nat>, since: U64, now: U64)
    requires got != {} && Gathers(Find(h.parts, Name(p)), p, got, since) && SatSub(now, since) < TIMEOUT_MS
    ensures Gathers(Find(Swept(h.parts, h.lastSweep, now), Name(p)), p, got, since)
    ensures Name(p) in h.parts && Fresh(h.parts[Name(p)].ms, now)
  {
    hide Holds;
  }

  /** Before everything was taken, what was taken is held and nothing came out for the key. */
  lemma {:induction false} Gathering(hash: HashFn, es: seq<Event>, hs: seq<Snapshot>, outs: seq<Option<Delivery>>,
                                     p: Parcel, a: nat, b: nat, n: nat)
    requires Continues(hash, es, hs, outs) && Legal(p) && Undisturbed(hash, es, hs, p, a, b) && Opens(hash, es, hs, p, a)
    requires a < n <= b && !Everything(p, Collected(hash, es, hs, Name(p), a, n))
    ensures Collected(hash, es, hs, Name(p), a, n) != {}
    ensures Gathers(Find(hs[n].parts, Name(p)), p, Collected(hash, es, hs, Name(p), a, n), es[a].t.at)
    ensures forall j :: a <= j < n && OfKey(es[j], Name(p)) ==> outs[j] == None
    ensures forall j :: a <= j <= n && Name(p) in hs[j].recent ==>
              Name(p) in hs[a].recent && hs[j].recent[Name(p)] == hs[a].recent[Name(p)]
    decreases n
  {
    hide Steps, Roomy, Takes, Legal, Gathers, Swept, Collected;
    var (k, since, m) := (Name(p), es[a].t.at, n - 1);
    var (was, got) := (Collected(hash, es, hs, k, a, m), Collected(hash, es, hs, k, a, n));
    CollectedNext(hash, es, hs, k, a, m);
    assert Steps(hash, hs[m], es[m], hs[n], outs[m]) && Roomy(hash, hs[m], es[m]);
    if m == a {
      FirstTaken(hash, es, hs, p, a);
      PieceArrives(hash, hs[m], es[m], hs[n], outs[m], p, es[m].f.idx, was, since);
    } else {
      Gathering(hash, es, hs, outs, p, a, b, m);
      StillSeen(hs[m], p, was, since, es[m].t.at);
      if Takes(hash, hs[m], es[m], k) {
        TakesMeans(hash, hs[m], es[m], k);
        PieceArrives(hash, hs[m], es[m], hs[n], outs[m], p, es[m].f.idx, was, since);
      } else {
        OtherKeeps(hash, hs[m], es[m], hs[n], outs[m], k);
        OtherWithin(hash, hs[m], es[m], hs[n], outs[m], k);
      }
    }
  }

  lemma {:induction false} TakesMeans(hash: HashFn, h: Snapshot, e: Event, k: Key)
    requires Takes(hash, h, e, k)
    ensures OfKey(e, k)
  {
  }

  lemma {:induction false} CollectedNext(hash: HashFn, es: seq<Event>, hs: seq<Snapshot>, k: Key, a: nat, m: nat)
    requires a <= m < |es| < |hs|
    ensures var (was, got) := (Collected(hash, es, hs, k, a, m), Collected(hash, es, hs, k, a, m + 1));
            if Takes(hash, hs[m], es[m], k) then OfKey(es[m], k) && got == was + {es[m].f.idx as nat} else got == was
    ensures Collected(hash, es, hs, k, a, a) == {}
  {
  }

  lemma {:induction false} FirstTaken(hash: HashFn, es: seq<Event>, hs: seq<Snapshot>, p: Parcel, a: nat)
    requires a < |es| < |hs| && Opens(hash, es, hs, p, a)
    ensures OfKey(es[a], Name(p))
    ensures Gathers(Find(Swept(hs[a].parts, hs[a].lastSweep, es[a].t.at), Name(p)), p, {}, es[a].t.at)
  {
  }

  /**
    A payload among any other traffic, into a reassembler in any state. Once its first piece is taken,
    and as long as only its pieces carry its key, all within the timeout, and nothing is forced out:
    whatever the order and however often pieces repeat, nothing comes out for its key while a piece is
    missing, and an event of its key hands on exactly the payload if it brings the last one missing.
   */
  lemma {:induction false} Delivers(hash: HashFn, es: seq<Event>, hs: seq<Snapshot>, outs: seq<Option<Delivery>>,
                                    p: Parcel, a: nat, b: nat)
    requires Continues(hash, es, hs, outs) && Legal(p) && Undisturbed(hash, es, hs, p, a, b) && Opens(hash, es, hs, p, a)
    requires !Everything(p, Collected(hash, es, hs, Name(p), a, b)) && OfKey(es[b], Name(p))
    ensures forall n :: a <= n < b && OfKey(es[n], Name(p)) ==> outs[n] == None
    ensures if Everything(p, Collected(hash, es, hs, Name(p), a, b + 1)) then
              outs[b] == Some(Delivery(p.sess, p.address, Flat(p.pieces))) && HandsOn(hash, hs[b], es[b], p)
            else outs[b] == None
  {
    hide Steps, Roomy, Takes, Legal, Gathers, Swept, Collected, Everything, HandsOn, Flat;
    var (k, since) := (Name(p), es[a].t.at);
    var was := Collected(hash, es, hs, k, a, b);
    CollectedNext(hash, es, hs, k, a, b);
    assert Steps(hash, hs[b], es[b], hs[b + 1], outs[b]);
    if a == b {
      FirstTaken(hash, es, hs, p, a);
      OpensTakes(hash, es, hs, p, a);
      PieceArrives(hash, hs[b], es[b], hs[b + 1], outs[b], p, es[b].f.idx, was, since);
    } else {
      Gathering(hash, es, hs, outs, p, a, b, b);
      StillSeen(hs[b], p, was, since, es[b].t.at);
      if Takes(hash, hs[b], es[b], k) {
        PieceArrives(hash, hs[b], es[b], hs[b + 1], outs[b], p, es[b].f.idx, was, since);
      } else {
        OtherWithin(hash, hs[b], es[b], hs[b + 1], outs[b], k);
      }
    }
    if Everything(p, Collected(hash, es, hs, k, a, b + 1)) {
      HandedOn(hash, hs[b], es[b], hs[b + 1], outs[b], p);
    }
  }

  lemma {:induction false} OpensTakes(hash: HashFn, es: seq<Event>, hs: seq<Snapshot>, p: Parcel, a: nat)
    requires a < |es| < |hs| && Opens(hash, es, hs, p, a)
    ensures Takes(hash, hs[a], es[a], Name(p))
  {
  }

  // ---------- and comes out again ----------

  /** After the payload was handed on at `at`: its tombstone is still there, and its window still open. */
  predicate Blocked(h: Snapshot, e: Event, k: Key, at: U64) {
    k in h.recent && SatSub(e.t.at, at) < TIMEOUT_MS
  }

  /** The indices of the pieces that arrive again after event `m`, before event `n`, and are not blocked. */
  ghost function Renewed(es: seq<Event>, hs: seq<Snapshot>, k: Key, m: nat, n: nat): (got: set<nat>)
    requires m < n <= |es| < |hs|
    decreases n
  {
    if n == m + 1 then {}
    else
      var e := es[n - 1];
      Renewed(es, hs, k, m, n - 1) + if OfKey(e, k) && !Blocked(hs[n - 1], e, k, es[m].t.at) then {e.f.idx as nat} else {}
  }

  /** Under the payload's own tombstone, one of its pieces is turned away exactly while blocked. */
  lemma {:induction false} BlockedExactly(hash: HashFn, h: Snapshot, e: Event, p: Parcel, at: U64)
    requires Legal(p) && e.Arrive? && PieceOf(p, e.f)
    requires Name(p) in h.recent ==> h.recent[Name(p)] == TombOf(hash, p, at)
    ensures Takes(hash, h, e, Name(p)) <==> !Blocked(h, e, Name(p), at)
  {
    hide Replays, TombOf, Flat;
    if Name(p) in h.recent {
      TombRefuses(hash, p, at, e.f.idx, e.t.at);
    }
  }

  lemma {:induction false} StaysSettled(hash: HashFn, h: Snapshot, e: Event, g: Snapshot, out: Option<Delivery>,
                                        p: Parcel, at: U64)
    requires Legal(p) && Steps(hash, h, e, g, out) && Settled(hash, h, p, at)
    requires OfKey(e, Name(p)) ==> PieceOf(p, e.f) && Blocked(h, e, Name(p), at)
    ensures Settled(hash, g, p, at) && (OfKey(e, Name(p)) ==> out == None)
  {
    hide Steps, TombOf, Legal, PieceOf, Blocked;
    if OfKey(e, Name(p)) {
      BlockedExactly(hash, h, e, p, at);
    } else {
      NotTaken(hash, h, e, Name(p));
    }
    OtherWithin(hash, h, e, g, out, Name(p));
  }

  lemma {:induction false} NotTaken(hash: HashFn, h: Snapshot, e: Event, k: Key)
    requires !OfKey(e, k)
    ensures !Takes(hash, h, e, k)
  {
  }

  /** Handed on at `m`, and only blocked pieces of it since: nothing more comes out, nothing is held for it. */
  lemma {:induction false} BlockedUntil(hash: HashFn, es: seq<Event>, hs: seq<Snapshot>, outs: seq<Option<Delivery>>,
                                        p: Parcel, m: nat, n: nat)
    requires Continues(hash, es, hs, outs) && Legal(p) && m < n <= |es| && HandsOn(hash, hs[m], es[m], p)
    requires forall j :: m < j < n && OfKey(es[j], Name(p)) ==> PieceOf(p, es[j].f) && Blocked(hs[j], es[j], Name(p), es[m].t.at)
    ensures Settled(hash, hs[n], p, es[m].t.at)
    ensures forall j :: m < j < n && OfKey(es[j], Name(p)) ==> outs[j] == None
    decreases n
  {
    hide Steps, HandsOn, Settled, Legal, Flat, PieceOf, Blocked;
    var j := n - 1;
    assert Steps(hash, hs[j], es[j], hs[n], outs[j]);
    if j == m {
      HandedOn(hash, hs[m], es[m], hs[n], outs[m], p);
    } else {
      BlockedUntil(hash, es, hs, outs, p, m, j);
      StaysSettled(hash, hs[j], es[j], hs[n], outs[j], p, es[m].t.at);
    }
  }

  lemma {:induction false} RenewedBefore(es: seq<Event>, hs: seq<Snapshot>, k: Key, m: nat, n: nat)
    requires m < n <= |es| < |hs|
    requires forall j :: m < j < n && OfKey(es[j], k) ==> Blocked(hs[j], es[j], k, es[m].t.at)
    ensures Renewed(es, hs, k, m, n) == {}
    decreases n
  {
    hide Blocked;
    if n > m + 1 {
      RenewedBefore(es, hs, k, m, n - 1);
    }
  }

  /** Once handed on at `m` and renewed from `a` on, the pieces taken are those that are not blocked. */
  lemma {:induction false} CollectedIsRenewed(hash: HashFn, es: seq<Event>, hs: seq<Snapshot>, p: Parcel, m: nat, a: nat, n: nat)
    requires Legal(p) && m < a <= n <= |es| < |hs|
    requires forall j :: m < j < a && OfKey(es[j], Name(p)) ==> Blocked(hs[j], es[j], Name(p), es[m].t.at)
    requires forall j :: a <= j < n && OfKey(es[j], Name(p)) ==>
               PieceOf(p, es[j].f) && (Name(p) in hs[j].recent ==> hs[j].recent[Name(p)] == TombOf(hash, p, es[m].t.at))
    ensures Collected(hash, es, hs, Name(p), a, n) == Renewed(es, hs, Name(p), m, n)
    decreases n
  {
    hide Takes, Blocked, TombOf, Legal, PieceOf;
    var k := Name(p);
    if n == a {
      RenewedBefore(es, hs, k, m, a);
    } else {
      CollectedIsRenewed(hash, es, hs, p, m, a, n - 1);
      CollectedNext(hash, es, hs, k, a, n - 1);
      if OfKey(es[n - 1], k) {
        BlockedExactly(hash, hs[n - 1], es[n - 1], p, es[m].t.at);
      } else {
        NotTaken(hash, hs[n - 1], es[n - 1], k);
      }
    }
  }

  /**
    A payload that was handed on at event `m` and whose pieces arrive again. Pieces that come while its
    tombstone is kept and its window is open are turned away; let `a` be the first that is not. From
    there on the payload comes out again exactly when every piece of it arrived again unblocked.
   */
  lemma {:induction false} DeliveredAgainExactly(hash: HashFn, es: seq<Event>, hs: seq<Snapshot>, outs: seq<Option<Delivery>>,
                                                 p: Parcel, m: nat, a: nat, b: nat)
    requires Continues(hash, es, hs, outs) && Legal(p) && m < a && Undisturbed(hash, es, hs, p, a, b)
    requires HandsOn(hash, hs[m], es[m], p)
    requires forall j :: m < j < a && OfKey(es[j], Name(p)) ==> PieceOf(p, es[j].f) && Blocked(hs[j], es[j], Name(p), es[m].t.at)
    requires OfKey(es[a], Name(p)) && !Blocked(hs[a], es[a], Name(p), es[m].t.at)
    requires OfKey(es[b], Name(p)) && !Everything(p, Renewed(es, hs, Name(p), m, b))
    ensures forall n :: m < n < b && OfKey(es[n], Name(p)) ==> outs[n] == None
    ensures if Everything(p, Renewed(es, hs, Name(p), m, b + 1)) then
              outs[b] == Some(Delivery(p.sess, p.address, Flat(p.pieces)))
            else outs[b] == None
  {
    hide Steps, HandsOn, Legal, Flat, PieceOf, Blocked, Roomy, Everything, Collected, Renewed, TombOf, Swept;
    BlockedUntil(hash, es, hs, outs, p, m, a);
    BlockedExactly(hash, hs[a], es[a], p, es[m].t.at);
    NotSeen(hs[a], Name(p), es[a].t.at);
    RenewedIsCollected(hash, es, hs, outs, p, m, a, b);
    Delivers(hash, es, hs, outs, p, a, b);
  }

  lemma {:induction false} NotSeen(h: Snapshot, k: Key, now: U64)
    requires k !in h.parts
    ensures k !in Swept(h.parts, h.lastSweep, now)
  {
  }

  lemma {:induction false} RenewedIsCollected(hash: HashFn, es: seq<Event>, hs: seq<Snapshot>, outs: seq<Option<Delivery>>,
                                              p: Parcel, m: nat, a: nat, b: nat)
    requires Continues(hash, es, hs, outs) && Legal(p) && m < a && Undisturbed(hash, es, hs, p, a, b) && Opens(hash, es, hs, p, a)
    requires forall j :: m < j < a && OfKey(es[j], Name(p)) ==> Blocked(hs[j], es[j], Name(p), es[m].t.at)
    requires Name(p) in hs[a].recent ==> hs[a].recent[Name(p)] == TombOf(hash, p, es[m].t.at)
    requires !Everything(p, Renewed(es, hs, Name(p), m, b))
    ensures Collected(hash, es, hs, Name(p), a, b) == Renewed(es, hs, Name(p), m, b)
    ensures Collected(hash, es, hs, Name(p), a, b + 1) == Renewed(es, hs, Name(p), m, b + 1)
  {
    hide Steps, Legal, PieceOf, Blocked, Roomy, Everything, Collected, Renewed, TombOf, Opens;
    TombsOwn(hash, es, hs, outs, p, m, a, b, b);
    CollectedIsRenewed(hash, es, hs, p, m, a, b);
    CollectedIsRenewed(hash, es, hs, p, m, a, b + 1);
  }

  lemma {:induction false} RenewedGrows(es: seq<Event>, hs: seq<Snapshot>, k: Key, m: nat, n: nat, b: nat)
    requires m < n <= b <= |es| < |hs|
    ensures Renewed(es, hs, k, m, n) <= Renewed(es, hs, k, m, b)
    decreases b
  {
    if n < b {
      RenewedGrows(es, hs, k, m, n, b - 1);
    }
  }

  /** As long as a piece is missing, the only tombstone under the key is the payload's own. */
  lemma {:induction false} TombsOwn(hash: HashFn, es: seq<Event>, hs: seq<Snapshot>, outs: seq<Option<Delivery>>,
                                    p: Parcel, m: nat, a: nat, b: nat, n: nat)
    requires Continues(hash, es, hs, outs) && Legal(p) && m < a && Undisturbed(hash, es, hs, p, a, b) && Opens(hash, es, hs, p, a)
    requires forall j :: m < j < a && OfKey(es[j], Name(p)) ==> Blocked(hs[j], es[j], Name(p), es[m].t.at)
    requires Name(p) in hs[a].recent ==> hs[a].recent[Name(p)] == TombOf(hash, p, es[m].t.at)
    requires a <= n <= b && !Everything(p, Renewed(es, hs, Name(p), m, b))
    ensures forall j :: a <= j <= n && Name(p) in hs[j].recent ==> hs[j].recent[Name(p)] == TombOf(hash, p, es[m].t.at)
    decreases n
  {
    hide Steps, Legal, PieceOf, Blocked, Roomy, Collected, Renewed, TombOf, Opens;
    if n > a {
      TombsOwn(hash, es, hs, outs, p, m, a, b, n - 1);
      CollectedIsRenewed(hash, es, hs, p, m, a, n);
      RenewedGrows(es, hs, Name(p), m, n, b);
      Gathering(hash, es, hs, outs, p, a, b, n);
    }
  }

  // ---------- a set replayed at once ----------

  lemma {:induction false} NothingGathered(h: Snapshot, p: Parcel, at: U64)
    requires h.parts == map[]
    ensures Gathers(Find(Swept(h.parts, h.lastSweep, at), Name(p)), p, {}, at)
  {
  }

  /** A single legal payload always fits. */
  lemma {:induction false} RoomForFirst(hash: HashFn, h: Snapshot, e: Event, p: Parcel, i: nat)
    requires Legal(p) && i < |p.pieces| && e.Arrive? && e.f == At(p, i) && h.parts == map[]
    ensures Roomy(hash, h, e) && (Name(p) !in h.recent ==> Takes(hash, h, e, Name(p)))
    ensures var goal := Goal(map[], e.f, e.t.at);
            goal.Keys == {Name(p)} && Retained(goal) <= MAX_PAYLOAD + MAX_TOTAL * SLOT_BYTES
  {
    hide Next, Legal, Retained, Replays;
    FirstPiece(p, i, e.t.at);
    var none: Table<Partial> := map[];
    assert Swept(none, h.lastSweep, e.t.at) == none;
    FirstNext(e.f, e.t.at);
    RetainedPut(none, Name(p), Next(None, e.f, e.t.at));
    RetainedNone(none - {Name(p)});
  }

  lemma {:induction false} FirstNext(f: Fragment, now: U64)
    requires WellShaped(f)
    ensures Next(None, f, now) == Store(NewPartial(f, now), f)
  {
  }

  lemma {:induction false} OfTwo(p: Parcel)
    requires |p.pieces| == 2
    ensures !Everything(p, {}) && !Everything(p, {} + {0}) && !Everything(p, {0}) && Everything(p, {0} + {1})
    ensures {} + {0} == {0}
  {
    var none: set<nat>, one: set<nat> := {}, {0};
    assert 0 !in none && 1 !in none + {0} && 1 !in one;
  }

  /** The first of two pieces arrives, and nothing else is held. */
  lemma {:induction false} FirstOfTwo(hash: HashFn, h: Snapshot, e: Event, g: Snapshot, out: Option<Delivery>, p: Parcel)
    requires Legal(p) && |p.pieces| == 2 && h.parts == map[] && e.Arrive? && e.f == At(p, 0)
    requires Takes(hash, h, e, Name(p)) && Steps(hash, h, e, g, out)
    ensures out == None && Gathers(Find(g.parts, Name(p)), p, {0}, e.t.at)
    ensures g.parts.Keys == {Name(p)} && Retained(g.parts) <= MAX_PAYLOAD + MAX_TOTAL * SLOT_BYTES
    ensures Within(g.recent, h.recent)
  {
    hide Gathers, Legal, Retained, Replays, Delivered, Next, Flat, Goal, Everything, HandsOn;
    NothingGathered(h, p, e.t.at);
    RoomForFirst(hash, h, e, p, 0);
    OfTwo(p);
    PieceArrives(hash, h, e, g, out, p, 0, {}, e.t.at);
    FirstStep(hash, h, e, g, out);
  }

  lemma {:induction false} FirstStep(hash: HashFn, h: Snapshot, e: Event, g: Snapshot, out: Option<Delivery>)
    requires h.parts == map[] && e.Arrive? && Steps(hash, h, e, g, out) && Roomy(hash, h, e) && !TurnedAway(hash, h, e.f, e.t.at)
    ensures g.parts == Goal(map[], e.f, e.t.at) && Within(g.recent, h.recent)
  {
    hide Retained, Replays, Delivered, Next, Goal;
    var none: Table<Partial> := map[];
    assert Swept(none, h.lastSweep, e.t.at) == none;
  }

  /** And the second: the payload is handed on, nothing is held any more, and there is room to remember it. */
  lemma {:induction false} SecondOfTwo(hash: HashFn, h: Snapshot, e: Event, g: Snapshot, out: Option<Delivery>, p: Parcel, since: U64)
    requires Legal(p) && |p.pieces| == 2 && e.Arrive? && e.f == At(p, 1) && e.t.at == since
    requires Takes(hash, h, e, Name(p)) && Steps(hash, h, e, g, out)
    requires Gathers(Find(h.parts, Name(p)), p, {0}, since) && h.parts.Keys == {Name(p)}
    ensures out == Some(Delivery(p.sess, p.address, Flat(p.pieces))) && HandsOn(hash, h, e, p)
    ensures Settled(hash, g, p, e.t.at) && g.parts == map[]
    ensures h.recent == map[] ==> Name(p) in g.recent
  {
    hide Gathers, Legal, Steps, HandsOn, Flat, Swept, Takes, Settled, Everything, Retained;
    OfTwo(p);
    StillSeen(h, p, {0}, since, e.t.at);
    PieceArrives(hash, h, e, g, out, p, 1, {0}, since);
    HandedOn(hash, h, e, g, out, p);
    LastStep(hash, h, e, g, out, p);
  }

  lemma {:induction false} LastStep(hash: HashFn, h: Snapshot, e: Event, g: Snapshot, out: Option<Delivery>, p: Parcel)
    requires Steps(hash, h, e, g, out) && h.parts.Keys == {Name(p)} && HandsOn(hash, h, e, p)
    ensures g.parts == map[]
    ensures h.recent == map[] ==> Name(p) in g.recent
  {
    hide Replays, Delivered, Next, Flat, Store, Completes, Retained, Got, Held, Retired, Filed, Remembers;
    var seen := Swept(h.parts, h.lastSweep, e.t.at);
    assert seen.Keys <= {Name(p)};
    assert Goal(seen, e.f, e.t.at) == map[];
    if h.recent == map[] {
      SweptIsWithin(h.recent, h.lastSweep, e.t.at);
      WithinNothing(Swept(h.recent, h.lastSweep, e.t.at));
      AloneIsAmple(hash, h, e, p);
      TombstoneFiled(hash, h, e, g, out, p);
    }
  }

  lemma {:induction false} AloneIsAmple(hash: HashFn, h: Snapshot, e: Event, p: Parcel)
    requires HandsOn(hash, h, e, p) && PartsOk(Swept(h.parts, h.lastSweep, e.t.at))
    requires Goal(Swept(h.parts, h.lastSweep, e.t.at), e.f, e.t.at) == map[] && Swept(h.recent, h.lastSweep, e.t.at) == map[]
    ensures Ample(hash, h, e)
  {
    hide Retained, Flat, Goal, Swept, Replays, Completes, Store, Next;
    CompletionRetires(hash, h, e, p);
    var none: Table<Tombstone> := map[];
    RetainedPut(none, Name(p), TombOf(hash, p, e.t.at));
    RetainedNone(none - {Name(p)});
    RetainedNone<Partial>(map[]);
  }

  /** What an event that completes a payload adds to what is remembered is the payload. */
  lemma {:induction false} CompletionRetires(hash: HashFn, h: Snapshot, e: Event, p: Parcel)
    requires HandsOn(hash, h, e, p)
    ensures var prior := Find(Swept(h.parts, h.lastSweep, e.t.at), Name(p));
            forall was :: Filed(hash, was, Name(p), Retired(prior, e.f), e.t.at) == was[Name(p) := TombOf(hash, p, e.t.at)]
  {
    hide Flat, Legal, Swept, Replays, Retained, Joined, Held;
    var e0 := Find(Swept(h.parts, h.lastSweep, e.t.at), Name(p)).value;
    assert Store(e0, e.f).item.chunks == e0.item.chunks[e.f.idx := Some(e.f.chunk)];
    assert Tomb(hash, Store(e0, e.f).item, e.t.at) == TombOf(hash, p, e.t.at);
  }

  /** Both pieces of a payload at one reading, and both again at another. */
  function Twice(p: Parcel, t: U64, later: U64): (es: seq<Event>)
    requires Legal(p) && |p.pieces| == 2
  {
    [Arrive(At(p, 0), Stamp(t, t)), Arrive(At(p, 1), Stamp(t, t)),
     Arrive(At(p, 0), Stamp(later, later)), Arrive(At(p, 1), Stamp(later, later))]
  }

  /**
    The documented redelivery, on every payload of two pieces and nothing else: the set replayed after
    delivery is delivered again if, and only if, it comes no sooner than the timeout.
   */
  lemma {:induction false} SetReplayed(hash: HashFn, p: Parcel, t: U64, later: U64, hs: seq<Snapshot>, outs: seq<Option<Delivery>>)
    requires Legal(p) && |p.pieces| == 2 && t <= later && Runs(hash, Twice(p, t, later), hs, outs)
    ensures var d := Some(Delivery(p.sess, p.address, Flat(p.pieces)));
            outs == [None, d, None, if later - t < TIMEOUT_MS then None else d]
  {
    hide Steps, Gathers, Legal, HandsOn, Settled, Flat, TombOf, Retained, Blocked, Takes;
    var (k, es) := (Name(p), Twice(p, t, later));
    assert Steps(hash, hs[0], es[0], hs[1], outs[0]) && Steps(hash, hs[1], es[1], hs[2], outs[1]);
    assert Steps(hash, hs[2], es[2], hs[3], outs[2]) && Steps(hash, hs[3], es[3], hs[4], outs[3]);
    RoomForFirst(hash, hs[0], es[0], p, 0);
    FirstOfTwo(hash, hs[0], es[0], hs[1], outs[0], p);
    WithinNothing(hs[1].recent);
    UnknownTaken(hash, hs[1], es[1], p);
    SecondOfTwo(hash, hs[1], es[1], hs[2], outs[1], p, t);
    SettledMeans(hash, hs[2], p, t);
    BlockedExactly(hash, hs[2], es[2], p, t);
    if later - t < TIMEOUT_MS {
      TurnedAwayStays(hash, hs[2], es[2], hs[3], outs[2], p, t);
      BlockedExactly(hash, hs[3], es[3], p, t);
      TurnedAwayStays(hash, hs[3], es[3], hs[4], outs[3], p, t);
    } else {
      NotBlocked(hs[2], es[2], k, t);
      FirstOfTwo(hash, hs[2], es[2], hs[3], outs[2], p);
      BlockedExactly(hash, hs[3], es[3], p, t);
      NotBlocked(hs[3], es[3], k, t);
      SecondOfTwo(hash, hs[3], es[3], hs[4], outs[3], p, later);
    }
  }

  lemma {:induction false} WithinNothing<V>(t: Table<V>)
    requires Within(t, map[])
    ensures t == map[]
  {
  }

  lemma {:induction false} UnknownTaken(hash: HashFn, h: Snapshot, e: Event, p: Parcel)
    requires Legal(p) && e.Arrive? && PieceOf(p, e.f) && h.recent == map[]
    ensures Takes(hash, h, e, Name(p))
  {
  }

  lemma {:induction false} SettledMeans(hash: HashFn, h: Snapshot, p: Parcel, at: U64)
    requires Legal(p) && Settled(hash, h, p, at)
    ensures Name(p) !in h.parts && (Name(p) in h.recent ==> h.recent[Name(p)] == TombOf(hash, p, at))
  {
  }

  lemma {:induction false} NotBlocked(h: Snapshot, e: Event, k: Key, at: U64)
    requires SatSub(e.t.at, at) >= TIMEOUT_MS
    ensures !Blocked(h, e, k, at)
  {
  }

  lemma {:induction false} TurnedAwayStays(hash: HashFn, h: Snapshot, e: Event, g: Snapshot, out: Option<Delivery>, p: Parcel, at: U64)
    requires Legal(p) && e.Arrive? && PieceOf(p, e.f) && Name(p) in h.recent && h.recent[Name(p)] == TombOf(hash, p, at)
    requires SatSub(e.t.at, at) < TIMEOUT_MS && Steps(hash, h, e, g, out)
    ensures out == None && g == h
  {
    hide Replays, TombOf, Flat, Goal, Delivered;
    BlockedExactly(hash, h, e, p, at);
  }

  // ---------- at most once ----------

  /** With room for it, a payload that is handed on is remembered. */
  lemma {:induction false} TombstoneFiled(hash: HashFn, h: Snapshot, e: Event, g: Snapshot, out: Option<Delivery>, p: Parcel)
    requires Steps(hash, h, e, g, out) && HandsOn(hash, h, e, p) && Ample(hash, h, e)
    ensures Name(p) in g.recent && g.recent[Name(p)] == TombOf(hash, p, e.t.at)
  {
    hide Flat, Legal, Swept, Replays, Retained, Goal, Filed, Retired, TombOf, Delivered, Store, Completes, Exact;
    CompletionRetires(hash, h, e, p);
  }

  /** With room for everything, a tombstone whose window is open stays until another generation of its key is retired. */
  lemma {:induction false} TombstoneStays(hash: HashFn, h: Snapshot, e: Event, g: Snapshot, out: Option<Delivery>, k: Key)
    requires Steps(hash, h, e, g, out) && Ample(hash, h, e) && !Retires(hash, h, e, k)
    requires k in h.recent && Fresh(h.recent[k].ms, e.t.at)
    ensures k in g.recent && g.recent[k] == h.recent[k]
  {
    hide Replays, Retained, Goal, Retired, Delivered, Tomb;
    SweptIsWithin(h.recent, h.lastSweep, e.t.at);
  }

  /** From the delivery at `m` on, its tombstone stays. */
  lemma {:induction false} StaysRemembered(hash: HashFn, es: seq<Event>, hs: seq<Snapshot>, outs: seq<Option<Delivery>>,
                                           p: Parcel, m: nat, n: nat)
    requires Continues(hash, es, hs, outs) && m <= n <= |es| && m < |es| && HandsOn(hash, hs[m], es[m], p)
    requires forall j :: m <= j < n ==> Ample(hash, hs[j], es[j])
    requires forall j :: m < j < n ==> SatSub(es[j].t.at, es[m].t.at) < TIMEOUT_MS && !Retires(hash, hs[j], es[j], Name(p))
    ensures Remembered(hash, hs, p, es[m].t.at, m, n)
    decreases n
  {
    hide Steps, Ample, Retires, HandsOn, TombOf, Legal;
    HandsOnLegal(hash, hs[m], es[m], p);
    if n > m {
      var j := n - 1;
      assert Steps(hash, hs[j], es[j], hs[n], outs[j]) && Ample(hash, hs[j], es[j]);
      StaysRemembered(hash, es, hs, outs, p, m, j);
      if j == m {
        TombstoneFiled(hash, hs[m], es[m], hs[n], outs[m], p);
      } else {
        TombStamp(hash, p, es[m].t.at);
        TombstoneStays(hash, hs[j], es[j], hs[n], outs[j], Name(p));
      }
    }
  }

  lemma {:induction false} HandsOnLegal(hash: HashFn, h: Snapshot, e: Event, p: Parcel)
    requires HandsOn(hash, h, e, p)
    ensures Legal(p)
  {
  }

  lemma {:induction false} TombStamp(hash: HashFn, p: Parcel, at: U64)
    requires Legal(p)
    ensures TombOf(hash, p, at).ms == at
  {
  }


  /** No chunk of the partial is the piece of the payload in its place. */
  ghost predicate NewTo(p: Parcel, e: Entry<Partial>) {
    e.item.total == |p.pieces| == |e.item.chunks| && e.item.address == p.address ==>
      forall i :: 0 <= i < |p.pieces| && e.item.chunks[i].Some? ==> e.item.chunks[i].value != p.pieces[i]
  }

  /** The payload's tombstone is there after every event from `m` up to `n`. */
  ghost predicate Remembered(hash: HashFn, hs: seq<Snapshot>, p: Parcel, at: U64, m: nat, n: nat)
    requires Legal(p) && n < |hs|
  {
    forall j :: m < j <= n ==> Name(p) in hs[j].recent && hs[j].recent[Name(p)] == TombOf(hash, p, at)
  }

  lemma {:induction false} TakenIsNew(hash: HashFn, h: Snapshot, e: Event, p: Parcel, at: U64)
    requires Legal(p) && Takes(hash, h, e, Name(p)) && SatSub(e.t.at, at) < TIMEOUT_MS
    requires Name(p) in h.recent && h.recent[Name(p)] == TombOf(hash, p, at)
    requires e.f.total == |p.pieces| && e.f.address == p.address
    ensures e.f.chunk != p.pieces[e.f.idx]
  {
    hide Replays, TombOf, Flat;
    if e.f.chunk == p.pieces[e.f.idx] {
      BlockedExactly(hash, h, e, p, at);
    }
  }

  lemma {:induction false} StoreIsNew(p: Parcel, e: Entry<Partial>, f: Fragment)
    requires WellShaped(f) && f.total == e.item.total == |e.item.chunks| && f.address == e.item.address && NewTo(p, e)
    requires f.total == |p.pieces| && f.address == p.address ==> f.chunk != p.pieces[f.idx]
    ensures NewTo(p, Store(e, f))
  {
  }

  lemma {:induction false} NextIsNew(p: Parcel, prior: Option<Entry<Partial>>, f: Fragment, now: U64)
    requires WellShaped(f) && (prior.Some? ==> Exact(prior.value) && NewTo(p, prior.value))
    requires f.total == |p.pieces| && f.address == p.address ==> f.chunk != p.pieces[f.idx]
    ensures NewTo(p, Next(prior, f, now))
  {
    hide NewTo, Got, Held;
    if prior.None? || Restarts(prior.value.item, f) {
      EmptyIsNew(p, f, now);
      StoreIsNew(p, NewPartial(f, now), f);
    } else {
      StoreIsNew(p, prior.value, f);
    }
  }

  lemma {:induction false} EmptyIsNew(p: Parcel, f: Fragment, now: U64)
    ensures NewTo(p, NewPartial(f, now))
  {
  }

  lemma {:induction false} StepIsNew(hash: HashFn, h: Snapshot, e: Event, g: Snapshot, out: Option<Delivery>, p: Parcel, at: U64)
    requires Legal(p) && Steps(hash, h, e, g, out) && (Name(p) in h.parts ==> NewTo(p, h.parts[Name(p)]))
    requires Takes(hash, h, e, Name(p)) ==>
               SatSub(e.t.at, at) < TIMEOUT_MS && Name(p) in h.recent && h.recent[Name(p)] == TombOf(hash, p, at)
    ensures Name(p) in g.parts ==> NewTo(p, g.parts[Name(p)])
  {
    hide NewTo, Legal, Replays, Delivered, Retained, Retired, Next, OverCap, Completes, TombOf;
    var k := Name(p);
    if Takes(hash, h, e, k) {
      if e.f.total == |p.pieces| && e.f.address == p.address {
        TakenIsNew(hash, h, e, p, at);
      }
      NextIsNew(p, Find(Swept(h.parts, h.lastSweep, e.t.at), k), e.f, e.t.at);
    } else {
      OtherWithin(hash, h, e, g, out, k);
    }
  }

  lemma {:induction false} RunIsNew(hash: HashFn, es: seq<Event>, hs: seq<Snapshot>, outs: seq<Option<Delivery>>,
                                    p: Parcel, m: nat, n: nat)
    requires Continues(hash, es, hs, outs) && m < n < |es| && HandsOn(hash, hs[m], es[m], p)
    requires Remembered(hash, hs, p, es[m].t.at, m, n)
    requires forall j :: m < j <= n && OfKey(es[j], Name(p)) ==> SatSub(es[j].t.at, es[m].t.at) < TIMEOUT_MS
    ensures Name(p) in hs[n].parts ==> NewTo(p, hs[n].parts[Name(p)])
    decreases n
  {
    hide Steps, NewTo, Flat, TombOf, Swept, Exact, Completes, Replays;
    var j := n - 1;
    assert Steps(hash, hs[j], es[j], hs[n], outs[j]);
    if j == m {
      HandedOn(hash, hs[m], es[m], hs[n], outs[m], p);
    } else {
      RunIsNew(hash, es, hs, outs, p, m, j);
      StepIsNew(hash, hs[j], es[j], hs[n], outs[j], p, es[m].t.at);
    }
  }

  /**
    Two payloads handed on under one key, the second while the first one's tombstone has been kept and
    its window open all along: if they have the same shape and address, they differ in every single
    piece.
   */
  lemma {:induction false} UnderOneTombstone(hash: HashFn, es: seq<Event>, hs: seq<Snapshot>, outs: seq<Option<Delivery>>,
                                             p: Parcel, q: Parcel, m: nat, n: nat)
    requires Continues(hash, es, hs, outs) && m < n < |es| && Name(p) == Name(q)
    requires HandsOn(hash, hs[m], es[m], p) && HandsOn(hash, hs[n], es[n], q)
    requires Remembered(hash, hs, p, es[m].t.at, m, n)
    requires forall j :: m < j <= n && OfKey(es[j], Name(p)) ==> SatSub(es[j].t.at, es[m].t.at) < TIMEOUT_MS
    ensures |p.pieces| == |q.pieces| && p.address == q.address ==> forall i :: 0 <= i < |p.pieces| ==> p.pieces[i] != q.pieces[i]
    ensures p != q
  {
    hide Steps, Flat, TombOf, Replays, Got, Held;
    RunIsNew(hash, es, hs, outs, p, m, n);
    var e := Find(Swept(hs[n].parts, hs[n].lastSweep, es[n].t.at), Name(p)).value;
    if |p.pieces| == |q.pieces| && p.address == q.address {
      TakenIsNew(hash, hs[n], es[n], p, es[m].t.at);
      SweptIsNew(hs[n], p, es[n].t.at);
      StoreIsNew(p, e, es[n].f);
      assert forall i :: 0 <= i < |q.pieces| ==> Store(e, es[n].f).item.chunks[i] == Some(q.pieces[i]);
    }
  }

  /**
    At most once. As long as neither cap is reached and no other generation of its key is retired, a
    payload that was handed on at event `m` is not handed on again at any event `n` less than the timeout
    later: another payload of its key, shape and address that is differs from it in every piece.
   */
  lemma {:induction false} AtMostOnce(hash: HashFn, es: seq<Event>, hs: seq<Snapshot>, outs: seq<Option<Delivery>>,
                                      p: Parcel, q: Parcel, m: nat, n: nat)
    requires Continues(hash, es, hs, outs) && m < n < |es| && Name(p) == Name(q)
    requires HandsOn(hash, hs[m], es[m], p) && HandsOn(hash, hs[n], es[n], q)
    requires forall j :: m <= j < n ==> Ample(hash, hs[j], es[j])
    requires forall j :: m < j <= n ==> SatSub(es[j].t.at, es[m].t.at) < TIMEOUT_MS
    requires forall j :: m < j < n ==> !Retires(hash, hs[j], es[j], Name(p))
    ensures p != q
    ensures |p.pieces| == |q.pieces| && p.address == q.address ==> forall i :: 0 <= i < |p.pieces| ==> p.pieces[i] != q.pieces[i]
  {
    hide Steps, Ample, Retires, HandsOn, Remembered, Legal;
    StaysRemembered(hash, es, hs, outs, p, m, n);
    UnderOneTombstone(hash, es, hs, outs, p, q, m, n);
  }

  lemma {:induction false} SweptIsNew(h: Snapshot, p: Parcel, now: U64)
    requires Name(p) in h.parts ==> NewTo(p, h.parts[Name(p)])
    ensures Name(p) in Swept(h.parts, h.lastSweep, now) ==> NewTo(p, Swept(h.parts, h.lastSweep, now)[Name(p)])
  {
    hide NewTo;
  }

  // ---------- a key that starts over ----------

  /**
    A fragment that contradicts the partial of its key retires it: with room, its chunks are remembered,
    and none of them is taken into the new generation while the window is open.
   */
  lemma {:induction false} RestartGuarded(hash: HashFn, h: Snapshot, e: Event, g: Snapshot, out: Option<Delivery>,
                                          was: Entry<Partial>, i: nat, later: Event)
    requires e.Arrive? && Steps(hash, h, e, g, out) && Takes(hash, h, e, KeyOf(e.f)) && Ample(hash, h, e)
    requires Find(Swept(h.parts, h.lastSweep, e.t.at), KeyOf(e.f)) == Some(was) && Exact(was)
    requires Conflicts(was.item, e.f) && !OverCap(was.item, e.f)
    requires i < was.item.total && was.item.chunks[i].Some? && |was.item.chunks[i].value| <= MAX_PAYLOAD
    requires later.Arrive? && later.f == Fragment(e.f.sess, e.f.id, i, was.item.total, was.item.address, was.item.chunks[i].value)
    requires SatSub(later.t.at, e.t.at) < TIMEOUT_MS
    ensures out == None && KeyOf(e.f) in g.recent && TurnedAway(hash, g, later.f, later.t.at)
  {
    hide Retained, Replays, Goal, Swept, Got, Held, OverCap;
    RestartRetires(was, e.f);
    ReplaysExactly(hash, was.item, e.t.at, later.f, later.t.at);
    assert AsU32(|later.f.chunk|) == |later.f.chunk|;
  }

  lemma {:induction false} RestartRetires(e: Entry<Partial>, f: Fragment)
    requires WellShaped(f) && Exact(e) && Conflicts(e.item, f) && !OverCap(e.item, f)
    ensures Retired(Some(e), f) == Some(e.item) && Delivered(Some(e), f) == None
  {
    hide Got, Held;
  }

  // ---------- no partial is old, ticks or not ----------

  ghost predicate Rising(es: seq<Event>) {
    forall i, j :: 0 <= i < j < |es| ==> es[i].t.at <= es[j].t.at
  }

  /** No partial outlived the last sweep, and the last sweep is not ahead of the clock. */
  ghost predicate SweptSince(h: Snapshot, clock: U64) {
    h.lastSweep <= clock && forall k :: k in h.parts ==> Fresh(h.parts[k].ms, h.lastSweep)
  }

  lemma {:induction false} StepSwept(hash: HashFn, h: Snapshot, e: Event, g: Snapshot, out: Option<Delivery>, clock: U64)
    requires Steps(hash, h, e, g, out) && SweptSince(h, clock) && clock <= e.t.at
    ensures SweptSince(g, e.t.at)
  {
    hide Delivered, Retained, Remembers, Retired, Replays, OverCap, Completes, Got, Held;
    if e.Arrive? && !TurnedAway(hash, h, e.f, e.t.at) {
      var seen := Swept(h.parts, h.lastSweep, e.t.at);
      NextExactly(Find(seen, KeyOf(e.f)), e.f, e.t.at);
    }
  }

  lemma {:induction false} RunSwept(hash: HashFn, es: seq<Event>, hs: seq<Snapshot>, outs: seq<Option<Delivery>>, n: nat)
    requires Runs(hash, es, hs, outs) && Rising(es) && n <= |es|
    ensures SweptSince(hs[n], if n == 0 then 0 else es[n - 1].t.at)
  {
    hide Steps;
    if n > 0 {
      RunSwept(hash, es, hs, outs, n - 1);
      StepSwept(hash, hs[n - 1], es[n - 1], hs[n], outs[n - 1], if n == 1 then 0 else es[n - 2].t.at);
    }
  }

  /** Even if no tick ever comes, no fragment is put to a partial that was opened three seconds before. */
  lemma {:induction false} NoneSeenIsOld(hash: HashFn, es: seq<Event>, hs: seq<Snapshot>, outs: seq<Option<Delivery>>, n: nat, k: Key)
    requires Runs(hash, es, hs, outs) && Rising(es) && n < |es|
    requires k in Swept(hs[n].parts, hs[n].lastSweep, es[n].t.at)
    ensures SatSub(es[n].t.at, hs[n].parts[k].ms) < 3_000
  {
    hide Steps;
    RunSwept(hash, es, hs, outs, n);
  }
}
