/**
  The fragment reassembler: live partials, tombstones of retired generations, one byte budget for both.

  `log`, `clock` and `steady` are specification state: every fragment ever pushed, the latest time
  handed in, and whether times have never run backwards.
 */
module Reassembler {
  import opened Bytes
  import opened Addr
  import opened FragTable
  import opened Partials

  const MAX_HELD: nat := 256 * 1024
  const MAX_PARTIALS: nat := 256
  const SWEEP_EVERY_MS: nat := 1_000

  datatype ChunkFp = ChunkFp(len: U32, hash: U64)

  datatype Tombstone = Tombstone(total: U8, address: TargetAddr, prints: seq<Option<ChunkFp>>)

  /** The seeded chunk fingerprint. */
  type HashFn = Octets -> U64

  datatype Delivery = Delivery(sess: U32, address: TargetAddr, payload: Octets)

  function KeyOf(f: Fragment): (k: Key) {
    Key(f.sess, f.id)
  }

  function Find<V>(t: Table<V>, k: Key): (r: Option<Entry<V>>) {
    if k in t then Some(t[k]) else None
  }

  function PrintsOf(hash: HashFn, chunks: seq<Option<Chunk>>): (r: seq<Option<ChunkFp>>)
    ensures |r| == |chunks|
  {
    seq(|chunks|, i requires 0 <= i < |chunks| =>
      if chunks[i].None? then None else Some(ChunkFp(AsU32(|chunks[i].value|), hash(chunks[i].value))))
  }

  function Tomb(hash: HashFn, p: Partial, now: U64): (e: Entry<Tombstone>) {
    Entry(now, p.total * PRINT_BYTES, Tombstone(p.total, p.address, PrintsOf(hash, p.chunks)))
  }

  /** The fragment repeats, within the window, a chunk of the generation the tombstone remembers. */
  predicate Replays(hash: HashFn, e: Entry<Tombstone>, f: Fragment, now: U64) {
    && SatSub(now, e.ms) < TIMEOUT_MS
    && e.item.total == f.total && e.item.address == f.address
    && f.idx < |e.item.prints| && e.item.prints[f.idx].Some?
    && e.item.prints[f.idx].value.len == |f.chunk| && e.item.prints[f.idx].value.hash == hash(f.chunk)
  }

  /** What a push still sees of a table: a sweep runs at most once a second. */
  function Swept<V>(t: Table<V>, lastSweep: U64, now: U64): (r: Table<V>) {
    if lastSweep != 0 && SatSub(now, lastSweep) < SWEEP_EVERY_MS then t else Alive(t, now)
  }

  /** When the last sweep was, once a push has had its chance to make one. */
  function SweepTime(lastSweep: U64, now: U64): (at: U64) {
    if lastSweep != 0 && SatSub(now, lastSweep) < SWEEP_EVERY_MS then lastSweep else now
  }

  /** The partials after a fragment, were there no bound on what may be held. */
  function Goal(parts: Table<Partial>, f: Fragment, now: U64): (r: Table<Partial>)
    requires WellShaped(f) && forall k :: k in parts ==> |parts[k].item.chunks| == parts[k].item.total
  {
    var k := KeyOf(f);
    if k in parts && (OverCap(parts[k].item, f) || Completes(parts[k].item, f)) then parts - {k}
    else parts[k := Next(Find(parts, k), f, now)]
  }

  /** What a push hands on: the whole payload exactly when the fragment was the last one missing. */
  function Delivered(prior: Option<Entry<Partial>>, f: Fragment): (r: Option<Delivery>)
    requires WellShaped(f) && (prior.Some? ==> |prior.value.item.chunks| == prior.value.item.total)
  {
    if prior.Some? && Completes(prior.value.item, f) then
      Some(Delivery(f.sess, f.address, Joined(prior.value.item.chunks[f.idx := Some(f.chunk)])))
    else None
  }

  ghost predicate PartsOk(parts: Table<Partial>) {
    forall k :: k in parts ==> Exact(parts[k])
  }

  /** The generation a push takes out of the table and remembers. */
  function Retired(prior: Option<Entry<Partial>>, f: Fragment): (r: Option<Partial>)
    requires WellShaped(f) && (prior.Some? ==> |prior.value.item.chunks| == prior.value.item.total)
  {
    if prior.None? || OverCap(prior.value.item, f) then None
    else if Restarts(prior.value.item, f) then Some(prior.value.item)
    else if Completes(prior.value.item, f) then Some(Store(prior.value, f).item)
    else None
  }

  /** What is to be remembered after a push: what was, and the generation it retired. */
  function Filed(hash: HashFn, was: Table<Tombstone>, k: Key, retired: Option<Partial>, now: U64): (r: Table<Tombstone>) {
    if retired.None? then was else was[k := Tomb(hash, retired.value, now)]
  }

  /** Nothing else is remembered, and all of it is as long as it fits both caps beside partials of `bytes` bytes. */
  ghost predicate Remembers(hash: HashFn, was: Table<Tombstone>, k: Key, retired: Option<Partial>, now: U64, bytes: nat,
                            recent: Table<Tombstone>)
  {
    var all := Filed(hash, was, k, retired, now);
    Within(recent, all) && (|all| <= MAX_PARTIALS && bytes + Retained(all) <= MAX_HELD ==> recent == all)
  }

  ghost predicate TombOk(e: Entry<Tombstone>) {
    e.item.total <= MAX_TOTAL && |e.item.prints| == e.item.total && e.retained == e.item.total * PRINT_BYTES
  }

  ghost predicate TombsOk(recent: Table<Tombstone>) {
    forall k :: k in recent ==> TombOk(recent[k])
  }

  /** Every stored chunk came in a fragment of its key, total, address and index. */
  ghost predicate Logged(parts: Table<Partial>, log: set<Fragment>) {
    forall k, i :: k in parts && 0 <= i < |parts[k].item.chunks| ==> ChunkLogged(k, parts[k].item, i, log)
  }

  ghost predicate ChunkLogged(k: Key, p: Partial, i: nat, log: set<Fragment>)
    requires i < |p.chunks|
  {
    p.chunks[i].Some? ==> i < 0x100 && Fragment(k.sess, k.id, i, p.total, p.address, p.chunks[i].value) in log
  }

  /** The fragment of `f`'s payload with index `i`. */
  function Piece(f: Fragment, i: U8, c: Chunk): (g: Fragment) {
    Fragment(f.sess, f.id, i, f.total, f.address, c)
  }

  ghost predicate PiecesIn(f: Fragment, pieces: seq<Chunk>, log: set<Fragment>) {
    |pieces| == f.total && forall i :: 0 <= i < f.total ==> Piece(f, i, pieces[i]) in log
  }

  /** The payload is made of pieces that were all pushed, in index order, under `f`'s identity. */
  ghost predicate FromLog(f: Fragment, payload: Octets, log: set<Fragment>) {
    exists pieces :: PiecesIn(f, pieces, log) && payload == Flat(pieces)
  }

  ghost predicate Waiting(parts: Table<Partial>) {
    forall k :: k in parts ==> parts[k].item.got < parts[k].item.total
  }

  /** A queue reaches every entry, oldest first unless times ran backwards. */
  ghost predicate InOrder<V>(t: Table<V>, order: seq<Slot>, clock: U64, steady: bool) {
    Queued(t, order) && (steady ==> Ascending(order) && Stamped(order, clock))
  }

  lemma {:induction false} InOrderMeans<V>(t: Table<V>, order: seq<Slot>, clock: U64, steady: bool)
    requires InOrder(t, order, clock, steady)
    ensures Queued(t, order) && (steady ==> Ascending(order))
  {
  }

  lemma {:induction false} InOrderWithin<V>(t: Table<V>, order: seq<Slot>, clock: U64, steady: bool, u: Table<V>)
    requires InOrder(t, order, clock, steady) && Within(u, t)
    ensures InOrder(u, order, clock, steady)
  {
  }

  lemma {:induction false} InOrderPopped<V>(t: Table<V>, order: seq<Slot>, clock: U64, steady: bool,
                                            u: Table<V>, rest: seq<Slot>)
    requires InOrder(t, order, clock, steady) && Queued(u, rest)
    requires exists n :: 0 <= n <= |order| && rest == order[n..]
    ensures InOrder(u, rest, clock, steady)
  {
  }

  lemma {:induction false} InOrderPruned<V>(t: Table<V>, order: seq<Slot>, clock: U64, steady: bool, out: seq<Slot>)
    requires InOrder(t, order, clock, steady) && Queued(t, out)
    requires forall s :: s in out ==> s in order
    requires Ascending(order) ==> Ascending(out)
    ensures InOrder(t, out, clock, steady)
  {
  }

  lemma {:induction false} InOrderLater<V>(t: Table<V>, order: seq<Slot>, clock: U64, steady: bool, now: U64)
    requires InOrder(t, order, clock, steady)
    ensures InOrder(t, order, now, steady && clock <= now)
  {
  }

  lemma {:induction false} InOrderPut<V>(t: Table<V>, order: seq<Slot>, k: Key, e: Entry<V>, clock: U64, steady: bool)
    requires InOrder(t, order, clock, steady) && e.ms == clock
    ensures InOrder(t[k := e], order + [Slot(k, e.ms)], clock, steady)
  {
    if steady {
      Appended(order, Slot(k, e.ms));
    }
  }

  lemma {:induction false} InOrderSame<V>(t: Table<V>, order: seq<Slot>, k: Key, e: Entry<V>, clock: U64, steady: bool)
    requires InOrder(t, order, clock, steady) && k in t && e.ms == t[k].ms
    ensures InOrder(t[k := e], order, clock, steady)
  {
  }

  /** Every partial is exact, and every chunk of it accounted for. */
  ghost predicate PartsSound(parts: Table<Partial>, log: set<Fragment>) {
    PartsOk(parts) && Logged(parts, log)
  }

  lemma {:induction false} PartsWithin(parts: Table<Partial>, log: set<Fragment>, t: Table<Partial>)
    requires PartsSound(parts, log) && Within(t, parts)
    ensures PartsSound(t, log)
    ensures Waiting(parts) ==> Waiting(t)
  {
    forall k, i | k in t && 0 <= i < |t[k].item.chunks|
      ensures ChunkLogged(k, t[k].item, i, log)
    {
      assert ChunkLogged(k, parts[k].item, i, log);
    }
  }

  lemma {:induction false} PartsPut(parts: Table<Partial>, log: set<Fragment>, k: Key, e: Entry<Partial>)
    requires PartsSound(parts, log) && Exact(e)
    requires forall i :: 0 <= i < |e.item.chunks| ==> ChunkLogged(k, e.item, i, log)
    ensures PartsSound(parts[k := e], log)
  {
  }

  lemma {:induction false} PartMeans(parts: Table<Partial>, log: set<Fragment>, k: Key)
    requires PartsSound(parts, log) && k in parts
    ensures Exact(parts[k])
    ensures forall i :: 0 <= i < |parts[k].item.chunks| ==> ChunkLogged(k, parts[k].item, i, log)
  {
  }

  /** Storing a fragment keeps a partial exact and accounted for, and is charged for exactly once. */
  lemma {:induction false} StoreSound(e: Entry<Partial>, f: Fragment, log: set<Fragment>, opening: bool)
    requires WellShaped(f) && f in log
    requires if opening then e == NewPartial(f, e.ms) else Exact(e) && !Restarts(e.item, f) && !OverCap(e.item, f)
    requires forall i :: 0 <= i < |e.item.chunks| ==> ChunkLogged(KeyOf(f), e.item, i, log)
    ensures var n := Store(e, f);
            && Exact(n) && n.retained == e.retained + (if Taken(e.item, f) then 0 else Charge(e.item, f))
            && forall i :: 0 <= i < |n.item.chunks| ==> ChunkLogged(KeyOf(f), n.item, i, log)
  {
    if opening {
      StoreNew(f, e.ms);
    } else {
      StoreKeepsExact(e, f);
    }
    forall i | 0 <= i < |e.item.chunks|
      ensures ChunkLogged(KeyOf(f), Store(e, f).item, i, log)
    {
      assert ChunkLogged(KeyOf(f), e.item, i, log);
    }
  }

  /** The table once a fragment was stored, and what is left to do: deliver exactly when it completed. */
  lemma {:induction false} PlacedInTable(parts: Table<Partial>, log: set<Fragment>, f: Fragment, now: U64)
    requires PartsSound(parts, log) && Waiting(parts) && WellShaped(f)
    requires KeyOf(f) in parts ==> !OverCap(parts[KeyOf(f)].item, f)
    ensures var k := KeyOf(f);
            var base := if k in parts && Restarts(parts[k].item, f) then parts - {k} else parts;
            var e := if k in base then Store(base[k], f) else Store(NewPartial(f, now), f);
            && Waiting(Goal(parts, f, now))
            && (k in parts && Restarts(parts[k].item, f) ==> Retired(Find(parts, k), f) == Some(parts[k].item))
            && (k in parts && Restarts(parts[k].item, f) ==> e.item.got < e.item.total)
            && if e.item.got == e.item.total then
                 && Retired(Find(parts, k), f) == Some(e.item) && e.item.total == f.total
                 && Goal(parts, f, now) == base[k := e] - {k}
                 && Delivered(Find(parts, k), f) == Some(Delivery(f.sess, e.item.address, Joined(e.item.chunks)))
               else
                 && Goal(parts, f, now) == base[k := e]
                 && (k !in parts || !Restarts(parts[k].item, f) ==> Retired(Find(parts, k), f) == None)
                 && Delivered(Find(parts, k), f) == None
  {
    var k := KeyOf(f);
    if k in parts {
      PartMeans(parts, log, k);
      if !Restarts(parts[k].item, f) {
        StoreKeepsExact(parts[k], f);
      }
    }
  }

  lemma {:induction false} PartsLogged(parts: Table<Partial>, log: set<Fragment>, f: Fragment)
    requires PartsSound(parts, log)
    ensures PartsSound(parts, log + {f})
  {
    forall k, i | k in parts && 0 <= i < |parts[k].item.chunks|
      ensures ChunkLogged(k, parts[k].item, i, log + {f})
    {
      assert ChunkLogged(k, parts[k].item, i, log);
    }
  }

  lemma {:induction false} DeliveredIsLogged(parts: Table<Partial>, log: set<Fragment>, f: Fragment)
    requires PartsSound(parts, log) && f in log && WellShaped(f)
    ensures var d := Delivered(Find(parts, KeyOf(f)), f);
            d.Some? ==> |d.value.payload| <= MAX_PAYLOAD && FromLog(f, d.value.payload, log)
  {
    var k := KeyOf(f);
    if Delivered(Find(parts, k), f).Some? {
      PartMeans(parts, log, k);
      StoreSound(parts[k], f, log, false);
      CompleteWithinCap(parts[k], f);
      var p := Store(parts[k], f).item;
      var pieces := seq(|p.chunks|, i requires 0 <= i < |p.chunks| => p.chunks[i].value);
      JoinedIsFlat(p.chunks, pieces);
      forall i | 0 <= i < f.total
        ensures Piece(f, i, pieces[i]) in log
      {
        assert ChunkLogged(k, p, i, log);
      }
    }
  }

  /**
    If everything pushed under a session, id, total and address was cut from one payload, then that
    payload is what comes out: no splice.
   */
  lemma {:induction false} DeliveredIsSent(f: Fragment, payload: Octets, log: set<Fragment>, sent: seq<Chunk>)
    requires FromLog(f, payload, log) && |sent| == f.total
    requires forall g :: g in log && g == Piece(f, g.idx, g.chunk) && g.idx < f.total ==> g.chunk == sent[g.idx]
    ensures payload == Flat(sent)
  {
    var pieces :| PiecesIn(f, pieces, log) && payload == Flat(pieces);
    forall i | 0 <= i < f.total
      ensures pieces[i] == sent[i]
    {
      assert Piece(f, i, pieces[i]) in log;
    }
    assert pieces == sent;
  }

  /** As long as its tombstone is kept, a fragment of a delivered payload is refused for the window, and no longer. */
  lemma {:induction false} ReplayOfDelivered(hash: HashFn, was: Table<Tombstone>, recent: Table<Tombstone>,
                                             bytes: nat, e: Entry<Partial>, f: Fragment, now: U64,
                                             g: Fragment, later: U64)
    requires Exact(e) && WellShaped(f) && Completes(e.item, f)
    requires Remembers(hash, was, KeyOf(f), Retired(Some(e), f), now, bytes, recent) && KeyOf(f) in recent
    requires WellShaped(g) && g == Piece(f, g.idx, g.chunk) && Store(e, f).item.chunks[g.idx] == Some(g.chunk)
    ensures Replays(hash, recent[KeyOf(f)], g, later) <==> SatSub(later, now) < TIMEOUT_MS
  {
    hide Remembers, Retained, Held, Joined, Got;
    var item := Store(e, f).item;
    CompleteWithinCap(e, f);
    ChunkWithinHeld(item.chunks, g.idx);
    RemembersRetired(hash, was, KeyOf(f), item, now, bytes, recent);
    PrintOf(hash, item, now, g, later);
  }

  lemma {:induction false} RemembersRetired(hash: HashFn, was: Table<Tombstone>, k: Key, item: Partial, now: U64,
                                            bytes: nat, recent: Table<Tombstone>)
    requires Remembers(hash, was, k, Some(item), now, bytes, recent) && k in recent
    ensures recent[k] == Tomb(hash, item, now)
  {
  }

  lemma {:induction false} PrintOf(hash: HashFn, item: Partial, now: U64, g: Fragment, later: U64)
    requires g.idx < |item.chunks| && item.chunks[g.idx] == Some(g.chunk)
    requires item.total == g.total && item.address == g.address && |g.chunk| <= MAX_PAYLOAD
    ensures Replays(hash, Tomb(hash, item, now), g, later) <==> SatSub(later, now) < TIMEOUT_MS
  {
    assert AsU32(|g.chunk|) == |g.chunk|;
    assert PrintsOf(hash, item.chunks)[g.idx] == Some(ChunkFp(|g.chunk|, hash(g.chunk)));
  }

  /**
    A tombstone refuses exactly the chunks its generation held: same shape, address and place, same length
    and fingerprint, inside the window. Any other fragment passes.
   */
  lemma {:induction false} ReplaysExactly(hash: HashFn, item: Partial, at: U64, f: Fragment, now: U64)
    ensures Replays(hash, Tomb(hash, item, at), f, now) <==>
            && SatSub(now, at) < 2_000 && item.total == f.total && item.address == f.address
            && f.idx < |item.chunks| && item.chunks[f.idx].Some?
            && AsU32(|item.chunks[f.idx].value|) == |f.chunk| && hash(item.chunks[f.idx].value) == hash(f.chunk)
  {
  }

  lemma {:induction false} TombsWithin(recent: Table<Tombstone>, t: Table<Tombstone>)
    requires TombsOk(recent) && Within(t, recent)
    ensures TombsOk(t)
  {
  }

  lemma {:induction false} TombsPut(recent: Table<Tombstone>, k: Key, t: Entry<Tombstone>)
    requires TombsOk(recent) && TombOk(t)
    ensures TombsOk(recent[k := t])
  {
  }

  /** The partials that are left: the oldest go, and none does while the partials alone fit both caps. */
  ghost predicate KeepsParts(seen: Table<Partial>, f: Fragment, now: U64, steady: bool, parts: Table<Partial>)
    requires WellShaped(f) && forall k :: k in seen ==> |seen[k].item.chunks| == seen[k].item.total
  {
    var goal := Goal(seen, f, now);
    && Within(parts, goal) && (steady ==> OldestGone(goal, parts))
    && (Retained(goal) <= MAX_HELD ==>
          if KeyOf(f) in seen || |seen| < MAX_PARTIALS then parts == goal else |parts| == MAX_PARTIALS && KeyOf(f) in parts)
  }

  lemma {:induction false} PartLengths(parts: Table<Partial>, log: set<Fragment>)
    requires PartsSound(parts, log)
    ensures forall k :: k in parts ==> |parts[k].item.chunks| == parts[k].item.total
  {
  }

  lemma {:induction false} AllKept(seen: Table<Partial>, f: Fragment, now: U64, steady: bool, parts: Table<Partial>)
    requires WellShaped(f) && forall k :: k in seen ==> |seen[k].item.chunks| == seen[k].item.total
    requires parts == Goal(seen, f, now) && KeyOf(f) in seen
    ensures KeepsParts(seen, f, now, steady, parts)
  {
    hide Goal, Retained;
  }

  lemma {:induction false} PlacedKept(seen: Table<Partial>, f: Fragment, now: U64, steady: bool, parts: Table<Partial>)
    requires WellShaped(f) && forall k :: k in seen ==> |seen[k].item.chunks| == seen[k].item.total
    requires Within(parts, Goal(seen, f, now)) && (steady ==> OldestGone(Goal(seen, f, now), parts))
    requires Retained(Goal(seen, f, now)) <= MAX_HELD ==> parts == Goal(seen, f, now)
    requires KeyOf(f) in seen || |seen| < MAX_PARTIALS
    ensures KeepsParts(seen, f, now, steady, parts)
  {
    hide Goal, Retained, Within, OldestGone;
  }

  lemma {:induction false} OverCapGoal(parts: Table<Partial>, log: set<Fragment>, f: Fragment, now: U64)
    requires PartsSound(parts, log) && WellShaped(f) && KeyOf(f) in parts && OverCap(parts[KeyOf(f)].item, f)
    ensures Goal(parts, f, now) == parts - {KeyOf(f)}
    ensures Delivered(Find(parts, KeyOf(f)), f) == None && Retired(Find(parts, KeyOf(f)), f) == None
  {
    hide Joined, Next;
    PartLengths(parts, log);
  }

  lemma {:induction false} NothingRetired(hash: HashFn, recent: Table<Tombstone>, key: Key, now: U64, bytes: nat)
    ensures Remembers(hash, recent, key, None, now, bytes, recent) && OldestGone(Filed(hash, recent, key, None, now), recent)
  {
    hide Retained;
  }

  lemma {:induction false} NoneNewer<V>(t: Table<V>, order: seq<Slot>, clock: U64, steady: bool)
    requires InOrder(t, order, clock, steady)
    ensures steady ==> forall k :: k in t ==> t[k].ms <= clock
  {
    forall k | steady && k in t
      ensures t[k].ms <= clock
    {
      assert Slot(k, t[k].ms) in order;
    }
  }

  /** A new key, and an older partial out of the way: the same outcome without that partial. */
  lemma {:induction false} RoomMade(was: Table<Partial>, log: set<Fragment>, victim: Key, f: Fragment, now: U64)
    requires PartsSound(was, log) && WellShaped(f) && KeyOf(f) !in was && victim in was
    ensures Goal(was - {victim}, f, now) == Goal(was, f, now) - {victim}
    ensures Goal(was, f, now) == was[KeyOf(f) := Next(None, f, now)] && Next(None, f, now).ms == now
    ensures Find(was - {victim}, KeyOf(f)) == None == Find(was, KeyOf(f))
    ensures Delivered(None, f) == None && Retired(None, f) == None
  {
    PartLengths(was, log);
  }

  lemma {:induction false} RoomUsed(was: Table<Partial>, log: set<Fragment>, victim: Key, f: Fragment, now: U64,
                                    parts: Table<Partial>, steady: bool)
    requires PartsSound(was, log) && WellShaped(f) && KeyOf(f) !in was && victim in was && |was| == MAX_PARTIALS
    requires steady ==> forall k :: k in was ==> was[victim].ms <= was[k].ms && was[k].ms <= now
    requires var goal := Goal(was - {victim}, f, now);
             && Within(parts, goal) && (steady ==> OldestGone(goal, parts))
             && (Retained(goal) <= MAX_HELD ==> parts == goal)
    ensures KeepsParts(was, f, now, steady, parts)
  {
    hide Goal, Retained, Within, OldestGone, Next;
    RoomMade(was, log, victim, f, now);
    var (goal, left) := (Goal(was, f, now), Goal(was - {victim}, f, now));
    assert goal.Keys == was.Keys + {KeyOf(f)} && |goal.Keys| == |was.Keys| + 1;
    assert left.Keys == goal.Keys - {victim} && |left.Keys| == |goal.Keys| - 1;
    LeftOver(goal, victim, steady);
    WithinTransitive(parts, left, goal);
    RetainedWithin(left, goal);
    if steady {
      OldestGoneTwice(goal, left, parts);
    }
  }

  lemma {:induction false} LeftOver(goal: Table<Partial>, victim: Key, steady: bool)
    requires victim in goal && (steady ==> forall k :: k in goal ==> goal[victim].ms <= goal[k].ms)
    ensures Within(goal - {victim}, goal) && (steady ==> OldestGone(goal, goal - {victim}))
  {
  }

  lemma {:induction false} RoomForTombstones(hash: HashFn, wasRecent: Table<Tombstone>, key: Key, retired: Option<Partial>, now: U64,
                                             was: Table<Partial>, log: set<Fragment>, victim: Key, f: Fragment,
                                             recent: Table<Tombstone>)
    requires PartsSound(was, log) && WellShaped(f) && KeyOf(f) !in was && victim in was
    requires Remembers(hash, wasRecent, key, retired, now, Retained(Goal(was - {victim}, f, now)), recent)
    ensures Remembers(hash, wasRecent, key, retired, now, Retained(Goal(was, f, now)), recent)
  {
    hide Goal, Retained, Filed;
    RoomMade(was, log, victim, f, now);
    RetainedWithin(Goal(was - {victim}, f, now), Goal(was, f, now));
  }

  /** A generation retired on the way in, a chunk stored, and what the byte budget then took. */
  lemma {:induction false} AfterReclaim(hash: HashFn, was: Table<Tombstone>, key: Key, retired: Option<Partial>, now: U64,
                                        restarted: bool, base: Table<Partial>, goal: Table<Partial>,
                                        filed: Table<Tombstone>, recent: Table<Tombstone>, steady: bool)
    requires if restarted then
               && Remembers(hash, was, key, retired, now, Retained(base), filed) && Within(base, goal)
               && (steady ==> OldestGone(Filed(hash, was, key, retired, now), filed))
             else filed == was && retired.None?
    requires Within(recent, filed) && (steady ==> OldestGone(filed, recent))
    requires Retained(goal) + Retained(filed) <= MAX_HELD ==> recent == filed
    ensures Remembers(hash, was, key, retired, now, Retained(goal), recent)
    ensures steady ==> OldestGone(Filed(hash, was, key, retired, now), recent)
  {
    hide Retained, Within, OldestGone;
    var all := Filed(hash, was, key, retired, now);
    if restarted {
      RetainedWithin(base, goal);
      WithinTransitive(recent, filed, all);
      if steady {
        OldestGoneTwice(all, filed, recent);
      }
    }
  }

  /** Both tables after a fragment that had a place to go. */
  ghost predicate Settles(hash: HashFn, seen: Table<Partial>, was: Table<Tombstone>, f: Fragment, now: U64, steady: bool,
                          parts: Table<Partial>, recent: Table<Tombstone>)
    requires WellShaped(f) && forall k :: k in seen ==> |seen[k].item.chunks| == seen[k].item.total
  {
    var (goal, retired) := (Goal(seen, f, now), Retired(Find(seen, KeyOf(f)), f));
    && Within(parts, goal) && (steady ==> OldestGone(goal, parts)) && (Retained(goal) <= MAX_HELD ==> parts == goal)
    && Remembers(hash, was, KeyOf(f), retired, now, Retained(goal), recent)
    && (steady ==> OldestGone(Filed(hash, was, KeyOf(f), retired, now), recent))
  }

  lemma {:induction false} CompletedSettles(hash: HashFn, seen: Table<Partial>, was: Table<Tombstone>, f: Fragment, now: U64,
                                            steady: bool, p: Partial, parts: Table<Partial>, recent: Table<Tombstone>)
    requires WellShaped(f) && forall k :: k in seen ==> |seen[k].item.chunks| == seen[k].item.total
    requires parts == Goal(seen, f, now) && Retired(Find(seen, KeyOf(f)), f) == Some(p)
    requires Remembers(hash, was, KeyOf(f), Some(p), now, Retained(parts), recent)
    requires steady ==> OldestGone(Filed(hash, was, KeyOf(f), Some(p), now), recent)
    ensures Settles(hash, seen, was, f, now, steady, parts, recent)
  {
    hide Goal, Retired, Retained, Remembers, Filed, Within, OldestGone;
    WithinItself(parts);
    NothingGone(parts);
  }

  lemma {:induction false} StoredSettles(hash: HashFn, seen: Table<Partial>, was: Table<Tombstone>, f: Fragment, now: U64,
                                         steady: bool, base: Table<Partial>, filed: Table<Tombstone>, restarted: bool,
                                         parts: Table<Partial>, recent: Table<Tombstone>)
    requires WellShaped(f) && forall k :: k in seen ==> |seen[k].item.chunks| == seen[k].item.total
    requires var (goal, retired) := (Goal(seen, f, now), Retired(Find(seen, KeyOf(f)), f));
             && Within(parts, goal) && (steady ==> OldestGone(goal, parts)) && (Retained(goal) <= MAX_HELD ==> parts == goal)
             && (if restarted then
                   && Remembers(hash, was, KeyOf(f), retired, now, Retained(base), filed)
                   && (steady ==> OldestGone(Filed(hash, was, KeyOf(f), retired, now), filed))
                   && KeyOf(f) !in base && KeyOf(f) in goal && base == goal - {KeyOf(f)}
                 else filed == was && retired.None?)
             && Within(recent, filed) && (steady ==> OldestGone(filed, recent))
             && (Retained(goal) + Retained(filed) <= MAX_HELD ==> recent == filed)
    ensures Settles(hash, seen, was, f, now, steady, parts, recent)
  {
    hide Goal, Retired, Retained, Remembers, Filed, OldestGone;
    AfterReclaim(hash, was, KeyOf(f), Retired(Find(seen, KeyOf(f)), f), now, restarted, base, Goal(seen, f, now), filed, recent, steady);
  }

  /** Both tables after any fragment that was not refused on sight. */
  ghost predicate Admits(hash: HashFn, seen: Table<Partial>, was: Table<Tombstone>, f: Fragment, now: U64, steady: bool,
                         parts: Table<Partial>, recent: Table<Tombstone>)
    requires WellShaped(f) && forall k :: k in seen ==> |seen[k].item.chunks| == seen[k].item.total
  {
    var (goal, retired) := (Goal(seen, f, now), Retired(Find(seen, KeyOf(f)), f));
    && KeepsParts(seen, f, now, steady, parts)
    && Remembers(hash, was, KeyOf(f), retired, now, Retained(goal), recent)
    && (steady ==> OldestGone(Filed(hash, was, KeyOf(f), retired, now), recent))
  }

  lemma {:induction false} PlacedAdmits(hash: HashFn, seen: Table<Partial>, was: Table<Tombstone>, f: Fragment, now: U64,
                                        steady: bool, parts: Table<Partial>, recent: Table<Tombstone>)
    requires WellShaped(f) && forall k :: k in seen ==> |seen[k].item.chunks| == seen[k].item.total
    requires Settles(hash, seen, was, f, now, steady, parts, recent) && (KeyOf(f) in seen || |seen| < MAX_PARTIALS)
    ensures Admits(hash, seen, was, f, now, steady, parts, recent)
  {
    hide Goal, Retired, Retained, Remembers, Filed, Within, OldestGone, KeepsParts;
    PlacedKept(seen, f, now, steady, parts);
  }

  lemma {:induction false} OverCapAdmits(hash: HashFn, seen: Table<Partial>, log: set<Fragment>, was: Table<Tombstone>,
                                         f: Fragment, now: U64, steady: bool)
    requires PartsSound(seen, log) && WellShaped(f) && KeyOf(f) in seen && OverCap(seen[KeyOf(f)].item, f)
    ensures forall k :: k in seen ==> |seen[k].item.chunks| == seen[k].item.total
    ensures Admits(hash, seen, was, f, now, steady, seen - {KeyOf(f)}, was) && Delivered(Find(seen, KeyOf(f)), f) == None
  {
    hide Goal, Retired, Retained, Remembers, Filed, Within, OldestGone, KeepsParts, OverCap, PartsSound, Delivered;
    PartLengths(seen, log);
    OverCapGoal(seen, log, f, now);
    NothingRetired(hash, was, KeyOf(f), now, Retained(seen - {KeyOf(f)}));
    AllKept(seen, f, now, steady, seen - {KeyOf(f)});
  }

  lemma {:induction false} RoomAdmits(hash: HashFn, seen: Table<Partial>, log: set<Fragment>, was: Table<Tombstone>, victim: Key,
                                      f: Fragment, now: U64, steady: bool, parts: Table<Partial>, recent: Table<Tombstone>)
    requires PartsSound(seen, log) && WellShaped(f) && KeyOf(f) !in seen && victim in seen && |seen| == MAX_PARTIALS
    requires forall k :: k in seen ==> |seen[k].item.chunks| == seen[k].item.total
    requires steady ==> forall k :: k in seen ==> seen[victim].ms <= seen[k].ms && seen[k].ms <= now
    requires Settles(hash, seen - {victim}, was, f, now, steady, parts, recent)
    ensures Admits(hash, seen, was, f, now, steady, parts, recent)
  {
    hide Goal, Retired, Retained, Remembers, Filed, Within, OldestGone, KeepsParts, PartsSound, Delivered;
    RoomMade(seen, log, victim, f, now);
    RoomUsed(seen, log, victim, f, now, parts, steady);
    RoomForTombstones(hash, was, KeyOf(f), None, now, seen, log, victim, f, recent);
  }

  /** With the last dropped tombstone put back, one of the caps would be exceeded. */
  ghost predicate TombstoneNeeded(all: Table<Tombstone>, left: Table<Tombstone>, held: nat) {
    exists k :: k in all && k !in left && (|left| + 1 > MAX_PARTIALS || held + all[k].retained > MAX_HELD)
  }

  /** With the last dropped partial put back, the byte budget would be exceeded. */
  ghost predicate PartialNeeded(all: Table<Partial>, left: Table<Partial>, held: nat) {
    exists k :: k in all && k !in left && held + all[k].retained > MAX_HELD
  }

  lemma {:induction false} DropStep<V>(all: Table<V>, was: Table<V>, victim: Key, steady: bool)
    requires Within(was, all) && victim in was && (steady ==> OldestGone(all, was))
    requires steady ==> forall k :: k in was ==> was[victim].ms <= was[k].ms
    ensures Within(was - {victim}, all) && (steady ==> OldestGone(all, was - {victim}))
    ensures victim in all && all[victim] == was[victim]
  {
    if steady {
      OldestGoneNext(was, victim);
      OldestGoneTwice(all, was, was - {victim});
    }
  }

  /** Everything that fits both caps is kept. */
  lemma {:induction false} FittingKept(all: Table<Tombstone>, left: Table<Tombstone>, held: nat, bytes: nat)
    requires Within(left, all) && held == bytes + Retained(left)
    requires left == all || TombstoneNeeded(all, left, held)
    requires |all| <= MAX_PARTIALS && bytes + Retained(all) <= MAX_HELD
    ensures left == all
  {
    hide Retained;
    if left != all {
      var k :| k in all && k !in left && (|left| + 1 > MAX_PARTIALS || held + all[k].retained > MAX_HELD);
      RetainedRemove(all, k);
      RetainedWithin(left, all - {k});
      WithinSize(left, all - {k});
    }
  }

  lemma {:induction false} WithinSize<V>(t: Table<V>, u: Table<V>)
    requires Within(t, u)
    ensures |t| <= |u|
    decreases |t|
  {
    if t != map[] {
      var k :| k in t;
      WithinSize(t - {k}, u - {k});
    }
  }

  class DgramReassembler {
    const hash: HashFn
    var parts: Table<Partial>
    var partOrder: seq<Slot>
    var recent: Table<Tombstone>
    var tombOrder: seq<Slot>
    var held: nat
    var lastSweep: U64
    ghost var log: set<Fragment>
    ghost var clock: U64
    ghost var steady: bool

    /** The byte count is exact, every entry can be reached by its queue, every chunk is accounted for. */
    ghost predicate Sound()
      reads this
    {
      && PartsSound(parts, log) && TombsOk(recent)
      && held == Retained(parts) + Retained(recent)
      && InOrder(parts, partOrder, clock, steady) && InOrder(recent, tombOrder, clock, steady)
    }

    /** Between calls, all three bounds hold and no partial is complete. */
    ghost predicate Valid()
      reads this
    {
      Sound() && Waiting(parts) && held <= MAX_HELD && |parts| <= MAX_PARTIALS && |recent| <= MAX_PARTIALS
    }

    constructor (hash: HashFn)
      ensures Valid() && this.hash == hash && parts == map[] && recent == map[] && lastSweep == 0 && log == {} && steady
    {
      this.hash := hash;
      parts, partOrder, recent, tombOrder, held, lastSweep := map[], [], map[], [], 0, 0;
      log, clock, steady := {}, 0, true;
    }

    /** Drop the oldest partial; it fails only when there is none. */
    method EvictOldest() returns (evicted: bool, ghost victim: Key)
      requires Sound()
      modifies `parts, `partOrder, `held
      ensures Sound()
      ensures evicted <==> old(parts) != map[]
      ensures !evicted ==> parts == map[] && held == old(held)
      ensures held <= old(held)
      ensures evicted ==> victim in old(parts) && parts == old(parts) - {victim} && held == old(held) - old(parts)[victim].retained
      ensures evicted && steady ==> forall k :: k in old(parts) ==> old(parts)[victim].ms <= old(parts)[k].ms
    {
      hide PartsSound, TombsOk, InOrder, Retained, Ascending;
      InOrderMeans(parts, partOrder, clock, steady);
      var k, rest := PopOldest(parts, partOrder);
      evicted, victim := k.Some?, if k.Some? then k.value else Key(0, 0);
      if evicted {
        RetainedRemove(parts, victim);
        PartsWithin(parts, log, parts - {victim});
        held := SatSub(held, parts[k.value].retained);
        parts := parts - {k.value};
      }
      InOrderPopped(old(parts), partOrder, clock, steady, parts, rest);
      partOrder := rest;
    }

    /** Drop the oldest tombstone; it fails only when there is none. */
    method EvictOldestTombstone() returns (evicted: bool, ghost victim: Key)
      requires Sound()
      modifies `recent, `tombOrder, `held
      ensures Sound()
      ensures evicted <==> old(recent) != map[]
      ensures !evicted ==> recent == map[] && held == old(held)
      ensures held <= old(held)
      ensures evicted ==> victim in old(recent) && recent == old(recent) - {victim} && held == old(held) - old(recent)[victim].retained
      ensures evicted && steady ==> forall k :: k in old(recent) ==> old(recent)[victim].ms <= old(recent)[k].ms
    {
      hide PartsSound, TombsOk, InOrder, Retained, Ascending;
      InOrderMeans(recent, tombOrder, clock, steady);
      var k, rest := PopOldest(recent, tombOrder);
      evicted, victim := k.Some?, if k.Some? then k.value else Key(0, 0);
      if evicted {
        RetainedRemove(recent, victim);
        TombsWithin(recent, recent - {victim});
        held := SatSub(held, recent[k.value].retained);
        recent := recent - {k.value};
      }
      InOrderPopped(old(recent), tombOrder, clock, steady, recent, rest);
      tombOrder := rest;
    }

    /**
      File a tombstone, then drop old ones past either cap. Only tombstones are ever dropped here, oldest
      first, and none is while there is room.
     */
    method Remember(key: Key, t: Entry<Tombstone>)
      requires Sound() && t.ms == clock && TombOk(t)
      requires held <= MAX_HELD && |recent| <= MAX_PARTIALS
      modifies `recent, `tombOrder, `held
      ensures Sound() && |recent| <= MAX_PARTIALS
      ensures held <= MAX_HELD || recent == map[]
      ensures Within(recent, old(recent)[key := t]) && (steady ==> OldestGone(old(recent)[key := t], recent))
      ensures recent == old(recent)[key := t] || TombstoneNeeded(old(recent)[key := t], recent, held)
    {
      hide PartsSound, TombsOk, InOrder, Within, OldestGone, TombstoneNeeded;
      FileTombstone(key, t);
      DropTombstones();
    }

    method FileTombstone(key: Key, t: Entry<Tombstone>)
      requires Sound() && t.ms == clock && TombOk(t) && held <= MAX_HELD
      modifies `recent, `tombOrder, `held
      ensures Sound() && recent == old(recent)[key := t]
    {
      hide PartsSound, TombsOk, InOrder;
      TombsPut(recent, key, t);
      RetainedPut(recent, key, t);
      InOrderPut(recent, tombOrder, key, t, clock, steady);
      if key in recent {
        RetainedRemove(recent, key);
        held := SatSub(held, recent[key].retained);
      } else {
        assert recent - {key} == recent;
      }
      held := SatAdd(held, t.retained);
      recent := recent[key := t];
      tombOrder := tombOrder + [Slot(key, t.ms)];
    }

    /** Drop tombstones past either cap, oldest first and no more than needed. */
    method DropTombstones()
      requires Sound()
      modifies `recent, `tombOrder, `held
      ensures Sound() && |recent| <= MAX_PARTIALS
      ensures held <= MAX_HELD || recent == map[]
      ensures Within(recent, old(recent)) && (steady ==> OldestGone(old(recent), recent))
      ensures recent == old(recent) || TombstoneNeeded(old(recent), recent, held)
    {
      hide PartsSound, TombsOk, InOrder, Retained, Within, OldestGone, TombstoneNeeded;
      WithinItself(recent);
      NothingGone(recent);
      var more := true;
      while more && |recent| > MAX_PARTIALS
        invariant Sound() && Within(recent, old(recent)) && (steady ==> OldestGone(old(recent), recent))
        invariant more || recent == map[]
        invariant recent == old(recent) || TombstoneNeeded(old(recent), recent, held)
        decreases |recent|, more
      {
        more := DropTombstone(old(recent));
      }
      more := true;
      while more && held > MAX_HELD
        invariant Sound() && |recent| <= MAX_PARTIALS
        invariant Within(recent, old(recent)) && (steady ==> OldestGone(old(recent), recent))
        invariant more || recent == map[]
        invariant recent == old(recent) || TombstoneNeeded(old(recent), recent, held)
        decreases |recent|, more
      {
        more := DropTombstone(old(recent));
      }
    }

    /** Past one of the caps, drop the oldest tombstone of what is left of `all`. */
    method DropTombstone(ghost all: Table<Tombstone>) returns (more: bool)
      requires Sound() && (|recent| > MAX_PARTIALS || held > MAX_HELD)
      requires Within(recent, all) && (steady ==> OldestGone(all, recent))
      modifies `recent, `tombOrder, `held
      ensures Sound() && Within(recent, all) && (steady ==> OldestGone(all, recent))
      ensures more <==> old(recent) != map[]
      ensures !more ==> recent == map[] && held == old(held) && recent == old(recent)
      ensures more ==> |recent| < |old(recent)| && TombstoneNeeded(all, recent, held)
    {
      hide PartsSound, TombsOk, InOrder, Retained, OldestGone;
      ghost var victim;
      more, victim := EvictOldestTombstone();
      if more {
        assert victim in all && all[victim] == old(recent)[victim];
        if steady {
          OldestGoneNext(old(recent), victim);
          OldestGoneTwice(all, old(recent), recent);
        }
      }
    }

    /** Drop the oldest tombstone, or the oldest partial if none is left: past the budget there is always one. */
    method EvictOne(ghost allParts: Table<Partial>, ghost allRecent: Table<Tombstone>)
      requires Sound() && held > MAX_HELD && Within(parts, allParts) && Within(recent, allRecent)
      requires steady ==> OldestGone(allParts, parts) && OldestGone(allRecent, recent)
      modifies `parts, `partOrder, `recent, `tombOrder, `held
      ensures Sound()
      ensures Within(parts, allParts) && Within(recent, allRecent)
      ensures steady ==> OldestGone(allParts, parts) && OldestGone(allRecent, recent)
      ensures if old(recent) != map[] then
                && parts == old(parts) && |recent| < |old(recent)| && TombstoneNeeded(allRecent, recent, held)
              else
                && recent == map[] && |parts| < |old(parts)| && Retained(old(parts)) > MAX_HELD
                && PartialNeeded(allParts, parts, held)
    {
      hide PartsSound, TombsOk, InOrder, Retained, OldestGone, Within, TombstoneNeeded;
      RetainedNone<Tombstone>(map[]);
      RetainedNone<Partial>(map[]);
      var evicted := DropTombstone(allRecent);
      if !evicted {
        ghost var victim;
        evicted, victim := EvictOldest();
        DropStep(allParts, old(parts), victim, steady);
      }
    }

    /** Past the byte budget, drop tombstones, and partials only once no tombstone is left; each time the oldest. */
    method Reclaim()
      requires Sound()
      modifies `parts, `partOrder, `recent, `tombOrder, `held
      ensures Sound() && held <= MAX_HELD
      ensures Within(parts, old(parts)) && Within(recent, old(recent))
      ensures |parts| <= |old(parts)| && |recent| <= |old(recent)|
      ensures steady ==> OldestGone(old(parts), parts) && OldestGone(old(recent), recent)
      ensures Retained(old(parts)) <= MAX_HELD ==> parts == old(parts)
      ensures old(held) <= MAX_HELD ==> parts == old(parts) && recent == old(recent)
      ensures if parts == old(parts) then recent == old(recent) || TombstoneNeeded(old(recent), recent, held)
              else recent == map[] && PartialNeeded(old(parts), parts, held)
    {
      hide PartsSound, TombsOk, InOrder, Retained, Within, OldestGone, TombstoneNeeded, PartialNeeded;
      WithinItself(parts);
      WithinItself(recent);
      NothingGone(parts);
      NothingGone(recent);
      while held > MAX_HELD
        invariant Sound() && Within(parts, old(parts)) && Within(recent, old(recent))
        invariant |parts| <= |old(parts)| && |recent| <= |old(recent)|
        invariant steady ==> OldestGone(old(parts), parts) && OldestGone(old(recent), recent)
        invariant parts == old(parts) || Retained(old(parts)) > MAX_HELD
        invariant old(held) <= MAX_HELD ==> held == old(held) && parts == old(parts) && recent == old(recent)
        invariant if parts == old(parts) then recent == old(recent) || TombstoneNeeded(old(recent), recent, held)
                  else recent == map[] && PartialNeeded(old(parts), parts, held)
        decreases |recent|, |parts|
      {
        EvictOne(old(parts), old(recent));
      }
    }

    ghost method Tick(now: U64)
      requires Sound()
      modifies `clock, `steady
      ensures Sound() && clock == now && steady == (old(steady) && old(clock) <= now)
    {
      hide PartsSound, TombsOk, InOrder;
      InOrderLater(parts, partOrder, clock, steady, now);
      InOrderLater(recent, tombOrder, clock, steady, now);
      steady := steady && clock <= now;
      clock := now;
    }

    /** Drop everything that timed out; both queues come out no longer than twice their table plus 64. */
    method Expire(now: U64)
      requires Valid()
      modifies this
      ensures Valid() && log == old(log) && clock == now && steady == (old(steady) && old(clock) <= now)
      ensures parts == Alive(old(parts), now) && recent == Alive(old(recent), now) && lastSweep == now
      ensures |partOrder| <= 2 * |parts| + 64 && |tombOrder| <= 2 * |recent| + 64
      ensures Within(recent, old(recent)) && |recent| <= |old(recent)| && held <= old(held)
    {
      hide PartsSound, TombsOk, InOrder, Waiting, Alive, Retained, Within;
      Tick(now);
      lastSweep := now;
      ExpireParts(now);
      ExpireTombstones(now);
      PruneOrders();
    }

    method ExpireParts(now: U64)
      requires Valid()
      modifies `parts, `held
      ensures Valid() && parts == Alive(old(parts), now) && held <= old(held)
    {
      hide PartsSound, TombsOk, InOrder, Waiting, Alive, Within, Retained;
      var live, freed := Sweep(parts, now);
      PartsWithin(parts, log, live);
      InOrderWithin(parts, partOrder, clock, steady, live);
      parts, held := live, SatSub(held, freed);
    }

    method ExpireTombstones(now: U64)
      requires Valid()
      modifies `recent, `held
      ensures Valid() && recent == Alive(old(recent), now) && held <= old(held)
      ensures Within(recent, old(recent)) && |recent| <= |old(recent)|
    {
      hide PartsSound, TombsOk, InOrder, Waiting, Alive, Within, Retained;
      var live, freed := Sweep(recent, now);
      TombsWithin(recent, live);
      InOrderWithin(recent, tombOrder, clock, steady, live);
      recent, held := live, SatSub(held, freed);
    }

    method PruneOrders()
      requires Sound()
      modifies `partOrder, `tombOrder
      ensures Sound() && |partOrder| <= 2 * |parts| + 64 && |tombOrder| <= 2 * |recent| + 64
    {
      hide PartsSound, TombsOk, InOrder;
      InOrderMeans(parts, partOrder, clock, steady);
      InOrderMeans(recent, tombOrder, clock, steady);
      var order := Prune(parts, partOrder);
      InOrderPruned(parts, partOrder, clock, steady, order);
      var tombs := Prune(recent, tombOrder);
      InOrderPruned(recent, tombOrder, clock, steady, tombs);
      partOrder, tombOrder := order, tombs;
    }

    method MaybeSweep(now: U64)
      requires Valid() && clock == now
      modifies this
      ensures Valid() && log == old(log) && clock == now && steady == old(steady)
      ensures parts == Swept(old(parts), old(lastSweep), now) && recent == Swept(old(recent), old(lastSweep), now)
      ensures lastSweep == SweepTime(old(lastSweep), now)
      ensures Within(recent, old(recent)) && |recent| <= |old(recent)| && held <= old(held)
    {
      if lastSweep != 0 && SatSub(now, lastSweep) < SWEEP_EVERY_MS {
        return;
      }
      Expire(now);
    }

    /** Take a generation out of the partials and leave its fingerprints behind. */
    method Retire(key: Key, now: U64) returns (p: Partial)
      requires Sound() && clock == now && key in parts && |recent| <= MAX_PARTIALS
      requires held - parts[key].retained <= MAX_HELD
      modifies `parts, `recent, `tombOrder, `held
      ensures Sound() && p == old(parts)[key].item && parts == old(parts) - {key}
      ensures |recent| <= MAX_PARTIALS && held <= MAX_HELD
      ensures Remembers(hash, old(recent), key, Some(p), now, Retained(parts), recent)
      ensures steady ==> OldestGone(Filed(hash, old(recent), key, Some(p), now), recent)
    {
      hide PartsSound, TombsOk, InOrder, Exact, OldestGone, TombstoneNeeded, Retained;
      p := parts[key].item;
      TakeOut(key);
      ghost var all := recent[key := Tomb(hash, p, now)];
      Remember(key, Tomb(hash, p, now));
      assert Retained(parts) <= held;
      if recent == map[] {
        RetainedNone(recent);
      }
      if |all| <= MAX_PARTIALS && Retained(parts) + Retained(all) <= MAX_HELD {
        FittingKept(all, recent, held, Retained(parts));
      }
    }

    method TakeOut(key: Key)
      requires Sound() && key in parts
      modifies `parts, `held
      ensures Sound() && parts == old(parts) - {key} && held == old(held) - old(parts)[key].retained
      ensures TombOk(Tomb(hash, old(parts)[key].item, clock))
    {
      hide PartsSound, TombsOk, InOrder, Retained;
      PartMeans(parts, log, key);
      RetainedRemove(parts, key);
      PartsWithin(parts, log, parts - {key});
      InOrderWithin(parts, partOrder, clock, steady, parts - {key});
      held := SatSub(held, parts[key].retained);
      parts := parts - {key};
    }

    /** Put the fragment's chunk in its slot, opening a partial for a key that has none. */
    method StoreFragment(f: Fragment, now: U64)
      requires Sound() && clock == now && WellShaped(f) && f in log && held <= MAX_HELD
      requires KeyOf(f) in parts ==> !OverCap(parts[KeyOf(f)].item, f) && !Restarts(parts[KeyOf(f)].item, f)
      modifies `parts, `partOrder, `held
      ensures Sound() && KeyOf(f) in parts
      ensures KeyOf(f) in old(parts) ==> parts == old(parts)[KeyOf(f) := Store(old(parts)[KeyOf(f)], f)]
      ensures KeyOf(f) !in old(parts) ==> parts == old(parts)[KeyOf(f) := Store(NewPartial(f, now), f)]
      ensures held - parts[KeyOf(f)].retained <= old(held)
    {
      var key := KeyOf(f);
      if key in parts {
        StoreMore(key, f);
      } else {
        StoreFirst(key, f, now);
      }
    }

    method StoreFirst(key: Key, f: Fragment, now: U64)
      requires Sound() && clock == now && WellShaped(f) && f in log && held <= MAX_HELD
      requires key == KeyOf(f) && key !in parts
      modifies `parts, `partOrder, `held
      ensures Sound() && parts == old(parts)[key := Store(NewPartial(f, now), f)]
      ensures held == old(held) + parts[key].retained
    {
      hide PartsSound, TombsOk, InOrder, Retained, Exact;
      var e := NewPartial(f, now);
      StoreSound(e, f, log, true);
      PartsPut(parts, log, key, Store(e, f));
      InOrderPut(parts, partOrder, key, Store(e, f), clock, steady);
      RetainedPut(parts, key, Store(e, f));
      assert parts - {key} == parts;
      partOrder := partOrder + [Slot(key, now)];
      held := SatAdd(held, Charge(e.item, f));
      parts := parts[key := Store(e, f)];
    }

    method StoreMore(key: Key, f: Fragment)
      requires Sound() && WellShaped(f) && f in log && held <= MAX_HELD
      requires key == KeyOf(f) && key in parts && !OverCap(parts[key].item, f) && !Restarts(parts[key].item, f)
      modifies `parts, `held
      ensures Sound() && parts == old(parts)[key := Store(old(parts)[key], f)]
      ensures held - parts[key].retained == old(held) - old(parts)[key].retained
    {
      hide PartsSound, TombsOk, InOrder, Retained;
      var e := parts[key];
      PartMeans(parts, log, key);
      StoreSound(e, f, log, false);
      PartsPut(parts, log, key, Store(e, f));
      InOrderSame(parts, partOrder, key, Store(e, f), clock, steady);
      RetainedPut(parts, key, Store(e, f));
      RetainedRemove(parts, key);
      if !Taken(e.item, f) {
        held := SatAdd(held, Charge(e.item, f));
        parts := parts[key := Store(e, f)];
      } else {
        assert parts == parts[key := e];
      }
    }

    /** Everything a push does once the fragment has a place to go. */
    method Place(f: Fragment, now: U64) returns (r: Option<Delivery>)
      requires Valid() && clock == now && WellShaped(f) && f in log
      requires if KeyOf(f) in parts then !OverCap(parts[KeyOf(f)].item, f) else |parts| < MAX_PARTIALS
      modifies `parts, `partOrder, `recent, `tombOrder, `held
      ensures Valid()
      ensures r == Delivered(Find(old(parts), KeyOf(f)), f)
      ensures Settles(hash, old(parts), old(recent), f, now, steady, parts, recent)
    {
      hide PartsSound, TombsOk, InOrder, Retained, Waiting, Goal, Delivered, Retired, Next, Store, Exact, OverCap, Restarts,
        NewPartial, Tomb, Within, OldestGone, Remembers, Filed, TombstoneNeeded, PartialNeeded, Settles;
      var key := KeyOf(f);
      ghost var (wasParts, wasRecent) := (parts, recent);
      PlacedInTable(parts, log, f, now);
      PartLengths(parts, log);
      ghost var restarted := key in parts && Restarts(parts[key].item, f);
      if key in parts && Restarts(parts[key].item, f) {
        var _ := Retire(key, now);
      }
      ghost var (base, filed) := (parts, recent);
      StoreFragment(f, now);
      if parts[key].item.got == parts[key].item.total {
        var p := Retire(key, now);
        var payload := Assemble(p.chunks);
        r := Some(Delivery(f.sess, p.address, payload));
        CompletedSettles(hash, wasParts, wasRecent, f, now, steady, p, parts, recent);
      } else {
        ghost var stored := parts;
        Reclaim();
        PartsWithin(stored, log, parts);
        r := None;
        assert restarted ==> base == stored - {key};
        StoredSettles(hash, wasParts, wasRecent, f, now, steady, base, filed, restarted, parts, recent);
      }
    }

    /** Make room for a new partial, or discard one the fragment would push past the ceiling. */
    method Admit(f: Fragment, now: U64) returns (r: Option<Delivery>)
      requires Valid() && clock == now && WellShaped(f) && f in log
      modifies `parts, `partOrder, `recent, `tombOrder, `held
      ensures Valid()
      ensures r == Delivered(Find(old(parts), KeyOf(f)), f)
      ensures Admits(hash, old(parts), old(recent), f, now, steady, parts, recent)
    {
      hide PartsSound, TombsOk, InOrder, Retained, Waiting, Exact, OverCap, Admits, Settles, Delivered, Within;
      var key := KeyOf(f);
      ghost var (wasParts, wasRecent) := (parts, recent);
      PartLengths(parts, log);
      var overCap := key in parts && OverCap(parts[key].item, f);
      if key !in parts && |parts| >= MAX_PARTIALS {
        var evicted;
        ghost var victim;
        NoneNewer(parts, partOrder, clock, steady);
        evicted, victim := EvictOldest();
        if !evicted || |parts| >= MAX_PARTIALS {
          return None;
        }
        LeftOver(wasParts, victim, false);
        PartsWithin(wasParts, log, parts);
        r := Place(f, now);
        RoomMade(wasParts, log, victim, f, now);
        RoomAdmits(hash, wasParts, log, wasRecent, victim, f, now, steady, parts, recent);
        return;
      }
      if overCap {
        OverCapAdmits(hash, wasParts, log, wasRecent, f, now, steady);
        TakeOut(key);
        LeftOver(wasParts, key, false);
        PartsWithin(wasParts, log, parts);
        return None;
      }
      r := Place(f, now);
      PlacedAdmits(hash, wasParts, wasRecent, f, now, steady, parts, recent);
    }

    predicate IsStaleReplay(f: Fragment, now: U64)
      reads this
    {
      KeyOf(f) in recent && Replays(hash, recent[KeyOf(f)], f, now)
    }

    /**
      Feed one fragment. A malformed fragment and a replay of a remembered generation change nothing.
      Any other fragment delivers exactly when it was the last one missing, and then a payload within the
      ceiling whose every piece was pushed under this session, id, total and address. What the caps
      take away is never a partial as long as the partials alone are within both caps, never a tombstone
      as long as everything is, and in either table always the oldest.
     */
    method Push(f: Fragment, now: U64) returns (r: Option<Delivery>)
      requires Valid()
      modifies this
      ensures Valid() && log == old(log) + {f} && clock == now && steady == (old(steady) && old(clock) <= now)
      ensures !WellShaped(f) || old(IsStaleReplay(f, now)) ==>
                r == None && parts == old(parts) && recent == old(recent) && held == old(held) && lastSweep == old(lastSweep)
      ensures WellShaped(f) && !old(IsStaleReplay(f, now)) ==>
                var seen := Swept(old(parts), old(lastSweep), now);
                && r == Delivered(Find(seen, KeyOf(f)), f)
                && lastSweep == SweepTime(old(lastSweep), now)
                && Admits(hash, seen, Swept(old(recent), old(lastSweep), now), f, now, steady, parts, recent)
      ensures r.Some? ==> |r.value.payload| <= MAX_PAYLOAD && FromLog(f, r.value.payload, log)
    {
      hide PartsSound, TombsOk, InOrder, Retained, Waiting, Exact, Goal, Delivered, Retired, Replays, FromLog, Swept;
      Tick(now);
      PartsLogged(parts, log, f);
      log := log + {f};
      if !WellShaped(f) {
        return None;
      }
      if IsStaleReplay(f, now) {
        return None;
      }
      MaybeSweep(now);
      DeliveredIsLogged(parts, log, f);
      r := Admit(f, now);
    }
  }
}
