/**
  The datagram reader around one reassembler: fragments as they arrive, stamped by the reader's clock,
  and the expiry tick, as a state machine. The class makes exactly runs of this machine; theorems about
  whole runs quantify over it.
 */
module Reader {
  import opened Bytes
  import opened FragTable
  import opened Partials
  import opened Reassembler

  /** A moment: the reading the receiver takes, and the time it really is. */
  datatype Stamp = Stamp(at: U64, time: nat)

  datatype Event = Arrive(f: Fragment, t: Stamp) | Tick(t: Stamp)

  /** What the reassembler remembers between two events. */
  datatype Snapshot = Snapshot(parts: Table<Partial>, recent: Table<Tombstone>, lastSweep: U64)

  const NOTHING: Snapshot := Snapshot(map[], map[], 0)

  predicate TurnedAway(hash: HashFn, h: Snapshot, f: Fragment, now: U64) {
    !WellShaped(f) || (KeyOf(f) in h.recent && Replays(hash, h.recent[KeyOf(f)], f, now))
  }

  /** One fragment: refused, or stored and perhaps delivered, less what the caps force out. */
  ghost predicate Pushes(hash: HashFn, h: Snapshot, f: Fragment, now: U64, g: Snapshot, out: Option<Delivery>) {
    if TurnedAway(hash, h, f, now) then out == None && g == h
    else
      var (k, seen) := (KeyOf(f), Swept(h.parts, h.lastSweep, now));
      && PartsOk(seen) && out == Delivered(Find(seen, k), f) && g.lastSweep == SweepTime(h.lastSweep, now)
      && Within(g.parts, Goal(seen, f, now))
      && ((k in seen || |seen| < MAX_PARTIALS) && Retained(Goal(seen, f, now)) <= MAX_HELD ==> g.parts == Goal(seen, f, now))
      && Remembers(hash, Swept(h.recent, h.lastSweep, now), k, Retired(Find(seen, k), f), now,
                   Retained(Goal(seen, f, now)), g.recent)
  }

  /** One tick: everything timed out goes, unless no partial is held and nothing is done. */
  predicate Expires(h: Snapshot, now: U64, g: Snapshot) {
    || g == Snapshot(Alive(h.parts, now), Alive(h.recent, now), now)
    || (h.parts == map[] && g == h)
  }

  ghost predicate Steps(hash: HashFn, h: Snapshot, e: Event, g: Snapshot, out: Option<Delivery>) {
    match e
    case Tick(t) => out == None && Expires(h, t.at, g)
    case Arrive(f, t) => Pushes(hash, h, f, t.at, g, out)
  }

  /** From `hs[0]` on, `outs[n]` is what event `n` hands on. */
  ghost predicate Continues(hash: HashFn, es: seq<Event>, hs: seq<Snapshot>, outs: seq<Option<Delivery>>) {
    && |hs| == |es| + 1 && |outs| == |es|
    && forall n :: 0 <= n < |es| ==> Steps(hash, hs[n], es[n], hs[n + 1], outs[n])
  }

  /** A whole run, from nothing held. */
  ghost predicate Runs(hash: HashFn, es: seq<Event>, hs: seq<Snapshot>, outs: seq<Option<Delivery>>) {
    Continues(hash, es, hs, outs) && hs[0] == NOTHING
  }

  lemma {:induction false} SomethingHeld(parts: Table<Partial>, log: set<Fragment>)
    requires PartsSound(parts, log)
    ensures parts != map[] ==> Retained(parts) > 0
  {
    if parts != map[] {
      var k :| k in parts;
      RetainedRemove(parts, k);
      assert Exact(parts[k]);
    }
  }

  /** The tick branch of the reader: it is polled only while something is held. */
  method OnTick(r: DgramReassembler, at: U64)
    requires r.Valid()
    modifies r
    ensures r.Valid() && r.parts == Alive(old(r.parts), at)
    ensures Expires(old(Snapshot(r.parts, r.recent, r.lastSweep)), at, Snapshot(r.parts, r.recent, r.lastSweep))
  {
    hide InOrder, TombsOk, Waiting, PartsSound;
    SomethingHeld(r.parts, r.log);
    if r.held > 0 {
      r.Expire(at);
    }
  }

  method Step(r: DgramReassembler, e: Event) returns (out: Option<Delivery>)
    requires r.Valid()
    modifies r
    ensures r.Valid()
    ensures Steps(r.hash, old(Snapshot(r.parts, r.recent, r.lastSweep)), e, Snapshot(r.parts, r.recent, r.lastSweep), out)
  {
    hide Expires, Goal, Delivered, Retained, InOrder, TombsOk, Waiting, FromLog, Replays, Remembers, Retired, Swept;
    match e {
      case Tick(t) =>
        OnTick(r, t.at);
        out := None;
      case Arrive(f, t) =>
        SweptWithin(r.parts, r.log, r.lastSweep, t.at);
        out := r.Push(f, t.at);
    }
  }

  lemma {:induction false} SweptWithin(parts: Table<Partial>, log: set<Fragment>, lastSweep: U64, now: U64)
    requires PartsSound(parts, log)
    ensures Within(Swept(parts, lastSweep, now), parts) && PartsOk(Swept(parts, lastSweep, now))
  {
  }

  /** A reassembler in any state, fed any events at all. */
  method Feed(r: DgramReassembler, es: seq<Event>) returns (outs: seq<Option<Delivery>>, ghost hs: seq<Snapshot>)
    requires r.Valid()
    modifies r
    ensures r.Valid() && Continues(r.hash, es, hs, outs)
    ensures hs[0] == old(Snapshot(r.parts, r.recent, r.lastSweep)) && hs[|es|] == Snapshot(r.parts, r.recent, r.lastSweep)
  {
    hide Steps, DgramReassembler.Valid;
    outs, hs := [], [Snapshot(r.parts, r.recent, r.lastSweep)];
    for n := 0 to |es|
      invariant r.Valid() && |outs| == n && |hs| == n + 1
      invariant hs[0] == old(Snapshot(r.parts, r.recent, r.lastSweep)) && hs[n] == Snapshot(r.parts, r.recent, r.lastSweep)
      invariant forall m :: 0 <= m < n ==> Steps(r.hash, hs[m], es[m], hs[m + 1], outs[m])
    {
      var out := Step(r, es[n]);
      outs, hs := outs + [out], hs + [Snapshot(r.parts, r.recent, r.lastSweep)];
    }
  }

  /** A fresh reassembler fed any events at all makes a run. */
  method Receive(hash: HashFn, es: seq<Event>) returns (outs: seq<Option<Delivery>>)
    ensures |outs| == |es| && exists hs :: Runs(hash, es, hs, outs)
  {
    hide Steps, DgramReassembler.Valid;
    var r := new DgramReassembler(hash);
    ghost var hs;
    outs, hs := Feed(r, es);
    assert Runs(hash, es, hs, outs);
  }
}
