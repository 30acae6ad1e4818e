/**
  The negative-verdict protocol between worker threads. Each thread owns a memo; the negative
  cache and the epoch are shared. Tasks interleave at single atomic steps: sample the epoch,
  probe (or write) the shared cache, check the epoch twice, publish to the memo of the thread
  the task then runs on; a success removes the shared entry and, if there was one, bumps the
  epoch. The step number is the time; times in a state are history only and steer nothing.
 */
module NegEpoch {
  import opened Bytes
  import opened Net
  import opened Memo
  import opened Key
  import opened Lookup

  datatype Phase =
    | Idle
      /** The epoch was sampled before looking at the shared cache. */
    | Sampled(host: Octets, port: U16, epoch: nat, sampledAt: nat)
      /** A negative verdict is in hand; `checks` of the two epoch checks have passed. */
    | Holds(host: Octets, port: U16, epoch: nat, sampledAt: nat, verdictAt: nat, checks: nat)
      /** The shared entry was removed and the bump is still to come. */
    | Removed(host: Octets, removedAt: nat)

  /** History of one negative memo write. */
  datatype Write = Write(thread: nat, host: Octets, port: U16, tag: nat, fenced: bool, task: nat,
                         sampledAt: nat, verdictAt: nat, writtenAt: nat)

  datatype State = State(
    epoch: nat,
    negatives: set<Octets>,
    memos: seq<Table>,
    tasks: seq<Phase>,
    now: nat,
    writes: seq<Write>)

  datatype Event =
    | Sample(task: nat, host: Octets, port: U16)
    | Probe(task: nat)
    | Refuse(task: nat)
      /** The shared entry turned out to be past its own deadline, or the task was dropped at an await. */
    | Abandon(task: nat)
    | Check(task: nat)
    | Publish(task: nat, thread: nat, expiresMs: U64)
    | PublishUnfenced(task: nat, thread: nat, expiresMs: U64)
    | PutPositive(thread: nat, host: Octets, port: U16, addr: SocketAddr, expiresMs: U64)
    | Remove(task: nat, host: Octets)
    | Bump(task: nat)
    | Evict(hostKey: Octets)
    | Honour(thread: nat, host: Octets, port: U16, nowMs: U64)

  function Init(threads: nat, tasks: nat): (s: State) {
    State(0, {}, seq(threads, _ => EmptyTable()), seq(tasks, _ => Idle), 0, [])
  }

  predicate Enabled(hash: HashFn, s: State, e: Event) {
    match e
    case Sample(t, _, _) => t < |s.tasks| && s.tasks[t].Idle?
    case Probe(t) => t < |s.tasks| && s.tasks[t].Sampled?
    case Refuse(t) => t < |s.tasks| && s.tasks[t].Sampled?
    case Abandon(t) => t < |s.tasks| && (s.tasks[t].Sampled? || s.tasks[t].Holds?)
    case Check(t) => t < |s.tasks| && s.tasks[t].Holds? && s.tasks[t].checks < 2
    case Publish(t, th, _) => t < |s.tasks| && th < |s.memos| && s.tasks[t].Holds? && s.tasks[t].checks == 2
    case PublishUnfenced(t, th, _) => t < |s.tasks| && th < |s.memos| && s.tasks[t].Holds? && s.tasks[t].checks == 0
    case PutPositive(th, _, _, _, _) => th < |s.memos|
    case Remove(t, _) => t < |s.tasks| && s.tasks[t].Idle?
    case Bump(t) => t < |s.tasks| && s.tasks[t].Removed?
    case Evict(_) => true
    case Honour(th, host, port, nowMs) =>
      th < |s.memos| && LookupFast(hash, s.memos[th], host, port, nowMs, s.epoch) == Negative
  }

  /** The memo write of the verdict that task `t` holds, tagged `tag`. */
  function WriteVerdict(hash: HashFn, s: State, t: nat, th: nat, expiresMs: U64, tag: nat, fenced: bool): (r: State)
    requires t < |s.tasks| && th < |s.memos| && s.tasks[t].Holds?
  {
    var p := s.tasks[t];
    var op := Put(DnsKeyOwned(p.host, p.port), None, expiresMs, tag, true);
    s.(memos := s.memos[th := Store(hash, s.memos[th], op)],
    tasks := s.tasks[t := Idle],
    writes := s.writes + [Write(th, p.host, p.port, tag, fenced, t, p.sampledAt, p.verdictAt, s.now)],
    now := s.now + 1)
  }

  function Next(hash: HashFn, s: State, e: Event): (r: State)
    requires Enabled(hash, s, e)
  {
    var s' := s.(now := s.now + 1);
    match e
    case Sample(t, host, port) =>
      s'.(tasks := s.tasks[t := Sampled(host, port, s.epoch, s.now)])
    case Probe(t) =>
      var p := s.tasks[t];
      if DnsHostKeyOwned(p.host) in s.negatives
      then s'.(tasks := s.tasks[t := Holds(p.host, p.port, p.epoch, p.sampledAt, s.now, 0)])
      else s'.(tasks := s.tasks[t := Idle])
    case Refuse(t) =>
      var p := s.tasks[t];
      s'.(negatives := s.negatives + {DnsHostKeyOwned(p.host)},
      tasks := s.tasks[t := Holds(p.host, p.port, p.epoch, p.sampledAt, s.now, 0)])
    case Abandon(t) =>
      s'.(tasks := s.tasks[t := Idle])
    case Check(t) =>
      var p := s.tasks[t];
      s'.(tasks := s.tasks[t := if s.epoch == p.epoch then p.(checks := p.checks + 1) else Idle])
    case Publish(t, th, expiresMs) =>
      WriteVerdict(hash, s, t, th, expiresMs, s.tasks[t].epoch, true)
    case PublishUnfenced(t, th, expiresMs) =>
      WriteVerdict(hash, s, t, th, expiresMs, s.epoch, false)
    case PutPositive(th, host, port, addr, expiresMs) =>
      s'.(memos := s.memos[th := Store(hash, s.memos[th],
                                       Put(DnsKeyOwned(host, port), Some(addr), expiresMs, 0, true))])
    case Remove(t, host) =>
      if DnsHostKeyOwned(host) in s.negatives
      then s'.(negatives := s.negatives - {DnsHostKeyOwned(host)}, tasks := s.tasks[t := Removed(host, s.now)])
      else s'
    case Bump(t) =>
      s'.(epoch := s.epoch + 1, tasks := s.tasks[t := Idle])
    case Evict(hostKey) =>
      s'.(negatives := s.negatives - {hostKey})
    case Honour(_, _, _, _) => s'
  }

  /** A run of the protocol: a number of threads, a number of tasks and the events in order. */
  datatype Run = Run(hash: HashFn, threads: nat, tasks: nat, es: seq<Event>)
  {
    /** The state after the first `i` events, while every event was enabled in turn. */
    function At(i: nat): (r: Option<State>)
      requires i <= |es|
    {
      if i == 0 then Some(Init(threads, tasks))
      else
        var s := At(i - 1);
        if s.Some? && Enabled(hash, s.value, es[i - 1]) then Some(Next(hash, s.value, es[i - 1])) else None
    }

    predicate Valid() {
      At(|es|).Some?
    }

    /** Completed bumps among the first `i` events. */
    function EpochAt(i: nat): (n: nat)
      requires i <= |es|
    {
      if i == 0 then 0 else EpochAt(i - 1) + if es[i - 1].Bump? then 1 else 0
    }

    lemma {:induction false} PrefixValid(i: nat, j: nat)
      requires i <= j <= |es| && At(j).Some?
      ensures At(i).Some?
      decreases j
    {
      if i < j {
        PrefixValid(i, j - 1);
      }
    }

    lemma {:induction false} EpochMonotone(i: nat, j: nat)
      requires i <= j <= |es|
      ensures EpochAt(i) <= EpochAt(j)
      ensures EpochAt(i) == EpochAt(j) <==> forall b :: i <= b < j ==> !es[b].Bump?
      decreases j
    {
      if i < j {
        EpochMonotone(i, j - 1);
      }
    }
  }

  // ---------- the invariant ----------

  /** Event `v` is where task `t` got its negative verdict. */
  predicate IsVerdict(r: Run, t: nat, v: nat) {
    v < |r.es| && (r.es[v] == Probe(t) || r.es[v] == Refuse(t))
  }

  predicate SampledHere(r: Run, t: nat, host: Octets, port: U16, epoch: nat, at: nat) {
    at < |r.es| && r.es[at] == Sample(t, host, port) && epoch == r.EpochAt(at)
  }

  predicate TaskOk(r: Run, i: nat, t: nat, p: Phase) {
    match p
    case Idle => true
    case Sampled(host, port, epoch, sampledAt) =>
      sampledAt < i && SampledHere(r, t, host, port, epoch, sampledAt)
    case Holds(host, port, epoch, sampledAt, verdictAt, _) =>
      sampledAt < verdictAt < i && SampledHere(r, t, host, port, epoch, sampledAt) && IsVerdict(r, t, verdictAt)
    case Removed(host, removedAt) =>
      removedAt < i <= |r.es| && r.es[removedAt] == Remove(t, host)
  }

  // ---------- what a thread's memo was told ----------

  /** What event `j` writes to the memo of thread `th`, if it writes there. */
  function StoreOf(r: Run, th: nat, j: nat): (put: Option<NamePut>)
    requires j < |r.es|
  {
    var s := r.At(j);
    if s.None? || !Enabled(r.hash, s.value, r.es[j]) then None
    else
      match r.es[j]
      case Publish(t, th', expiresMs) =>
        var p := s.value.tasks[t];
        if th' == th then Some(NamePut(p.host, p.port, None, expiresMs, p.epoch, true)) else None
      case PublishUnfenced(t, th', expiresMs) =>
        var p := s.value.tasks[t];
        if th' == th then Some(NamePut(p.host, p.port, None, expiresMs, s.value.epoch, true)) else None
      case PutPositive(th', host, port, addr, expiresMs) =>
        if th' == th then Some(NamePut(host, port, Some(addr), expiresMs, 0, true)) else None
      case _ => None
  }

  /** A write to a thread's memo, and the event that made it. */
  datatype Stored = Stored(put: NamePut, at: nat)

  /** Everything written to the memo of thread `th` before event `i`, in order. */
  function Stores(r: Run, th: nat, i: nat): (ss: seq<Stored>)
    requires i <= |r.es|
  {
    if i == 0 then []
    else
      var put := StoreOf(r, th, i - 1);
      Stores(r, th, i - 1) + if put.Some? then [Stored(put.value, i - 1)] else []
  }

  function PutsOf(ss: seq<Stored>): (puts: seq<NamePut>)
    ensures |puts| == |ss| && forall n :: 0 <= n < |ss| ==> puts[n] == ss[n].put
  {
    seq(|ss|, n requires 0 <= n < |ss| => ss[n].put)
  }

  function Puts(r: Run, th: nat, i: nat): (puts: seq<NamePut>)
    requires i <= |r.es|
  {
    PutsOf(Stores(r, th, i))
  }

  lemma {:induction false} StoresNext(r: Run, th: nat, i: nat)
    requires i < |r.es|
    ensures var put := StoreOf(r, th, i);
            Puts(r, th, i + 1) == Puts(r, th, i) + if put.Some? then [put.value] else []
  {
  }

  lemma {:induction false} RunNext(hash: HashFn, puts: seq<NamePut>, put: NamePut)
    ensures Memo.Run(hash, ToPuts(puts + [put])) == Store(hash, Memo.Run(hash, ToPuts(puts)), put.ToPut())
  {
    var ops := ToPuts(puts + [put]);
    assert ops[..|ops| - 1] == ToPuts(puts);
  }

  /** Each entry of the history is the write of its event. */
  lemma {:induction false} StoredByEvent(r: Run, th: nat, i: nat, n: nat)
    requires i <= |r.es| && n < |Stores(r, th, i)|
    ensures var st := Stores(r, th, i)[n]; st.at < i && StoreOf(r, th, st.at) == Some(st.put)
    decreases i
  {
    hide StoreOf;
    if n < |Stores(r, th, i - 1)| {
      StoredByEvent(r, th, i - 1, n);
    }
  }

  /** And entries are in order of time. */
  lemma {:induction false} StoredInOrder(r: Run, th: nat, i: nat, m: nat, n: nat)
    requires i <= |r.es| && m < n < |Stores(r, th, i)|
    ensures Stores(r, th, i)[m].at < Stores(r, th, i)[n].at
    decreases i
  {
    hide StoreOf;
    if n < |Stores(r, th, i - 1)| {
      StoredInOrder(r, th, i - 1, m, n);
    } else {
      StoredByEvent(r, th, i - 1, m);
    }
  }

  /** And every write is an entry. */
  lemma {:induction false} StoresComplete(r: Run, th: nat, j: nat, i: nat) returns (n: nat)
    requires j < i <= |r.es| && StoreOf(r, th, j).Some?
    ensures n < |Stores(r, th, i)| && Stores(r, th, i)[n] == Stored(StoreOf(r, th, j).value, j)
    decreases i
  {
    hide StoreOf;
    if j < i - 1 {
      n := StoresComplete(r, th, j, i - 1);
    } else {
      n := |Stores(r, th, i - 1)|;
    }
  }

  predicate WriteOk(r: Run, i: nat, w: Write) {
    && w.sampledAt < w.verdictAt < w.writtenAt < i <= |r.es|
    && r.es[w.sampledAt] == Sample(w.task, w.host, w.port)
    && IsVerdict(r, w.task, w.verdictAt)
    && (if w.fenced
        then r.es[w.writtenAt].Publish? && w.tag == r.EpochAt(w.sampledAt)
        else r.es[w.writtenAt].PublishUnfenced? && w.tag == r.EpochAt(w.writtenAt))
  }

  /** The shared entry for `hostKey` was lost to the cache's own eviction in `v < b < i`. */
  predicate EvictedSince(r: Run, hostKey: Octets, v: nat, i: nat)
    requires i <= |r.es|
  {
    exists b :: v < b < i && r.es[b] == Evict(hostKey)
  }

  predicate RemovalInFlight(s: State, hostKey: Octets) {
    exists t :: 0 <= t < |s.tasks| && s.tasks[t].Removed? && DnsHostKeyOwned(s.tasks[t].host) == hostKey
  }

  /** Where a verdict read at `v` stands at time `i`: still shared, being withdrawn, or evicted. */
  predicate Backed(r: Run, s: State, hostKey: Octets, v: nat, i: nat)
    requires i <= |r.es|
  {
    hostKey in s.negatives || RemovalInFlight(s, hostKey) || EvictedSince(r, hostKey, v, i)
  }

  predicate TaskBacked(r: Run, s: State, p: Phase, i: nat)
    requires i <= |r.es|
  {
    p.Holds? && p.epoch == s.epoch ==> Backed(r, s, DnsHostKeyOwned(p.host), p.verdictAt, i)
  }

  predicate WriteBacked(r: Run, s: State, w: Write, i: nat)
    requires i <= |r.es|
  {
    w.fenced && w.tag == s.epoch ==> Backed(r, s, DnsHostKeyOwned(w.host), w.verdictAt, i)
  }

  predicate Inv(r: Run, s: State, i: nat) {
    && i <= |r.es| && s.now == i && s.epoch == r.EpochAt(i)
    && (forall t :: 0 <= t < |s.tasks| ==> TaskOk(r, i, t, s.tasks[t]))
    && (forall j :: 0 <= j < |s.writes| ==> WriteOk(r, i, s.writes[j]))
    && |s.memos| == r.threads && (forall th :: 0 <= th < r.threads ==> s.memos[th] == Memo.Run(r.hash, ToPuts(Puts(r, th, i))))
    && (forall t :: 0 <= t < |s.tasks| ==> TaskBacked(r, s, s.tasks[t], i))
    && (forall j :: 0 <= j < |s.writes| ==> WriteBacked(r, s, s.writes[j], i))
  }

  /** Backing survives a step unless the step bumps the epoch. */
  lemma {:induction false} BackedStep(r: Run, s: State, i: nat, hostKey: Octets, v: nat)
    requires i < |r.es| && Enabled(r.hash, s, r.es[i]) && !r.es[i].Bump?
    requires Backed(r, s, hostKey, v, i) && v < i
    ensures Backed(r, Next(r.hash, s, r.es[i]), hostKey, v, i + 1)
  {
    hide DnsHostKeyOwned;
    var (e, s') := (r.es[i], Next(r.hash, s, r.es[i]));
    if EvictedSince(r, hostKey, v, i) {
      var b :| v < b < i && r.es[b] == Evict(hostKey);
      assert r.es[b] == Evict(hostKey) && b < i + 1;
    } else if RemovalInFlight(s, hostKey) {
      var t :| 0 <= t < |s.tasks| && s.tasks[t].Removed? && DnsHostKeyOwned(s.tasks[t].host) == hostKey;
      assert s'.tasks[t] == s.tasks[t];
    } else if e.Remove? && DnsHostKeyOwned(e.host) == hostKey {
      assert s'.tasks[e.task] == Removed(e.host, s.now);
    } else if e == Evict(hostKey) {
      assert r.es[i] == Evict(hostKey) && v < i < i + 1;
    }
  }

  lemma {:induction false} StepTasks(r: Run, s: State, i: nat)
    requires i < |r.es| && Inv(r, s, i) && Enabled(r.hash, s, r.es[i])
    ensures var s' := Next(r.hash, s, r.es[i]);
            forall t :: 0 <= t < |s'.tasks| ==> TaskOk(r, i + 1, t, s'.tasks[t])
  {
    hide WriteOk, DnsHostKeyOwned, Puts;
    var s' := Next(r.hash, s, r.es[i]);
    forall t | 0 <= t < |s'.tasks|
      ensures TaskOk(r, i + 1, t, s'.tasks[t])
    {
      assert TaskOk(r, i, t, s.tasks[t]);
    }
  }

  lemma {:induction false} StepWrites(r: Run, s: State, i: nat)
    requires i < |r.es| && Inv(r, s, i) && Enabled(r.hash, s, r.es[i])
    ensures var s' := Next(r.hash, s, r.es[i]);
            forall j :: 0 <= j < |s'.writes| ==> WriteOk(r, i + 1, s'.writes[j])
  {
    var (e, s') := (r.es[i], Next(r.hash, s, r.es[i]));
    forall j | 0 <= j < |s'.writes|
      ensures WriteOk(r, i + 1, s'.writes[j])
    {
      if j < |s.writes| {
        assert WriteOk(r, i, s.writes[j]);
      } else {
        assert TaskOk(r, i, e.task, s.tasks[e.task]);
      }
    }
  }

  lemma {:induction false} StepMemo(r: Run, s: State, i: nat, th: nat)
    requires i < |r.es| && r.At(i) == Some(s) && Enabled(r.hash, s, r.es[i])
    ensures var (s', put) := (Next(r.hash, s, r.es[i]), StoreOf(r, th, i));
            && |s'.memos| == |s.memos|
            && (th < |s.memos| ==>
                  s'.memos[th] == if put.Some? then Store(r.hash, s.memos[th], put.value.ToPut()) else s.memos[th])
  {
    hide Memo.Store, LookupFast, DnsKeyOwned, DnsHostKeyOwned;
  }

  /** A step writes to a thread's memo exactly what its history then ends in. */
  lemma {:induction false} StepMemos(r: Run, s: State, i: nat)
    requires i < |r.es| && r.At(i) == Some(s) && Inv(r, s, i) && Enabled(r.hash, s, r.es[i])
    ensures var s' := Next(r.hash, s, r.es[i]);
            && |s'.memos| == r.threads
            && forall th :: 0 <= th < r.threads ==> s'.memos[th] == Memo.Run(r.hash, ToPuts(Puts(r, th, i + 1)))
  {
    hide TaskOk, WriteOk, TaskBacked, WriteBacked, Memo.Store, Memo.Run, ToPuts, Puts, Next, Enabled, StoreOf, IsLastFor;
    var s' := Next(r.hash, s, r.es[i]);
    StepMemo(r, s, i, 0);
    forall th | 0 <= th < r.threads
      ensures s'.memos[th] == Memo.Run(r.hash, ToPuts(Puts(r, th, i + 1)))
    {
      assert s.memos[th] == Memo.Run(r.hash, ToPuts(Puts(r, th, i)));
      StoresNext(r, th, i);
      StepMemo(r, s, i, th);
      var st := StoreOf(r, th, i);
      if st.Some? {
        RunNext(r.hash, Puts(r, th, i), st.value);
      } else {
        assert Puts(r, th, i) + [] == Puts(r, th, i);
      }
    }
  }

  lemma {:induction false} StepTasksBacked(r: Run, s: State, i: nat)
    requires i < |r.es| && Inv(r, s, i) && Enabled(r.hash, s, r.es[i])
    ensures var s' := Next(r.hash, s, r.es[i]);
            forall t :: 0 <= t < |s'.tasks| ==> TaskBacked(r, s', s'.tasks[t], i + 1)
  {
    var (e, s') := (r.es[i], Next(r.hash, s, r.es[i]));
    forall t | 0 <= t < |s'.tasks|
      ensures TaskBacked(r, s', s'.tasks[t], i + 1)
    {
      var (p, p') := (s.tasks[t], s'.tasks[t]);
      assert TaskOk(r, i, t, p) && TaskBacked(r, s, p, i);
      if p'.Holds? && p'.epoch == s'.epoch {
        if p.Holds? {
          if e.Bump? {
            r.EpochMonotone(p.sampledAt, i);
          } else {
            BackedStep(r, s, i, DnsHostKeyOwned(p.host), p.verdictAt);
          }
        } else {
          assert DnsHostKeyOwned(p'.host) in s'.negatives;
        }
      }
    }
  }

  lemma {:induction false} StepWritesBacked(r: Run, s: State, i: nat)
    requires i < |r.es| && Inv(r, s, i) && Enabled(r.hash, s, r.es[i])
    ensures var s' := Next(r.hash, s, r.es[i]);
            forall j :: 0 <= j < |s'.writes| ==> WriteBacked(r, s', s'.writes[j], i + 1)
  {
    var (e, s') := (r.es[i], Next(r.hash, s, r.es[i]));
    forall j | 0 <= j < |s'.writes|
      ensures WriteBacked(r, s', s'.writes[j], i + 1)
    {
      var w := s'.writes[j];
      if w.fenced && w.tag == s'.epoch {
        if j < |s.writes| {
          assert WriteOk(r, i, w) && WriteBacked(r, s, w, i);
          if e.Bump? {
            r.EpochMonotone(w.sampledAt, i);
          } else {
            BackedStep(r, s, i, DnsHostKeyOwned(w.host), w.verdictAt);
          }
        } else {
          assert TaskOk(r, i, e.task, s.tasks[e.task]) && TaskBacked(r, s, s.tasks[e.task], i);
          BackedStep(r, s, i, DnsHostKeyOwned(w.host), w.verdictAt);
        }
      }
    }
  }

  /** Every state of every run satisfies the invariant. */
  lemma {:induction false} InvHolds(r: Run, i: nat)
    requires i <= |r.es| && r.At(i).Some?
    ensures Inv(r, r.At(i).value, i)
    decreases i
  {
    if i > 0 {
      var s := r.At(i - 1).value;
      InvHolds(r, i - 1);
      StepTasks(r, s, i - 1);
      StepWrites(r, s, i - 1);
      StepMemos(r, s, i - 1);
      StepTasksBacked(r, s, i - 1);
      StepWritesBacked(r, s, i - 1);
    }
  }

  // ---------- what an honoured verdict is worth ----------

  lemma {:induction false} WritesStep(hash: HashFn, s: State, e: Event)
    requires Enabled(hash, s, e)
    ensures s.writes <= Next(hash, s, e).writes
  {
    hide Memo.Store, LookupFast, DnsHostKeyOwned, DnsKeyOwned;
  }

  /** The log only grows. */
  lemma {:induction false} WritesGrow(r: Run, i: nat, k: nat)
    requires i <= k <= |r.es| && r.At(k).Some?
    ensures r.At(i).Some? && r.At(i).value.writes <= r.At(k).value.writes
    decreases k
  {
    hide Next, Enabled;
    if i < k {
      WritesGrow(r, i, k - 1);
      WritesStep(r.hash, r.At(k - 1).value, r.es[k - 1]);
    }
  }

  lemma {:induction false} NegativeLogs(r: Run, s: State, th: nat, j: nat) returns (w: Write)
    requires j < |r.es| && r.At(j) == Some(s) && Enabled(r.hash, s, r.es[j]) && s.now == j
    requires StoreOf(r, th, j).Some? && StoreOf(r, th, j).value.addr.None?
    ensures Next(r.hash, s, r.es[j]).writes == s.writes + [w] && w.thread == th && w.writtenAt == j
    ensures var put := StoreOf(r, th, j).value; w.host == put.host && w.port == put.port && w.tag == put.epoch
  {
    hide Memo.Store, LookupFast, DnsKeyOwned, DnsHostKeyOwned;
    w := Next(r.hash, s, r.es[j]).writes[|s.writes|];
  }

  /** A negative entry of a thread's history is a logged write. */
  lemma {:induction false} NegativeIsLogged(r: Run, th: nat, j: nat, k: nat) returns (w: Write)
    requires j < k <= |r.es| && r.At(k).Some? && StoreOf(r, th, j).Some? && StoreOf(r, th, j).value.addr.None?
    ensures w in r.At(k).value.writes && w.thread == th && w.writtenAt == j
    ensures var put := StoreOf(r, th, j).value; w.host == put.host && w.port == put.port && w.tag == put.epoch
  {
    hide Next, Enabled, StoreOf, TaskOk, WriteOk, TaskBacked, WriteBacked, Puts;
    WritesGrow(r, j + 1, k);
    WritesGrow(r, j, k);
    InvHolds(r, j);
    w := NegativeLogs(r, r.At(j).value, th, j);
    assert w in r.At(j + 1).value.writes;
  }

  /** The event stores an address for the name and port on the thread. */
  ghost predicate Replaces(r: Run, b: nat, th: nat, host: Octets, port: U16)
    requires b < |r.es|
  {
    var e := r.es[b];
    e.PutPositive? && e.thread == th && e.port == port && SameName(e.host, host)
  }

  /** What a thread is told last about a name is not replaced before `k`. */
  lemma {:induction false} NotReplaced(r: Run, th: nat, k: nat, host: Octets, port: U16, p: nat, b: nat)
    requires k <= |r.es| && r.At(k).Some? && IsLastFor(Puts(r, th, k), host, port, p)
    requires Stores(r, th, k)[p].at < b < k
    ensures !Replaces(r, b, th, host, port)
  {
    hide StoreOf, SameName;
    if Replaces(r, b, th, host, port) {
      ReplacesIsStored(r, th, b, k);
      var ss := Stores(r, th, k);
      var n := StoresComplete(r, th, b, k);
      if n < p {
        StoredInOrder(r, th, k, n, p);
      }
      SameKeyFits(ss[p].put, ss[n].put, host, port);
    }
  }

  lemma {:induction false} ReplacesIsStored(r: Run, th: nat, b: nat, k: nat)
    requires b < k <= |r.es| && r.At(k).Some? && r.es[b].PutPositive? && r.es[b].thread == th
    ensures var e := r.es[b]; StoreOf(r, th, b) == Some(NamePut(e.host, e.port, Some(e.addr), e.expiresMs, 0, true))
  {
    r.PrefixValid(b + 1, k);
    r.PrefixValid(b, k);
  }

  lemma {:induction false} SameKeyFits(a: NamePut, b: NamePut, host: Octets, port: U16)
    requires a.Names(host, port) && b.Names(host, port) && Accepted(a.ToPut()) && b.fenceHolds
    ensures Accepted(b.ToPut())
  {
    KeyInjective(a.host, a.port, host, port);
    KeyInjective(b.host, b.port, host, port);
  }

  /**
    An honoured negative hit at `k` was written by the same thread for the same port and name, and
    no address was stored for them on that thread since. If the write was fenced, no bump completed
    from the sample before its probe until now; if not, none completed from the write until now.
   */
  lemma {:induction false} HonouredHitProvenance(r: Run, k: nat) returns (w: Write)
    requires r.Valid() && k < |r.es| && r.es[k].Honour?
    ensures WriteOk(r, k, w) && w.thread == r.es[k].thread
    ensures w.port == r.es[k].port && SameName(w.host, r.es[k].host)
    ensures forall b :: w.writtenAt < b < k ==> !Replaces(r, b, w.thread, w.host, w.port)
    ensures w.fenced ==> forall b :: w.sampledAt <= b < k ==> !r.es[b].Bump?
    ensures !w.fenced ==> forall b :: w.writtenAt <= b < k ==> !r.es[b].Bump?
    ensures r.At(k).Some? && WriteBacked(r, r.At(k).value, w, k) && w.tag == r.At(k).value.epoch == r.EpochAt(k)
  {
    hide SameName, StoreOf, WriteBacked, TaskBacked, TaskOk, LookupFast, Puts, Next, Enabled, Replaces;
    r.PrefixValid(k + 1, |r.es|);
    r.PrefixValid(k, |r.es|);
    var (s, e) := (r.At(k).value, r.es[k]);
    InvHolds(r, k);
    HonourMeans(r.hash, s, e);
    assert s.memos[e.thread] == Memo.Run(r.hash, ToPuts(Puts(r, e.thread, k)));
    var p := LookupNeverMisServes(r.hash, Puts(r, e.thread, k), e.host, e.port, e.nowMs, s.epoch);
    w := LastIsLogged(r, e.thread, k, e.host, e.port, p);
    assert WriteOk(r, k, w) && WriteBacked(r, s, w, k);
    r.EpochMonotone(if w.fenced then w.sampledAt else w.writtenAt, k);
    forall b | w.writtenAt < b < k
      ensures !Replaces(r, b, w.thread, w.host, w.port)
    {
      NotReplaced(r, e.thread, k, e.host, e.port, p, b);
      if Replaces(r, b, w.thread, w.host, w.port) {
        ReplacesThrough(r, b, w.thread, w.host, e.host, w.port);
      }
    }
  }

  /**
    When a thread refuses, exactly: what it was told last about the name and port is a refusal tagged
    with the current epoch, has not expired, and at most one other key of its set was stored since.
   */
  lemma {:induction false} RefusedExactly(r: Run, k: nat, th: nat, host: Octets, port: U16, nowMs: U64, p: nat)
    requires k <= |r.es| && r.At(k).Some? && th < r.threads && IsLastFor(Puts(r, th, k), host, port, p)
    ensures |r.At(k).value.memos| == r.threads
    ensures var (s, puts) := (r.At(k).value, Puts(r, th, k));
            LookupFast(r.hash, s.memos[th], host, port, nowMs, s.epoch) == Negative <==>
            && puts[p].addr.None? && puts[p].epoch == r.EpochAt(k) && nowMs < puts[p].expiresMs
            && |KeysSince(r.hash, ToPuts(puts), DnsKeyOwned(host, port), p)| <= 1
  {
    hide LookupFast, Puts, TaskOk, WriteOk, TaskBacked, WriteBacked;
    InvHolds(r, k);
    LookupAnswersLastWrite(r.hash, Puts(r, th, k), host, port, p, nowMs, r.At(k).value.epoch);
  }

  lemma {:induction false} ReplacesThrough(r: Run, b: nat, th: nat, host: Octets, other: Octets, port: U16)
    requires b < |r.es| && Replaces(r, b, th, host, port) && SameName(host, other)
    ensures Replaces(r, b, th, other, port)
  {
    hide SameName, Normal;
    NormalMeansSameName(r.es[b].host, host);
    NormalMeansSameName(host, other);
    NormalMeansSameName(r.es[b].host, other);
  }

  lemma {:induction false} HonourMeans(hash: HashFn, s: State, e: Event)
    requires e.Honour? && Enabled(hash, s, e)
    ensures e.thread < |s.memos| && LookupFast(hash, s.memos[e.thread], e.host, e.port, e.nowMs, s.epoch) == Negative
  {
    hide LookupFast;
  }

  /** A refusal a thread was told last is a logged write of it. */
  lemma {:induction false} LastIsLogged(r: Run, th: nat, k: nat, host: Octets, port: U16, p: nat) returns (w: Write)
    requires k <= |r.es| && r.At(k).Some? && IsLastFor(Puts(r, th, k), host, port, p) && Puts(r, th, k)[p].addr.None?
    ensures w in r.At(k).value.writes && w.thread == th && w.port == port && SameName(w.host, host)
    ensures w.tag == Puts(r, th, k)[p].epoch && w.writtenAt == Stores(r, th, k)[p].at
  {
    hide SameName, StoreOf;
    var ss := Stores(r, th, k);
    StoredByEvent(r, th, k, p);
    w := NegativeIsLogged(r, th, ss[p].at, k);
  }

  /**
    A fenced verdict takes effect: published while its epoch is the current one, under a key that fits,
    it refuses every spelling of its name on that thread from the next step on, until it expires.
   */
  lemma {:induction false} PublishedIsHonoured(r: Run, i: nat, p: Phase, host: Octets, nowMs: U64)
    requires i < |r.es| && r.At(i + 1).Some? && r.es[i].Publish? && r.At(i).value.tasks[r.es[i].task] == p
    requires p.epoch == r.EpochAt(i) && SameName(p.host, host) && |NameBytes(p.host)| <= MAX_HOST
    requires nowMs < r.es[i].expiresMs
    ensures Enabled(r.hash, r.At(i + 1).value, Honour(r.es[i].thread, host, p.port, nowMs))
  {
    var (s, e) := (r.At(i).value, r.es[i]);
    InvHolds(r, i);
    KeyInjective(p.host, p.port, host, p.port);
    KeyFits(p.host, p.port);
    PeekAfterStore(r.hash, s.memos[e.thread], Put(DnsKeyOwned(p.host, p.port), None, e.expiresMs, p.epoch, true));
  }

  /** Task `t` removed the shared entry of `host` at `d` and bumped the epoch at `b` for it. */
  predicate Withdrawn(r: Run, t: nat, host: Octets, d: nat, b: nat) {
    && d < b < |r.es|
    && r.es[d] == Remove(t, host) && r.es[b] == Bump(t)
  }

  /**
    Safety over whole runs: once a success has removed a shared verdict and bumped the epoch, no
    thread honours a verdict that was read before that removal. Every verdict honoured later was
    sampled, and so read, after the bump.
   */
  lemma {:induction false} NoStaleVerdictHonoured(r: Run, k: nat) returns (w: Write)
    requires r.Valid() && k < |r.es| && r.es[k].Honour?
    requires forall j :: 0 <= j < k ==> !r.es[j].PublishUnfenced?
    ensures WriteOk(r, k, w) && w.thread == r.es[k].thread
    ensures w.port == r.es[k].port && SameName(w.host, r.es[k].host)
    ensures forall t: nat, host, d: nat, b: nat :: Withdrawn(r, t, host, d, b) && b < k ==> d < b < w.sampledAt < w.verdictAt
    ensures forall b :: w.writtenAt < b < k ==> !Replaces(r, b, w.thread, w.host, w.port)
  {
    w := HonouredHitProvenance(r, k);
  }

  /**
    Coherence: when a fenced verdict is honoured, its name is still refused by the shared cache,
    or a success has just removed it and is about to bump, or the cache evicted the entry itself
    after the verdict was read.
   */
  lemma {:induction false} HonouredHitIsBacked(r: Run, k: nat) returns (w: Write)
    requires r.Valid() && k < |r.es| && r.es[k].Honour?
    requires forall j :: 0 <= j < k ==> !r.es[j].PublishUnfenced?
    ensures w.port == r.es[k].port && SameName(w.host, r.es[k].host)
    ensures WriteOk(r, k, w) && w.fenced && w.tag == r.EpochAt(k)
    ensures r.At(k).Some? && Backed(r, r.At(k).value, DnsHostKeyOwned(r.es[k].host), w.verdictAt, k)
  {
    w := HonouredHitProvenance(r, k);
    NormalMeansSameName(w.host, r.es[k].host);
  }

  /**
    The unfenced write, at any later time that its tag still matches, when it would be honoured: a
    name was withdrawn since its verdict was read exactly if that was already so when it was written.
   */
  lemma {:induction false} UnfencedStaleExactly(r: Run, k: nat, w: Write, host: Octets)
    requires WriteOk(r, k, w) && !w.fenced && w.tag == r.EpochAt(k)
    ensures (exists t: nat, d: nat, b: nat :: Withdrawn(r, t, host, d, b) && w.verdictAt < d && b < k) <==>
            (exists t: nat, d: nat, b: nat :: Withdrawn(r, t, host, d, b) && w.verdictAt < d && b < w.writtenAt)
  {
    r.EpochMonotone(w.writtenAt, k);
    forall t: nat, d: nat, b: nat | Withdrawn(r, t, host, d, b) && b < k
      ensures b < w.writtenAt
    {
      assert r.es[b].Bump?;
    }
  }

  lemma {:induction false} PeekAfterStore(hash: HashFn, t: Table, op: Put)
    requires Accepted(op)
    ensures Peek(hash, Store(hash, t, op), op.key) == Some(SlotOf(hash, op))
  {
  }

  const STALE_HOST: Octets := [0x61]

  /** A task probes a verdict, a success removes it and bumps, and only then is the verdict written, unfenced. */
  function StaleRun(hash: HashFn): (r: Run) {
    var h := STALE_HOST;
    Run(hash, 1, 3,
        [Sample(0, h, 53), Refuse(0), Sample(2, h, 53), Probe(2), Remove(1, h), Bump(1),
         PublishUnfenced(2, 0, 1000), Honour(0, h, 53, 0)])
  }

  lemma {:induction false} StaleRunProbed(hash: HashFn)
    ensures var (r, h) := (StaleRun(hash), STALE_HOST);
            r.At(4) == Some(State(0, {DnsHostKeyOwned(h)}, [EmptyTable()],
                                  [Holds(h, 53, 0, 0, 1, 0), Idle, Holds(h, 53, 0, 2, 3, 0)], 4, []))
  {
    var (r, h) := (StaleRun(hash), STALE_HOST);
    var s0 := State(0, {}, [EmptyTable()], [Idle, Idle, Idle], 0, []);
    var (a, b, c) := (Sampled(h, 53, 0, 0), Holds(h, 53, 0, 0, 1, 0), Sampled(h, 53, 0, 2));
    assert Init(1, 3).tasks == s0.tasks && Init(1, 3).memos == s0.memos;
    assert r.At(0) == Some(s0);
    assert s0.tasks[0 := a] == [a, Idle, Idle] && [a, Idle, Idle][0 := b] == [b, Idle, Idle];
    assert [b, Idle, Idle][2 := c] == [b, Idle, c];
    assert [b, Idle, c][2 := Holds(h, 53, 0, 2, 3, 0)] == [b, Idle, Holds(h, 53, 0, 2, 3, 0)];
    assert r.At(1) == Some(s0.(tasks := [Sampled(h, 53, 0, 0), Idle, Idle], now := 1));
    var s2 := s0.(negatives := {DnsHostKeyOwned(h)}, tasks := [Holds(h, 53, 0, 0, 1, 0), Idle, Idle], now := 2);
    assert s0.negatives + {DnsHostKeyOwned(h)} == s2.negatives;
    assert r.At(2) == Some(s2);
    assert r.At(3) == Some(s2.(tasks := [Holds(h, 53, 0, 0, 1, 0), Idle, Sampled(h, 53, 0, 2)], now := 3));
  }

  lemma {:induction false} StaleRunWithdrawn(hash: HashFn)
    ensures var (r, h) := (StaleRun(hash), STALE_HOST);
            r.At(6) == Some(State(1, {}, [EmptyTable()],
                                  [Holds(h, 53, 0, 0, 1, 0), Idle, Holds(h, 53, 0, 2, 3, 0)], 6, []))
  {
    var (r, h) := (StaleRun(hash), STALE_HOST);
    StaleRunProbed(hash);
    var (a, b) := (Holds(h, 53, 0, 0, 1, 0), Holds(h, 53, 0, 2, 3, 0));
    assert {DnsHostKeyOwned(h)} - {DnsHostKeyOwned(h)} == {};
    assert [a, Idle, b][1 := Removed(h, 4)] == [a, Removed(h, 4), b];
    assert [a, Removed(h, 4), b][1 := Idle] == [a, Idle, b];
    assert r.At(5) == Some(State(0, {}, [EmptyTable()],
                                 [Holds(h, 53, 0, 0, 1, 0), Removed(h, 4), Holds(h, 53, 0, 2, 3, 0)], 5, []));
  }

  /**
    The unfenced write really can be stale, whatever the hash: in the run above the verdict is
    read before the removal and honoured after the bump.
   */
  lemma {:induction false} UnfencedWriteCanBeStale(hash: HashFn) returns (r: Run, w: Write)
    ensures r.hash == hash && r.Valid() && |r.es| == 8 && r.es[7].Honour?
    ensures WriteOk(r, 7, w) && !w.fenced && w.tag == r.EpochAt(7)
    ensures w.thread == r.es[7].thread && w.host == r.es[7].host && w.port == r.es[7].port
    ensures Withdrawn(r, 1, w.host, 4, 5) && w.verdictAt < 4
  {
    r := StaleRun(hash);
    w := Write(0, STALE_HOST, 53, 1, false, 2, 2, 3, 6);
    StaleRunWithdrawn(hash);
    var s6 := r.At(6).value;
    var op := Put(DnsKeyOwned(STALE_HOST, 53), None, 1000, 1, true);
    KeyFits(STALE_HOST, 53);
    PeekAfterStore(hash, s6.memos[0], op);
    assert r.At(7) == Some(WriteVerdict(hash, s6, 2, 0, 1000, 1, false));
    InvHolds(r, 7);
    assert r.At(7).value.writes[0] == w;
    assert r.EpochAt(6) == 1;
  }

  // ---------- the shared cache ----------

  /** Event `v` files a refusal for the host key. */
  ghost predicate Inserts(r: Run, v: nat, hostKey: Octets)
    requires v < |r.es|
  {
    r.es[v].Refuse? && r.At(v).Some? && Enabled(r.hash, r.At(v).value, r.es[v]) &&
    DnsHostKeyOwned(r.At(v).value.tasks[r.es[v].task].host) == hostKey
  }

  /** Event `b` takes it out: a success for some spelling of the name, or the cache itself. */
  predicate Drops(r: Run, b: nat, hostKey: Octets)
    requires b < |r.es|
  {
    r.es[b] == Evict(hostKey) || (r.es[b].Remove? && DnsHostKeyOwned(r.es[b].host) == hostKey)
  }

  ghost predicate SharedSince(r: Run, v: nat, i: nat, hostKey: Octets)
    requires v < i <= |r.es|
  {
    Inserts(r, v, hostKey) && forall b :: v < b < i ==> !Drops(r, b, hostKey)
  }

  lemma {:induction false} NegativesStep(r: Run, i: nat, hostKey: Octets)
    requires i < |r.es| && r.At(i).Some? && Enabled(r.hash, r.At(i).value, r.es[i])
    ensures hostKey in Next(r.hash, r.At(i).value, r.es[i]).negatives <==>
            Inserts(r, i, hostKey) || (hostKey in r.At(i).value.negatives && !Drops(r, i, hostKey))
  {
    hide Memo.Store, LookupFast, DnsHostKeyOwned, DnsKeyOwned;
  }

  /** The shared cache refuses a name exactly if a refusal was filed for it and not taken out since. */
  lemma {:induction false} SharedExactly(r: Run, i: nat, hostKey: Octets)
    requires i <= |r.es| && r.At(i).Some?
    ensures hostKey in r.At(i).value.negatives <==> exists v :: 0 <= v < i && SharedSince(r, v, i, hostKey)
    decreases i
  {
    hide Next, Enabled, Inserts, Drops;
    if i > 0 {
      SharedExactly(r, i - 1, hostKey);
      NegativesStep(r, i - 1, hostKey);
      if hostKey in r.At(i - 1).value.negatives && !Drops(r, i - 1, hostKey) {
        var v :| 0 <= v < i - 1 && SharedSince(r, v, i - 1, hostKey);
        assert SharedSince(r, v, i, hostKey);
      }
      if Inserts(r, i - 1, hostKey) {
        assert SharedSince(r, i - 1, i, hostKey);
      }
      forall v | 0 <= v < i && SharedSince(r, v, i, hostKey)
        ensures hostKey in r.At(i).value.negatives
      {
        if v < i - 1 {
          assert SharedSince(r, v, i - 1, hostKey) && !Drops(r, i - 1, hostKey);
        }
      }
    }
  }

  lemma {:induction false} RemovedStep(hash: HashFn, s: State, e: Event, t: nat)
    requires Enabled(hash, s, e)
    ensures var s' := Next(hash, s, e);
            && |s'.tasks| == |s.tasks|
            && (t < |s.tasks| && s'.tasks[t].Removed? ==>
                  || s'.tasks[t] == s.tasks[t]
                  || (s'.tasks[t].removedAt == s.now && e == Remove(t, s'.tasks[t].host) &&
                      DnsHostKeyOwned(s'.tasks[t].host) in s.negatives))
  {
    hide Memo.Store, LookupFast, DnsHostKeyOwned, DnsKeyOwned;
  }

  lemma {:induction false} RemovedWasShared(r: Run, i: nat, t: nat)
    requires i <= |r.es| && r.At(i).Some? && t < |r.At(i).value.tasks| && r.At(i).value.tasks[t].Removed?
    ensures var p := r.At(i).value.tasks[t];
            && p.removedAt < i && r.es[p.removedAt] == Remove(t, p.host) && r.At(p.removedAt).Some?
            && DnsHostKeyOwned(p.host) in r.At(p.removedAt).value.negatives
    decreases i
  {
    hide Next, Enabled, TaskOk, WriteOk, TaskBacked, WriteBacked, Puts;
    if i > 0 {
      InvHolds(r, i - 1);
      RemovedStep(r.hash, r.At(i - 1).value, r.es[i - 1], t);
      if r.At(i - 1).value.tasks[t] == r.At(i).value.tasks[t] {
        RemovedWasShared(r, i - 1, t);
      }
    }
  }

  /** The epoch is bumped only for a success that really took a refusal out of the shared cache. */
  lemma {:induction false} BumpedForRemoval(r: Run, b: nat) returns (d: nat, host: Octets)
    requires b < |r.es| && r.At(b + 1).Some? && r.es[b].Bump?
    ensures Withdrawn(r, r.es[b].task, host, d, b)
    ensures r.At(d).Some? && DnsHostKeyOwned(host) in r.At(d).value.negatives
  {
    hide Memo.Store, LookupFast, DnsHostKeyOwned;
    RemovedWasShared(r, b, r.es[b].task);
    d, host := r.At(b).value.tasks[r.es[b].task].removedAt, r.At(b).value.tasks[r.es[b].task].host;
  }

  // ---------- the two checks ----------

  /** Event `q` is a check of task `t` at which the epoch still is the one it sampled. */
  predicate Passed(r: Run, t: nat, epoch: nat, q: nat)
    requires q < |r.es|
  {
    r.es[q] == Check(t) && r.EpochAt(q) == epoch
  }

  lemma {:induction false} HoldsStep(hash: HashFn, s: State, e: Event, t: nat)
    requires Enabled(hash, s, e)
    ensures var s' := Next(hash, s, e);
            && |s'.tasks| == |s.tasks|
            && (t < |s.tasks| && s'.tasks[t].Holds? ==>
                  var (p, p') := (s.tasks[t], s'.tasks[t]);
                  || p' == p
                  || p'.checks == 0
                  || (e == Check(t) && p.Holds? && p.checks < 2 && p' == p.(checks := p.checks + 1) && p.epoch == s.epoch))
  {
    hide Memo.Store, LookupFast, DnsHostKeyOwned, DnsKeyOwned;
  }

  /** The first `c` checks of the task passed, in turn, after the verdict and before event `i`. */
  ghost predicate PassedBefore(r: Run, t: nat, p: Phase, c: nat, i: nat)
    requires p.Holds? && i <= |r.es|
  {
    && (c >= 1 ==> exists q :: p.verdictAt < q < i && Passed(r, t, p.epoch, q))
    && (c >= 2 ==> exists q, u :: p.verdictAt < q < u < i && Passed(r, t, p.epoch, q) && Passed(r, t, p.epoch, u))
  }

  lemma {:induction false} PassedNext(r: Run, t: nat, p: Phase, c: nat, i: nat)
    requires p.Holds? && i < |r.es| && p.verdictAt < i && c < 2 && PassedBefore(r, t, p, c, i) && Passed(r, t, p.epoch, i)
    ensures PassedBefore(r, t, p, c + 1, i + 1)
  {
    hide Passed;
    if c == 1 {
      var q :| p.verdictAt < q < i && Passed(r, t, p.epoch, q);
    }
  }

  lemma {:induction false} PassedStays(r: Run, t: nat, p: Phase, c: nat, i: nat)
    requires p.Holds? && i < |r.es| && PassedBefore(r, t, p, c, i)
    ensures PassedBefore(r, t, p, c, i + 1)
  {
    hide Passed;
    if c >= 1 {
      var q :| p.verdictAt < q < i && Passed(r, t, p.epoch, q);
    }
    if c >= 2 {
      var q, u :| p.verdictAt < q < u < i && Passed(r, t, p.epoch, q) && Passed(r, t, p.epoch, u);
    }
  }

  lemma {:induction false} ChecksPassed(r: Run, i: nat, t: nat)
    requires i <= |r.es| && r.At(i).Some? && t < |r.At(i).value.tasks| && r.At(i).value.tasks[t].Holds?
    ensures var p := r.At(i).value.tasks[t]; p.checks <= 2 && PassedBefore(r, t, p, p.checks, i)
    decreases i
  {
    hide Next, Enabled, WriteOk, TaskBacked, WriteBacked, Puts, PassedBefore;
    if i > 0 {
      var (s, e, p) := (r.At(i - 1).value, r.es[i - 1], r.At(i).value.tasks[t]);
      InvHolds(r, i - 1);
      HoldsStep(r.hash, s, e, t);
      if p.checks == 0 {
        NonePassed(r, t, p, i);
      } else {
        ChecksPassed(r, i - 1, t);
        assert TaskOk(r, i - 1, t, s.tasks[t]);
        if p == s.tasks[t] {
          PassedStays(r, t, p, p.checks, i - 1);
        } else {
          SamePassed(r, t, s.tasks[t], p, p.checks - 1, i - 1);
          PassedNext(r, t, p, p.checks - 1, i - 1);
        }
      }
    }
  }

  lemma {:induction false} NonePassed(r: Run, t: nat, p: Phase, i: nat)
    requires p.Holds? && i <= |r.es|
    ensures PassedBefore(r, t, p, 0, i)
  {
  }

  lemma {:induction false} SamePassed(r: Run, t: nat, p: Phase, q: Phase, c: nat, i: nat)
    requires p.Holds? && q.Holds? && p.verdictAt == q.verdictAt && p.epoch == q.epoch && i <= |r.es|
    requires PassedBefore(r, t, p, c, i)
    ensures PassedBefore(r, t, q, c, i)
  {
  }

  /** Before a fenced verdict is published, the epoch was compared twice after the verdict and had not moved since the sample. */
  lemma {:induction false} PublishedAfterChecks(r: Run, i: nat) returns (q: nat, u: nat)
    requires i < |r.es| && r.At(i + 1).Some? && r.es[i].Publish?
    ensures var p := r.At(i).value.tasks[r.es[i].task];
            && p.sampledAt < p.verdictAt < q < u < i && r.es[q] == r.es[u] == Check(r.es[i].task)
            && forall b :: p.sampledAt <= b < u ==> !r.es[b].Bump?
  {
    hide Memo.Store, LookupFast, DnsHostKeyOwned;
    var (t, s) := (r.es[i].task, r.At(i).value);
    InvHolds(r, i);
    assert TaskOk(r, i, t, s.tasks[t]);
    ChecksPassed(r, i, t);
    q, u :| s.tasks[t].verdictAt < q < u < i && Passed(r, t, s.tasks[t].epoch, q) && Passed(r, t, s.tasks[t].epoch, u);
    r.EpochMonotone(s.tasks[t].sampledAt, u);
  }

  lemma {:induction false} AbandonStep(hash: HashFn, s: State, e: Event, t: nat)
    requires Enabled(hash, s, e)
    ensures var s' := Next(hash, s, e);
            && |s'.tasks| == |s.tasks|
            && (e == Abandon(t) ==> s'.tasks[t] == Idle)
            && (t < |s.tasks| && (s'.tasks[t].Sampled? || s'.tasks[t].Holds?) ==>
                  || s'.tasks[t].sampledAt == s.now
                  || ((s.tasks[t].Sampled? || s.tasks[t].Holds?) && s'.tasks[t].sampledAt == s.tasks[t].sampledAt))
  {
    hide Memo.Store, LookupFast, DnsHostKeyOwned, DnsKeyOwned;
  }

  /** What a task holds was not abandoned since it was sampled. */
  lemma {:induction false} NotAbandoned(r: Run, i: nat, t: nat, b: nat)
    requires i <= |r.es| && r.At(i).Some? && t < |r.At(i).value.tasks|
    requires r.At(i).value.tasks[t].Sampled? || r.At(i).value.tasks[t].Holds?
    requires r.At(i).value.tasks[t].sampledAt < b < i
    ensures r.es[b] != Abandon(t)
    decreases i
  {
    hide Next, Enabled, TaskOk, WriteOk, TaskBacked, WriteBacked, Puts;
    var s := r.At(i - 1).value;
    InvHolds(r, i - 1);
    AbandonStep(r.hash, s, r.es[i - 1], t);
    if b < i - 1 {
      NotAbandoned(r, i - 1, t, b);
    }
  }

  /** A task dropped on the way publishes nothing: what is published was not abandoned since its epoch was sampled. */
  lemma {:induction false} PublishedNotAbandoned(r: Run, i: nat, b: nat)
    requires i < |r.es| && r.At(i + 1).Some? && (r.es[i].Publish? || r.es[i].PublishUnfenced?)
    requires r.At(i).value.tasks[r.es[i].task].sampledAt < b < i
    ensures r.es[b] != Abandon(r.es[i].task)
  {
    hide Memo.Store, LookupFast;
    NotAbandoned(r, i, r.es[i].task, b);
  }
}
