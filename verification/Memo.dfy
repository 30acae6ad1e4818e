/**
  The per-thread DNS memo: a two-way set-associative table of 64 sets keyed by the full
  (host, port) key, with the hash used only as a filter. The hash function is a parameter:
  nothing proved here depends on what it computes.
 */
module Memo {
  import opened Bytes
  import opened Net

  const MEMO_KEY_BYTES: nat := 255 + 1 + 5
  const MEMO_SETS: nat := 64

  type HashFn = Octets -> U64

  datatype Slot = Slot(
    hash: U64,
    empty: bool,
    addr: Option<SocketAddr>,
    len: nat,
    key: Octets,
    expiresMs: U64,
    negEpoch: nat)
  {
    /** Full-key compare; the hash is only a filter. */
    predicate Matches(h: U64, k: Octets) {
      !empty && hash == h && len == |k| && len <= |key| && key[..len] == k
    }
  }

  function Zeros(n: nat): (z: Octets)
    ensures |z| == n
  {
    seq(n, _ => 0)
  }

  const EMPTY: Slot := Slot(0, true, None, 0, Zeros(MEMO_KEY_BYTES), 0, 0)

  /** A slot for `key`, or `None` when it is too long to store inline. */
  function NewSlot(key: Octets, hash: U64, addr: Option<SocketAddr>, expiresMs: U64, negEpoch: nat): (r: Option<Slot>)
    ensures r.Some? <==> |key| <= MEMO_KEY_BYTES
    ensures r.Some? ==> forall h, k :: r.value.Matches(h, k) <==> h == hash && k == key
    ensures r.Some? ==> !r.value.empty && r.value.addr == addr && r.value.expiresMs == expiresMs
    ensures r.Some? ==> r.value.negEpoch == if addr.None? then negEpoch else 0
  {
    if |key| > MEMO_KEY_BYTES then None
    else
      var padded := key + EMPTY.key[|key|..];
      assert padded[..|key|] == key;
      Some(Slot(hash, false, addr, |key|, padded, expiresMs, if addr.None? then negEpoch else 0))
  }

  datatype Ways = Ways(w0: Slot, w1: Slot)

  type Table = t: seq<Ways> | |t| == MEMO_SETS witness EmptyTable()

  function EmptyTable(): (t: seq<Ways>)
    ensures |t| == MEMO_SETS
  {
    seq(MEMO_SETS, _ => Ways(EMPTY, EMPTY))
  }

  function SetOf(hash: HashFn, key: Octets): (i: nat)
    ensures i < MEMO_SETS
  {
    hash(key) % MEMO_SETS
  }

  function StoreWays(w: Ways, slot: Slot, h: U64, key: Octets): (r: Ways) {
    if w.w0.Matches(h, key) then Ways(slot, w.w1)
    else Ways(slot, w.w0)
  }

  /** A request to write the memo; `fenceHolds` is the verdict of the epoch guard, if the write has one. */
  datatype Put = Put(key: Octets, addr: Option<SocketAddr>, expiresMs: U64, epoch: nat, fenceHolds: bool)

  predicate Accepted(op: Put) {
    |op.key| <= MEMO_KEY_BYTES && op.fenceHolds
  }

  function SlotOf(hash: HashFn, op: Put): (s: Slot)
    requires Accepted(op)
  {
    NewSlot(op.key, hash(op.key), op.addr, op.expiresMs, op.epoch).value
  }

  function Store(hash: HashFn, t: Table, op: Put): (r: Table) {
    if Accepted(op) then
      var i := SetOf(hash, op.key);
      t[i := StoreWays(t[i], SlotOf(hash, op), hash(op.key), op.key)]
    else t
  }

  function Peek(hash: HashFn, t: Table, key: Octets): (r: Option<Slot>) {
    var w := t[SetOf(hash, key)];
    if w.w0.Matches(hash(key), key) then Some(w.w0)
    else if w.w1.Matches(hash(key), key) then Some(w.w1)
    else None
  }

  /** The table after a history of puts, oldest first. */
  function Run(hash: HashFn, ops: seq<Put>): (t: Table) {
    if ops == [] then EmptyTable() else Store(hash, Run(hash, ops[..|ops| - 1]), ops[|ops| - 1])
  }

  // ---------- the table in place ----------

  /** One thread's memo. `Contents()` is the table the functions above speak of. */
  class DnsMemo {
    const hash: HashFn
    const slots: array2<Slot>

    ghost predicate Valid() {
      slots.Length0 == MEMO_SETS && slots.Length1 == 2
    }

    ghost function Contents(): (t: Table)
      requires Valid()
      reads slots
    {
      seq(MEMO_SETS, i requires 0 <= i < MEMO_SETS reads slots => Ways(slots[i, 0], slots[i, 1]))
    }

    constructor (hash: HashFn)
      ensures Valid() && fresh(slots) && this.hash == hash
      ensures Contents() == EmptyTable()
    {
      this.hash := hash;
      slots := new Slot[MEMO_SETS, 2]((_, _) => EMPTY);
    }

    /** `epochNow` is what the global epoch reads when the guard is re-checked before publishing. */
    method MemoStore(key: Octets, addr: Option<SocketAddr>, expiresMs: U64, epoch: nat,
                     epochGuard: Option<nat>, epochNow: nat)
      returns (stored: bool)
      requires Valid()
      modifies slots
      ensures var op := Put(key, addr, expiresMs, epoch, epochGuard.Some? ==> epochNow == epochGuard.value);
              stored == Accepted(op) && Contents() == Store(hash, old(Contents()), op)
    {
      var h := hash(key);
      var i := h % MEMO_SETS;
      var slot := NewSlot(key, h, addr, expiresMs, epoch);
      if slot.None? || (epochGuard.Some? && epochNow != epochGuard.value) {
        return false;
      }
      if slots[i, 0].Matches(h, key) {
        slots[i, 0] := slot.value;
      } else if slots[i, 1].Matches(h, key) {
        slots[i, 1] := slots[i, 0];
        slots[i, 0] := slot.value;
      } else {
        slots[i, 1] := slots[i, 0];
        slots[i, 0] := slot.value;
      }
      stored := true;
    }

    /** The unfenced write: a negative verdict is tagged with the epoch read at write time. */
    method MemoPut(key: Octets, addr: Option<SocketAddr>, expiresMs: U64, epochNow: nat)
      requires Valid()
      modifies slots
      ensures Contents() == Store(hash, old(Contents()), Put(key, addr, expiresMs, epochNow, true))
    {
      var epoch := if addr.None? then epochNow else 0;
      var _ := MemoStore(key, addr, expiresMs, epoch, None, epochNow);
    }

    /**
      The fenced write of a negative verdict: refused when either reading of the global epoch
      differs from the one sampled before the probe. A positive write has no fence.
     */
    method MemoPutWithEpoch(key: Octets, addr: Option<SocketAddr>, expiresMs: U64, expected: nat,
                            epochAtEntry: nat, epochAtPublish: nat)
      returns (stored: bool)
      requires Valid()
      modifies slots
      ensures var op := Put(key, addr, expiresMs, expected,
                            addr.None? ==> epochAtEntry == expected && epochAtPublish == expected);
              stored == Accepted(op) && Contents() == Store(hash, old(Contents()), op)
    {
      if addr.Some? {
        stored := MemoStore(key, addr, expiresMs, 0, None, epochAtPublish);
        return;
      }
      if epochAtEntry != expected {
        return false;
      }
      stored := MemoStore(key, addr, expiresMs, expected, Some(expected), epochAtPublish);
    }

    /** Both ways of the key's set, the positive and the negative hit apart. */
    method MemoPeekBoth(key: Octets) returns (positive: Option<Slot>, negative: Option<Slot>)
      requires Valid()
      ensures var hit := Peek(hash, Contents(), key);
              positive == (if hit.Some? && hit.value.addr.Some? then hit else None) &&
              negative == if hit.Some? && hit.value.addr.None? then hit else None
    {
      var h := hash(key);
      var i := h % MEMO_SETS;
      assert Contents()[i] == Ways(slots[i, 0], slots[i, 1]);
      for w := 0 to 2
        invariant w > 0 ==> !slots[i, 0].Matches(h, key)
        invariant w > 1 ==> !slots[i, 1].Matches(h, key)
      {
        if slots[i, w].Matches(h, key) {
          if slots[i, w].addr.None? {
            return None, Some(slots[i, w]);
          } else {
            return Some(slots[i, w]), None;
          }
        }
      }
      return None, None;
    }
  }

  // ---------- what a set holds ----------

  /** `rs` without its entry for `key`. */
  function Without(rs: seq<Put>, key: Octets): (r: seq<Put>) {
    if rs == [] then []
    else if rs[0].key == key then rs[1..]
    else [rs[0]] + Without(rs[1..], key)
  }

  /**
    The reference view of set `i`: the last accepted put of every key stored in it, most
    recently written key first.
   */
  function Recency(hash: HashFn, ops: seq<Put>, i: nat): (rs: seq<Put>) {
    if ops == [] then []
    else
      var (init, op) := (ops[..|ops| - 1], ops[|ops| - 1]);
      if Accepted(op) && SetOf(hash, op.key) == i then [op] + Without(Recency(hash, init, i), op.key)
      else Recency(hash, init, i)
  }

  predicate DistinctKeys(rs: seq<Put>) {
    forall a, b :: 0 <= a < b < |rs| ==> rs[a].key != rs[b].key
  }

  /** `Without` cuts out the one entry for `key`, if there is one. */
  lemma {:induction false} WithoutCuts(rs: seq<Put>, key: Octets, j: nat)
    requires j <= |rs| && forall a :: 0 <= a < j ==> rs[a].key != key
    requires j < |rs| ==> rs[j].key == key
    ensures Without(rs, key) == rs[..j] + rs[if j < |rs| then j + 1 else j..]
  {
    if rs != [] && j > 0 {
      var (rest, end) := (rs[1..], if j < |rs| then j + 1 else j);
      WithoutCuts(rest, key, j - 1);
      assert [rs[0]] + rest[..j - 1] == rs[..j];
      assert rest[end - 1..] == rs[end..];
    }
  }

  lemma {:induction false} FindKey(rs: seq<Put>, key: Octets) returns (j: nat)
    ensures j <= |rs| && forall a :: 0 <= a < j ==> rs[a].key != key
    ensures j < |rs| ==> rs[j].key == key
  {
    j := 0;
    while j < |rs| && rs[j].key != key
      invariant j <= |rs| && forall a :: 0 <= a < j ==> rs[a].key != key
    {
      j := j + 1;
    }
  }

  lemma {:induction false} WithoutDistinct(rs: seq<Put>, op: Put)
    requires DistinctKeys(rs)
    ensures DistinctKeys([op] + Without(rs, op.key))
    ensures forall r :: r in Without(rs, op.key) ==> r in rs
  {
    var j := FindKey(rs, op.key);
    WithoutCuts(rs, op.key, j);
  }

  /** A put that belongs in the reference view of set `i`. */
  predicate Belongs(hash: HashFn, ops: seq<Put>, i: nat, r: Put) {
    r in ops && Accepted(r) && SetOf(hash, r.key) == i
  }

  /** The reference view names each key once and holds only accepted puts of its own set. */
  lemma {:induction false} RecencyDistinct(hash: HashFn, ops: seq<Put>, i: nat)
    ensures DistinctKeys(Recency(hash, ops, i))
    ensures forall r :: r in Recency(hash, ops, i) ==> Belongs(hash, ops, i, r)
  {
    if ops != [] {
      var (init, op) := (ops[..|ops| - 1], ops[|ops| - 1]);
      RecencyDistinct(hash, init, i);
      WithoutDistinct(Recency(hash, init, i), op);
      assert op in ops && forall r :: r in init ==> r in ops;
      assert forall r :: r in Recency(hash, init, i) ==> Belongs(hash, ops, i, r);
    }
  }

  /** The slot of the `n`-th most recent key of a set, empty when there is none. */
  function NthSlot(hash: HashFn, rs: seq<Put>, n: nat): (s: Slot)
    requires AllAccepted(rs)
  {
    if n < |rs| then SlotOf(hash, rs[n]) else EMPTY
  }

  predicate AllAccepted(rs: seq<Put>) {
    forall a :: 0 <= a < |rs| ==> Accepted(rs[a])
  }

  function TopTwo(hash: HashFn, rs: seq<Put>): (w: Ways)
    requires AllAccepted(rs)
  {
    Ways(NthSlot(hash, rs, 0), NthSlot(hash, rs, 1))
  }

  /** A slot of a set answers for `key` exactly when it is the slot of `key`'s own entry. */
  lemma {:induction false} NthSlotMatches(hash: HashFn, rs: seq<Put>, n: nat, key: Octets)
    requires AllAccepted(rs)
    ensures NthSlot(hash, rs, n).Matches(hash(key), key) <==> n < |rs| && rs[n].key == key
  {
  }

  /** The three branches of a store, on the reference view. */
  lemma {:induction false} StoreOnTopTwo(hash: HashFn, rs: seq<Put>, op: Put)
    requires DistinctKeys(rs) && AllAccepted(rs) && Accepted(op)
    ensures AllAccepted([op] + Without(rs, op.key))
    ensures StoreWays(TopTwo(hash, rs), SlotOf(hash, op), hash(op.key), op.key) ==
            TopTwo(hash, [op] + Without(rs, op.key))
  {
    NthSlotMatches(hash, rs, 0, op.key);
    var j := FindKey(rs, op.key);
    WithoutCuts(rs, op.key, j);
  }

  /**
    After any sequence of stores, refused ones included, set `i` holds exactly the last two
    distinct keys written to it, the newer one in way 0.
   */
  lemma {:induction false} SetHoldsLastTwoKeys(hash: HashFn, ops: seq<Put>, i: nat)
    requires i < MEMO_SETS
    ensures AllAccepted(Recency(hash, ops, i))
    ensures Run(hash, ops)[i] == TopTwo(hash, Recency(hash, ops, i))
  {
    if ops != [] {
      var (init, op) := (ops[..|ops| - 1], ops[|ops| - 1]);
      SetHoldsLastTwoKeys(hash, init, i);
      RecencyDistinct(hash, init, i);
      if Accepted(op) && SetOf(hash, op.key) == i {
        StoreOnTopTwo(hash, Recency(hash, init, i), op);
      }
    }
  }

  // ---------- what a probe answers ----------

  /** `p` is the last accepted put of `key`. */
  predicate IsLastPut(ops: seq<Put>, key: Octets, p: nat) {
    && p < |ops| && Accepted(ops[p]) && ops[p].key == key
    && forall j :: p < j < |ops| && Accepted(ops[j]) ==> ops[j].key != key
  }

  /** The keys stored after `p` whose hashes agree with that of `key` modulo the 64 sets. */
  function KeysSince(hash: HashFn, ops: seq<Put>, key: Octets, p: nat): (s: set<Octets>) {
    set j | p < j < |ops| && Accepted(ops[j]) && hash(ops[j].key) % 64 == hash(key) % 64 :: ops[j].key
  }

  function KeysOf(rs: seq<Put>): (s: set<Octets>) {
    set a | 0 <= a < |rs| :: rs[a].key
  }

  lemma {:induction false} KeysOfSize(rs: seq<Put>)
    requires DistinctKeys(rs)
    ensures |KeysOf(rs)| == |rs|
  {
    if rs != [] {
      var init := rs[..|rs| - 1];
      KeysOfSize(init);
      assert KeysOf(rs) == KeysOf(init) + {rs[|rs| - 1].key};
    }
  }

  lemma {:induction false} KeysSinceStep(hash: HashFn, ops: seq<Put>, key: Octets, p: nat)
    requires p < |ops| - 1
    ensures var (init, op) := (ops[..|ops| - 1], ops[|ops| - 1]);
            KeysSince(hash, ops, key, p) == KeysSince(hash, init, key, p) +
            if Accepted(op) && SetOf(hash, op.key) == SetOf(hash, key) then {op.key} else {}
  {
    var init := ops[..|ops| - 1];
    forall k | k in KeysSince(hash, init, key, p)
      ensures k in KeysSince(hash, ops, key, p)
    {
      var j :| p < j < |init| && Accepted(init[j]) && hash(init[j].key) % 64 == hash(key) % 64 && init[j].key == k;
      assert ops[j] == init[j];
    }
  }

  lemma {:induction false} StillLastPut(ops: seq<Put>, key: Octets, p: nat)
    requires IsLastPut(ops, key, p) && p < |ops| - 1
    ensures IsLastPut(ops[..|ops| - 1], key, p)
  {
  }

  /** In the reference view the last put of `key` comes right after the keys stored since. */
  lemma {:induction false} RecencyRank(hash: HashFn, ops: seq<Put>, key: Octets, p: nat) returns (n: nat)
    requires IsLastPut(ops, key, p)
    ensures var rs := Recency(hash, ops, SetOf(hash, key));
            n < |rs| && rs[n] == ops[p] && KeysOf(rs[..n]) == KeysSince(hash, ops, key, p)
    decreases |ops|
  {
    if p == |ops| - 1 {
      return 0;
    }
    var i := SetOf(hash, key);
    var (init, op) := (ops[..|ops| - 1], ops[|ops| - 1]);
    StillLastPut(ops, key, p);
    KeysSinceStep(hash, ops, key, p);
    n := RecencyRank(hash, init, key, p);
    if Accepted(op) && SetOf(hash, op.key) == i {
      var rs := Recency(hash, init, i);
      RecencyDistinct(hash, init, i);
      var j := FindKey(rs, op.key);
      WithoutCuts(rs, op.key, j);
      n := RankAfterStore(rs, op, n, j);
    }
  }

  /** Writing another key moves an entry one place back unless that key was already in front of it. */
  lemma {:induction false} RankAfterStore(rs: seq<Put>, op: Put, n: nat, j: nat) returns (m: nat)
    requires n < |rs| && rs[n].key != op.key
    requires j <= |rs| && (forall a :: 0 <= a < j ==> rs[a].key != op.key) && (j < |rs| ==> rs[j].key == op.key)
    ensures var rs' := [op] + (rs[..j] + rs[if j < |rs| then j + 1 else j..]);
            m < |rs'| && rs'[m] == rs[n] && KeysOf(rs'[..m]) == KeysOf(rs[..n]) + {op.key}
  {
    var rs' := [op] + (rs[..j] + rs[if j < |rs| then j + 1 else j..]);
    if j < n {
      m := n;
      assert rs'[..m] == [op] + (rs[..j] + rs[j + 1..n]);
      assert rs[..n] == rs[..j] + [rs[j]] + rs[j + 1..n];
      KeysOfConcat([op], rs[..j] + rs[j + 1..n]);
      KeysOfConcat(rs[..j], rs[j + 1..n]);
      KeysOfConcat(rs[..j] + [rs[j]], rs[j + 1..n]);
      KeysOfConcat(rs[..j], [rs[j]]);
      KeysOfOne(op);
      KeysOfOne(rs[j]);
    } else {
      m := n + 1;
      assert rs'[..m] == [op] + rs[..n];
      KeysOfConcat([op], rs[..n]);
      KeysOfOne(op);
    }
  }

  lemma {:induction false} KeysOfOne(op: Put)
    ensures KeysOf([op]) == {op.key}
  {
    assert [op][0].key == op.key;
  }

  lemma {:induction false} KeysOfConcat(a: seq<Put>, b: seq<Put>)
    ensures KeysOf(a + b) == KeysOf(a) + KeysOf(b)
  {
    forall k | k in KeysOf(a) + KeysOf(b)
      ensures k in KeysOf(a + b)
    {
      if k in KeysOf(a) {
        var x :| 0 <= x < |a| && a[x].key == k;
        assert (a + b)[x].key == k;
      } else {
        var x :| 0 <= x < |b| && b[x].key == k;
        assert (a + b)[|a| + x].key == k;
      }
    }
  }

  /**
    A probe returns the last value stored for its key exactly when at most one other key was
    stored in the key's set since; otherwise it misses.
   */
  lemma {:induction false} PeekAnswersLastPut(hash: HashFn, ops: seq<Put>, key: Octets, p: nat)
    requires IsLastPut(ops, key, p)
    ensures Peek(hash, Run(hash, ops), key) ==
            if |KeysSince(hash, ops, key, p)| <= 1 then Some(SlotOf(hash, ops[p])) else None
  {
    var i := SetOf(hash, key);
    var rs := Recency(hash, ops, i);
    var n := RecencyRank(hash, ops, key, p);
    RecencyDistinct(hash, ops, i);
    SetHoldsLastTwoKeys(hash, ops, i);
    KeysOfSize(rs[..n]);
    NthSlotMatches(hash, rs, 0, key);
    NthSlotMatches(hash, rs, 1, key);
  }

  /** Keys whose hashes differ modulo 64 do not touch each other, in any table. */
  lemma {:induction false} OtherSetUntouched(hash: HashFn, t: Table, op: Put, key: Octets)
    requires hash(op.key) % 64 != hash(key) % 64
    ensures Peek(hash, Store(hash, t, op), key) == Peek(hash, t, key)
  {
  }

  /** So over any run a key outlives every number of stores that are all for itself or for other sets. */
  lemma {:induction false} OtherSetsNeverEvict(hash: HashFn, ops: seq<Put>, key: Octets, p: nat)
    requires IsLastPut(ops, key, p)
    requires forall j :: p < j < |ops| && Accepted(ops[j]) ==> hash(ops[j].key) % 64 != hash(key) % 64
    ensures Peek(hash, Run(hash, ops), key) == Some(SlotOf(hash, ops[p]))
  {
    assert KeysSince(hash, ops, key, p) == {};
    PeekAnswersLastPut(hash, ops, key, p);
  }

  /** A key that was never stored is never answered. */
  lemma {:induction false} PeekMissesUnknown(hash: HashFn, ops: seq<Put>, key: Octets)
    requires forall op :: op in ops && Accepted(op) ==> op.key != key
    ensures Peek(hash, Run(hash, ops), key) == None
  {
    var i := SetOf(hash, key);
    var rs := Recency(hash, ops, i);
    RecencyDistinct(hash, ops, i);
    SetHoldsLastTwoKeys(hash, ops, i);
    assert forall n :: 0 <= n < |rs| ==> rs[n] in rs && Belongs(hash, ops, i, rs[n]);
    NthSlotMatches(hash, rs, 0, key);
    NthSlotMatches(hash, rs, 1, key);
  }
}
