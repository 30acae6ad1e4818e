/**
  The two keyed tables of the fragment reassembler, and the oldest-first queue kept beside each.

  A queue is maintained lazily: removing an entry leaves its slot behind, and a slot counts only
  while its stamp is still the one the table holds for its key.
 */
module FragTable {
  import opened Bytes

  datatype Key = Key(sess: U32, id: U32)

  /** A table entry: the time it was filed and the bytes it is charged for. */
  datatype Entry<+V> = Entry(ms: U64, retained: nat, item: V)

  type Table<V> = map<Key, Entry<V>>

  datatype Slot = Slot(key: Key, ms: U64)

  const TIMEOUT_MS: nat := 2_000

  /** The bytes all entries of a table are charged for. */
  ghost function Retained<V>(t: Table<V>): (n: nat)
    decreases |t|
  {
    if t == map[] then 0
    else
      var k :| k in t;
      t[k].retained + Retained(t - {k})
  }

  lemma {:induction false} RetainedNone<V>(t: Table<V>)
    requires t == map[]
    ensures Retained(t) == 0
  {
  }

  lemma {:induction false} RetainedRemove<V>(t: Table<V>, k: Key)
    requires k in t
    ensures Retained(t) == t[k].retained + Retained(t - {k})
    decreases |t|
  {
    var j :| j in t && Retained(t) == t[j].retained + Retained(t - {j});
    if j != k {
      RetainedRemove(t - {j}, k);
      RetainedRemove(t - {k}, j);
      assert t - {j} - {k} == t - {k} - {j};
    }
  }

  lemma {:induction false} RetainedPut<V>(t: Table<V>, k: Key, e: Entry<V>)
    ensures Retained(t[k := e]) == Retained(t - {k}) + e.retained
  {
    RetainedRemove(t[k := e], k);
    assert t[k := e] - {k} == t - {k};
  }

  predicate LiveSlot<V>(t: Table<V>, s: Slot) {
    s.key in t && t[s.key].ms == s.ms
  }

  /** Every entry has a slot that still counts. */
  ghost predicate Queued<V>(t: Table<V>, order: seq<Slot>) {
    forall k :: k in t ==> Slot(k, t[k].ms) in order
  }

  ghost predicate Ascending(order: seq<Slot>) {
    forall i, j :: 0 <= i < j < |order| ==> order[i].ms <= order[j].ms
  }

  /** No slot is stamped later than `clock`. */
  ghost predicate Stamped(order: seq<Slot>, clock: U64) {
    forall s :: s in order ==> s.ms <= clock
  }

  lemma {:induction false} Appended(order: seq<Slot>, s: Slot)
    requires Ascending(order) && Stamped(order, s.ms)
    ensures Ascending(order + [s]) && Stamped(order + [s], s.ms)
  {
    forall i | 0 <= i < |order|
      ensures order[i].ms <= s.ms
    {
      assert order[i] in order;
    }
  }

  /**
    Pop slots up to and including the first that counts. An entry comes out of every non-empty table,
    and it is one filed no later than any other as long as stamps never ran backwards.
   */
  method PopOldest<V>(t: Table<V>, order: seq<Slot>) returns (victim: Option<Key>, rest: seq<Slot>)
    requires Queued(t, order)
    ensures victim.None? <==> t == map[]
    ensures victim.Some? ==> victim.value in t && Queued(t - {victim.value}, rest)
    ensures victim.None? ==> rest == []
    ensures exists n :: 0 <= n <= |order| && rest == order[n..]
    ensures Ascending(order) && victim.Some? ==> forall k :: k in t ==> t[victim.value].ms <= t[k].ms
  {
    rest := order;
    ghost var n := 0;
    while rest != []
      invariant 0 <= n <= |order| && rest == order[n..]
      invariant Queued(t, rest)
    {
      var s := rest[0];
      rest := rest[1..];
      n := n + 1;
      if LiveSlot(t, s) {
        return Some(s.key), rest;
      }
    }
    return None, rest;
  }

  predicate Fresh(ms: U64, now: U64) {
    SatSub(now, ms) < TIMEOUT_MS
  }

  function Alive<V>(t: Table<V>, now: U64): (r: Table<V>) {
    map k | k in t && Fresh(t[k].ms, now) :: t[k]
  }

  ghost predicate Within<V>(t: Table<V>, u: Table<V>) {
    forall k :: k in t ==> k in u && t[k] == u[k]
  }

  lemma {:induction false} RetainedWithin<V>(t: Table<V>, u: Table<V>)
    requires Within(t, u)
    ensures Retained(t) <= Retained(u)
    decreases |t|
  {
    if t != map[] {
      var k :| k in t;
      RetainedRemove(t, k);
      RetainedRemove(u, k);
      RetainedWithin(t - {k}, u - {k});
    }
  }

  /** What is gone from `t` is no newer than what is left of it. */
  ghost predicate OldestGone<V>(t: Table<V>, u: Table<V>) {
    forall g, k :: g in t && g !in u && k in u ==> t[g].ms <= u[k].ms
  }

  lemma {:induction false} NothingGone<V>(t: Table<V>)
    ensures OldestGone(t, t)
  {
  }

  lemma {:induction false} OldestGoneTwice<V>(t: Table<V>, u: Table<V>, v: Table<V>)
    requires Within(u, t) && Within(v, u) && OldestGone(t, u) && OldestGone(u, v)
    ensures OldestGone(t, v)
  {
    forall g, k | g in t && g !in v && k in v
      ensures t[g].ms <= v[k].ms
    {
      assert k in u && u[k] == v[k];
      if g in u {
        assert u[g] == t[g];
      }
    }
  }

  lemma {:induction false} OldestGoneNext<V>(t: Table<V>, victim: Key)
    requires victim in t && forall k :: k in t ==> t[victim].ms <= t[k].ms
    ensures OldestGone(t, t - {victim}) && Within(t - {victim}, t)
  {
  }

  lemma {:induction false} WithinItself<V>(t: Table<V>)
    ensures Within(t, t)
  {
  }

  lemma {:induction false} WithinTransitive<V>(t: Table<V>, u: Table<V>, v: Table<V>)
    requires Within(t, u) && Within(u, v)
    ensures Within(t, v)
  {
  }

  /** Drop what timed out, in whatever order the table yields it, adding up what that frees. */
  method Sweep<V>(t: Table<V>, now: U64) returns (live: Table<V>, freed: nat)
    ensures live == Alive(t, now) && Within(live, t) && |live| <= |t|
    ensures Retained(t) == Retained(live) + freed
  {
    live, freed := t, 0;
    var todo := t.Keys;
    while todo != {}
      invariant todo <= t.Keys
      invariant live == map k | k in t && (k in todo || Fresh(t[k].ms, now)) :: t[k]
      invariant |live| <= |t|
      invariant Retained(t) == Retained(live) + freed
      decreases |todo|
    {
      var k :| k in todo;
      if !Fresh(t[k].ms, now) {
        RetainedRemove(live, k);
        live, freed := live - {k}, freed + t[k].retained;
      }
      todo := todo - {k};
    }
  }

  /** The order of a rebuilt queue: by stamp, then by key. */
  predicate NotAfter(a: Slot, b: Slot) {
    a.ms < b.ms || (a.ms == b.ms && (a.key.sess < b.key.sess || (a.key.sess == b.key.sess && a.key.id <= b.key.id)))
  }

  ghost predicate Ordered(order: seq<Slot>) {
    forall i, j :: 0 <= i < j < |order| ==> NotAfter(order[i], order[j])
  }

  function Insert(order: seq<Slot>, s: Slot): (r: seq<Slot>)
    ensures |r| == |order| + 1 && forall x :: x in r <==> x == s || x in order
  {
    if order == [] || NotAfter(s, order[0]) then [s] + order else [order[0]] + Insert(order[1..], s)
  }

  lemma {:induction false} InsertOrdered(order: seq<Slot>, s: Slot)
    requires Ordered(order)
    ensures Ordered(Insert(order, s))
  {
    if order != [] && !NotAfter(s, order[0]) {
      var r := Insert(order[1..], s);
      InsertOrdered(order[1..], s);
      forall j | 0 <= j < |r|
        ensures NotAfter(order[0], r[j])
      {
        assert r[j] in r;
      }
    }
  }

  /** The slots of a table's entries, oldest first. */
  method LiveSlots<V>(t: Table<V>) returns (order: seq<Slot>)
    ensures Ordered(order) && |order| == |t|
    ensures forall s :: s in order <==> LiveSlot(t, s)
  {
    order := [];
    var todo := t.Keys;
    while todo != {}
      invariant todo <= t.Keys && |order| + |todo| == |t|
      invariant Ordered(order)
      invariant forall s :: s in order <==> LiveSlot(t, s) && s.key !in todo
      decreases |todo|
    {
      var k :| k in todo;
      var s := Slot(k, t[k].ms);
      InsertOrdered(order, s);
      order := Insert(order, s);
      todo := todo - {k};
    }
  }

  /**
    Drop dead slots off the front, then rebuild a queue whose dead tail outgrew its table. What is left
    still reaches every entry in the same oldest-first order, and is no longer than twice the table
    plus 64.
   */
  method Prune<V>(t: Table<V>, order: seq<Slot>) returns (out: seq<Slot>)
    requires Queued(t, order)
    ensures Queued(t, out) && |out| <= 2 * |t| + 64
    ensures forall s :: s in out ==> s in order
    ensures Ascending(order) ==> Ascending(out)
  {
    out := order;
    ghost var n := 0;
    while out != [] && !LiveSlot(t, out[0])
      invariant 0 <= n <= |order| && out == order[n..]
      invariant Queued(t, out)
    {
      out := out[1..];
      n := n + 1;
    }
    if |out| > 2 * |t| + 64 {
      out := LiveSlots(t);
    }
  }
}
