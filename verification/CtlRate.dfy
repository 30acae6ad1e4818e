/** The receiver-side rate window of the control stream: a budget per one-second window. */
module CtlRate {
  import opened Bytes

  datatype Rate = Rate(windowMs: nat, max: nat, count: nat)

  function New(max: nat): (r: Rate) {
    Rate(0, max, max)
  }

  /** A window that has run for a second restarts at the reading and refills the budget. */
  function Refilled(r: Rate, now: nat): (s: Rate) {
    if SatSub(now, r.windowMs) >= 1000 then Rate(now, r.max, r.max) else r
  }

  function After(r: Rate, now: nat): (s: Rate) {
    var f := Refilled(r, now);
    if f.count == 0 then f else f.(count := f.count - 1)
  }

  predicate Admits(r: Rate, now: nat) {
    Refilled(r, now).count != 0
  }

  class Limiter {
    var windowMs: U64
    var maxPerSec: U32
    var count: U32

    ghost function View(): (r: Rate)
      reads this
    {
      Rate(windowMs, maxPerSec, count)
    }

    constructor (max: U32)
      ensures View() == New(max)
    {
      windowMs, maxPerSec, count := 0, max, max;
    }

    method Allow(now: U64) returns (ok: bool)
      modifies this
      ensures ok == Admits(old(View()), now) && View() == After(old(View()), now)
    {
      if SatSub(now, windowMs) >= 1000 {
        windowMs := now;
        count := maxPerSec;
      }
      if count == 0 {
        return false;
      }
      count := count - 1;
      ok := true;
    }
  }

  // ---------- runs ----------

  /** Messages admitted out of those read at times `ts`. */
  function Admitted(r: Rate, ts: seq<nat>): (n: nat)
    decreases |ts|
  {
    if ts == [] then 0
    else (if Admits(r, ts[0]) then 1 else 0) + Admitted(After(r, ts[0]), ts[1..])
  }

  /** Those admitted at a time in `a <= t < a + 1000`. */
  function AdmittedIn(r: Rate, ts: seq<nat>, a: nat): (n: nat)
    decreases |ts|
  {
    if ts == [] then 0
    else (if Admits(r, ts[0]) && a <= ts[0] < a + 1000 then 1 else 0) + AdmittedIn(After(r, ts[0]), ts[1..], a)
  }

  predicate Nondecreasing(ts: seq<nat>) {
    forall i, j :: 0 <= i < j < |ts| ==> ts[i] <= ts[j]
  }

  /** A restart at `now` costs one of the windows that still fit before `largest`. */
  lemma {:induction false} WindowsLeft(max: nat, from: nat, now: nat, largest: nat)
    requires from + 1000 <= now <= largest
    ensures max + max * ((largest - now) / 1000) <= max * ((largest - from) / 1000)
  {
    var (j, k) := ((largest - now) / 1000, (largest - from) / 1000);
    assert j + 1 <= k;
    assert max * (j + 1) <= max * k;
  }

  lemma {:induction false} AdmittedBound(r: Rate, ts: seq<nat>, largest: nat)
    requires r.count <= r.max && r.windowMs <= largest
    requires forall i :: 0 <= i < |ts| ==> ts[i] <= largest
    ensures Admitted(r, ts) <= r.count + r.max * ((largest - r.windowMs) / 1000)
    decreases |ts|
  {
    if ts != [] {
      AdmittedBound(After(r, ts[0]), ts[1..], largest);
      if ts[0] >= r.windowMs + 1000 {
        WindowsLeft(r.max, r.windowMs, ts[0], largest);
      }
    } else {
      assert r.max * ((largest - r.windowMs) / 1000) >= 0;
    }
  }

  /** For any clock readings, in any order: at most `max` messages per second the largest reading has seen, and one more window. */
  lemma {:induction false} TotalBounded(max: nat, ts: seq<nat>, largest: nat)
    requires forall i :: 0 <= i < |ts| ==> ts[i] <= largest
    ensures Admitted(New(max), ts) <= max * (1 + largest / 1000)
  {
    AdmittedBound(New(max), ts, largest);
    assert max * (1 + largest / 1000) == max + max * (largest / 1000);
  }

  /** Once a window has opened inside the span, the span gets no second refill. */
  lemma {:induction false} SpanInsideWindow(r: Rate, ts: seq<nat>, a: nat)
    requires Nondecreasing(ts) && r.windowMs >= a
    requires forall i :: 0 <= i < |ts| ==> ts[i] >= a
    ensures AdmittedIn(r, ts, a) <= r.count
    decreases |ts|
  {
    if ts != [] {
      if ts[0] < a + 1000 {
        SpanInsideWindow(After(r, ts[0]), ts[1..], a);
      } else {
        NoneAfterSpan(r, ts, a);
      }
    }
  }

  lemma {:induction false} NoneAfterSpan(r: Rate, ts: seq<nat>, a: nat)
    requires forall i :: 0 <= i < |ts| ==> ts[i] >= a + 1000
    ensures AdmittedIn(r, ts, a) == 0
    decreases |ts|
  {
    if ts != [] {
      NoneAfterSpan(After(r, ts[0]), ts[1..], a);
    }
  }

  /** A span entered with `count` left sees at most that and one refill. */
  lemma {:induction false} SpanEntered(r: Rate, ts: seq<nat>, a: nat)
    requires Nondecreasing(ts) && r.count <= r.max
    requires forall i :: 0 <= i < |ts| ==> ts[i] >= a
    ensures AdmittedIn(r, ts, a) <= r.count + r.max
    decreases |ts|
  {
    if ts != [] {
      var s := After(r, ts[0]);
      if ts[0] >= a + 1000 {
        NoneAfterSpan(r, ts, a);
      } else if SatSub(ts[0], r.windowMs) >= 1000 {
        SpanInsideWindow(s, ts[1..], a);
      } else {
        SpanEntered(s, ts[1..], a);
      }
    }
  }

  /** While the clock does not run backwards, no half-open span of a second admits more than twice the budget. */
  lemma {:induction false} SpanBounded(r: Rate, ts: seq<nat>, a: nat)
    requires Nondecreasing(ts) && r.count <= r.max
    ensures AdmittedIn(r, ts, a) <= 2 * r.max
    decreases |ts|
  {
    if ts != [] {
      if ts[0] >= a {
        SpanEntered(r, ts, a);
      } else {
        SpanBounded(After(r, ts[0]), ts[1..], a);
      }
    }
  }

  function Repeat(t: nat, k: nat): (ts: seq<nat>)
    ensures |ts| == k && forall i :: 0 <= i < k ==> ts[i] == t
  {
    if k == 0 then [] else [t] + Repeat(t, k - 1)
  }

  /** While a window lasts, its budget admits one message after the other, down to the last. */
  lemma {:induction false} BurstAdmitted(r: Rate, t: nat, k: nat, rest: seq<nat>, a: nat)
    requires k <= r.count && t < r.windowMs + 1000 && a <= t < a + 1000
    ensures AdmittedIn(r, Repeat(t, k) + rest, a) == k + AdmittedIn(r.(count := r.count - k), rest, a)
    decreases k
  {
    if k == 0 {
      assert Repeat(t, k) + rest == rest;
    } else {
      assert (Repeat(t, k) + rest)[1..] == Repeat(t, k - 1) + rest;
      BurstAdmitted(After(r, t), t, k - 1, rest, a);
    }
  }

  /** The messages that show the bound reached: one budget at the end of a window, one in the next. */
  function TwoBursts(max: nat): (ts: seq<nat>) {
    Repeat(999, max) + Repeat(1000, max)
  }

  /** Twice the budget is reached, whatever the budget: the bound on a span is exact. */
  lemma {:induction false} SpanBoundReached(max: nat)
    ensures Nondecreasing(TwoBursts(max)) && AdmittedIn(New(max), TwoBursts(max), 999) == 2 * max
  {
    if max > 0 {
      var r := Rate(0, max, 0);
      BurstAdmitted(New(max), 999, max, Repeat(1000, max), 999);
      var next := After(r, 1000);
      assert Repeat(1000, max)[1..] == Repeat(1000, max - 1);
      BurstAdmitted(next, 1000, max - 1, [], 999);
      assert Repeat(1000, max - 1) + [] == Repeat(1000, max - 1);
    }
  }

  // ---------- honest senders ----------

  /** The state after the first `k` readings. */
  function StateAt(max: nat, ts: seq<nat>, k: nat): (r: Rate)
    requires k <= |ts|
  {
    if k == 0 then New(max) else After(StateAt(max, ts, k - 1), ts[k - 1])
  }

  /** Readings among the first `k` that fall in `a <= t < a + 1000`. */
  function CountIn(ts: seq<nat>, k: nat, a: nat): (n: nat)
    requires k <= |ts|
  {
    if k == 0 then 0 else CountIn(ts, k - 1, a) + if a <= ts[k - 1] < a + 1000 then 1 else 0
  }

  lemma {:induction false} CountInNone(ts: seq<nat>, k: nat, a: nat)
    requires k <= |ts| && forall i :: 0 <= i < k ==> ts[i] < a
    ensures CountIn(ts, k, a) == 0
  {
    if k > 0 {
      CountInNone(ts, k - 1, a);
    }
  }

  lemma {:induction false} CountInMono(ts: seq<nat>, j: nat, k: nat, a: nat)
    requires j <= k <= |ts|
    ensures CountIn(ts, j, a) <= CountIn(ts, k, a)
    decreases k
  {
    if j < k {
      CountInMono(ts, j, k - 1, a);
    }
  }

  /**
    What the counter counts: the budget left is the budget less the readings inside the current
    window, and no reading lies beyond it.
   */
  lemma {:induction false} CounterMeaning(max: nat, ts: seq<nat>, k: nat)
    requires Nondecreasing(ts) && k <= |ts|
    ensures var r := StateAt(max, ts, k);
            && r.max == max && r.count == SatSub(max, CountIn(ts, k, r.windowMs))
            && (forall i :: 0 <= i < k ==> ts[i] < r.windowMs + 1000)
            && (forall i :: k <= i < |ts| ==> r.windowMs <= ts[i])
    decreases k
  {
    if k > 0 {
      CounterMeaning(max, ts, k - 1);
      var (r, now) := (StateAt(max, ts, k - 1), ts[k - 1]);
      if SatSub(now, r.windowMs) >= 1000 {
        CountInNone(ts, k - 1, now);
      }
    }
  }

  /** A sender with at most `max` messages in every half-open span of a second is never refused. */
  lemma {:induction false} HonestSenderNeverRefused(max: nat, ts: seq<nat>, k: nat)
    requires Nondecreasing(ts) && k < |ts|
    requires forall a: nat :: CountIn(ts, |ts|, a) <= max
    ensures Admits(StateAt(max, ts, k), ts[k])
  {
    CounterMeaning(max, ts, k);
    var r := StateAt(max, ts, k);
    var a := if SatSub(ts[k], r.windowMs) >= 1000 then ts[k] else r.windowMs;
    assert CountIn(ts, k + 1, a) == CountIn(ts, k, a) + 1;
    CountInMono(ts, k + 1, |ts|, a);
    assert CountIn(ts, |ts|, a) <= max;
  }
}
