/** Validation of the forward listeners: which pairs of listen addresses can receive the same traffic. */
module Listen {
  import opened Bytes
  import opened Net

  const MAX_FORWARD_LISTENERS: nat := 256
  const MAX_UDP_ASSOCS: nat := 4032
  const MAX_SOCKS_CONNS: nat := 8192
  const DEFAULT_FORWARD_CONNS: nat := MAX_SOCKS_CONNS - MAX_SOCKS_CONNS / 4

  datatype IpAddr = IpV4(o4: Octets4) | IpV6(o16: Octets16)

  const MAPPED: Octets := [0, 0, 0, 0, 0, 0, 0, 0, 0, 0, 0xFF, 0xFF]

  function IpOf(a: SocketAddr): (ip: IpAddr) {
    match a
    case V4(ip, _) => IpV4(ip)
    case V6(ip, _, _, _) => IpV6(ip)
  }

  /** Fold an IPv4-mapped IPv6 address back to IPv4. */
  function UnmapListenIp(ip: IpAddr): (r: IpAddr) {
    match ip
    case IpV6(o) => if o[..12] == MAPPED then IpV4(o[12..]) else ip
    case IpV4(_) => ip
  }

  predicate ListenOverlaps(a: SocketAddr, b: SocketAddr) {
    a.port == b.port &&
    match (UnmapListenIp(IpOf(a)), UnmapListenIp(IpOf(b)))
    case (IpV4(x), IpV4(y)) => x == y || x == ZERO4 || y == ZERO4
    case (IpV6(x), IpV6(y)) => x == y || x == ZERO16 || y == ZERO16
    case (IpV6(x), IpV4(_)) => x == ZERO16
    case (IpV4(_), IpV6(y)) => y == ZERO16
  }

  // ---------- what overlapping means ----------

  /** An IPv4 address written in IPv6: ten zero octets, two of 0xFF, and the address. */
  predicate Mapped(o: Octets16) {
    (forall i :: 0 <= i < 10 ==> o[i] == 0) && o[10] == 0xFF && o[11] == 0xFF
  }

  predicate AllZero(o: Octets) {
    forall i :: 0 <= i < |o| ==> o[i] == 0
  }

  /** A local destination: a concrete address of either family, never a wildcard and never a mapped form. */
  datatype Endpoint = Endpoint(ip: IpAddr, port: U16)
  {
    predicate Concrete() {
      match ip
      case IpV4(o) => !AllZero(o)
      case IpV6(o) => !AllZero(o) && !Mapped(o)
    }
  }

  /**
    The traffic a listener receives. An IPv4 wildcard takes every IPv4 destination; the IPv6
    wildcard is bound dual-stack and takes every destination of both families; a concrete or
    mapped address takes its own destination only.
   */
  predicate Accepts(l: SocketAddr, d: Endpoint) {
    l.port == d.port &&
    match l
    case V4(o, _) => d.ip.IpV4? && (AllZero(o) || d.ip.o4 == o)
    case V6(o, _, _, _) =>
      if Mapped(o) then d.ip.IpV4? && (AllZero(o[12..]) || forall i :: 0 <= i < 4 ==> d.ip.o4[i] == o[12 + i])
      else AllZero(o) || d.ip == IpV6(o)
  }

  /** What the folded address takes is what the listener takes. */
  predicate FoldedAccepts(ip: IpAddr, d: IpAddr) {
    match ip
    case IpV4(o) => d.IpV4? && (o == ZERO4 || d.o4 == o)
    case IpV6(o) => o == ZERO16 || d == IpV6(o)
  }

  lemma {:induction false} MappedIsPrefix(o: Octets16)
    ensures Mapped(o) <==> o[..12] == MAPPED
    ensures AllZero(o) <==> o == ZERO16
    ensures AllZero(o[12..]) <==> o[12..] == ZERO4
  {
    if o[..12] == MAPPED {
      assert forall i :: 0 <= i < 12 ==> o[i] == o[..12][i];
    }
  }

  lemma {:induction false} FoldingKeepsTraffic(l: SocketAddr, d: Endpoint)
    ensures Accepts(l, d) <==> l.port == d.port && FoldedAccepts(UnmapListenIp(IpOf(l)), d.ip)
  {
    match l {
      case V4(o, _) =>
        assert AllZero(o) <==> o == ZERO4;
      case V6(o, _, _, _) =>
        MappedIsPrefix(o);
        if Mapped(o) && d.ip.IpV4? {
          assert d.ip.o4 == o[12..] <==> forall i :: 0 <= i < 4 ==> d.ip.o4[i] == o[12 + i];
        }
    }
  }

  lemma {:induction false} FoldedNotMapped(a: SocketAddr)
    ensures match UnmapListenIp(IpOf(a))
            case IpV4(o) => o == ZERO4 || Endpoint(IpV4(o), a.port).Concrete()
            case IpV6(o) => o == ZERO16 || Endpoint(IpV6(o), a.port).Concrete()
  {
    match UnmapListenIp(IpOf(a)) {
      case IpV4(o) =>
        assert AllZero(o) <==> o == ZERO4;
      case IpV6(o) =>
        MappedIsPrefix(o);
    }
  }

  ghost predicate ShareTraffic(a: SocketAddr, b: SocketAddr) {
    exists d: Endpoint :: d.Concrete() && Accepts(a, d) && Accepts(b, d)
  }

  /** A destination only this listener is sure to accept: its own address, or any IPv4 one for a wildcard. */
  function Witness(ip: IpAddr): (r: IpAddr) {
    match ip
    case IpV4(o) => if o == ZERO4 then IpV4([127, 0, 0, 1]) else ip
    case IpV6(o) => if o == ZERO16 then IpV4([127, 0, 0, 1]) else ip
  }

  predicate Wildcard(ip: IpAddr) {
    ip == IpV4(ZERO4) || ip == IpV6(ZERO16)
  }

  lemma {:induction false} LoopbackConcrete(port: U16)
    ensures Endpoint(IpV4([127, 0, 0, 1]), port).Concrete()
  {
    assert [127, 0, 0, 1][0] == 127;
  }

  /** The pairwise test is exact: two listeners overlap iff some destination would reach both. */
  lemma {:induction false} OverlapIsSharedTraffic(a: SocketAddr, b: SocketAddr)
    ensures ListenOverlaps(a, b) <==> ShareTraffic(a, b)
  {
    hide Accepts, Endpoint.Concrete;
    forall d: Endpoint
      ensures Accepts(a, d) <==> a.port == d.port && FoldedAccepts(UnmapListenIp(IpOf(a)), d.ip)
      ensures Accepts(b, d) <==> b.port == d.port && FoldedAccepts(UnmapListenIp(IpOf(b)), d.ip)
    {
      FoldingKeepsTraffic(a, d);
      FoldingKeepsTraffic(b, d);
    }
    if ListenOverlaps(a, b) {
      FoldedNotMapped(a);
      FoldedNotMapped(b);
      LoopbackConcrete(a.port);
      var (x, y) := (UnmapListenIp(IpOf(a)), UnmapListenIp(IpOf(b)));
      var d := Endpoint(Witness(if Wildcard(x) then y else x), a.port);
      assert d.Concrete() && Accepts(a, d) && Accepts(b, d);
    }
  }

  // ---------- budgets ----------

  function Clamp(n: nat, lo: nat, hi: nat): (r: nat)
    requires lo <= hi
    ensures lo <= r <= hi
    ensures lo <= n <= hi ==> r == n
    ensures n < lo ==> r == lo
    ensures n > hi ==> r == hi
  {
    if n < lo then lo else if n > hi then hi else n
  }

  /** Everything but a quarter, the quarter and the result both at least one. */
  function DefaultForwardShare(cap: nat): (r: nat)
    ensures r >= 1
    ensures cap >= 2 ==> r < cap && cap - r >= cap / 4
    ensures cap >= 2 ==> 4 * r <= 3 * cap + 3
    ensures cap >= 4 ==> 3 * cap <= 4 * r
  {
    var quarter := if cap / 4 < 1 then 1 else cap / 4;
    var share := SatSub(cap, quarter);
    if share < 1 then 1 else share
  }

  function UdpAssocCount(maxUdpAssocs: Option<nat>): (n: nat)
    ensures 1 <= n <= MAX_UDP_ASSOCS && (maxUdpAssocs.None? ==> n == MAX_UDP_ASSOCS)
    ensures forall m :: maxUdpAssocs == Some(m) && 1 <= m <= MAX_UDP_ASSOCS ==> n == m
  {
    Clamp(if maxUdpAssocs.Some? then maxUdpAssocs.value else MAX_UDP_ASSOCS, 1, MAX_UDP_ASSOCS)
  }

  function ForwardSessionBudget(maxForwardSessions: Option<nat>, maxUdpAssocs: Option<nat>): (n: nat)
    ensures 1 <= n <= MAX_UDP_ASSOCS
    ensures forall m :: maxForwardSessions == Some(m) && 1 <= m <= MAX_UDP_ASSOCS ==> n == m
    ensures maxForwardSessions.None? && UdpAssocCount(maxUdpAssocs) >= 2 ==> n < UdpAssocCount(maxUdpAssocs)
  {
    Clamp(if maxForwardSessions.Some? then maxForwardSessions.value
          else DefaultForwardShare(UdpAssocCount(maxUdpAssocs)), 1, MAX_UDP_ASSOCS)
  }

  function ForwardConnBudget(maxForwardConns: Option<nat>): (n: nat)
    ensures 1 <= n <= MAX_SOCKS_CONNS
    ensures forall m :: maxForwardConns == Some(m) && 1 <= m <= MAX_SOCKS_CONNS ==> n == m
    ensures maxForwardConns.None? ==> n < MAX_SOCKS_CONNS
  {
    Clamp(if maxForwardConns.Some? then maxForwardConns.value else DEFAULT_FORWARD_CONNS, 1, MAX_SOCKS_CONNS)
  }

  // ---------- the forward tables ----------

  /** One table entry after text parsing: `None` where the text was not an address, or not a target. */
  datatype Entry<T> = Entry(listen: Option<SocketAddr>, target: Option<T>, cap: Option<nat>)

  datatype ForwardSpec<T> = ForwardSpec(listen: SocketAddr, cap: nat, target: T)

  datatype ConfError =
    | TooMany(n: nat)
    | BadListen(i: nat)
    | OverlapsSocks(i: nat)
    | Overlaps(i: nat, j: nat)
    | ZeroCap(i: nat)
    | BadTarget(i: nat)

  predicate ListenOk<T>(e: Entry<T>) {
    e.listen.Some? && e.listen.value.port != 0
  }

  /** No earlier entry, of the first `n`, overlaps `a`. */
  predicate ClearOf<T>(es: seq<Entry<T>>, n: nat, a: SocketAddr)
    requires n <= |es|
  {
    forall j :: 0 <= j < n ==> es[j].listen.Some? ==> !ListenOverlaps(a, es[j].listen.value)
  }

  /** Entry `i` passes every check of the loop. */
  predicate EntryOk<T>(es: seq<Entry<T>>, socks: Option<SocketAddr>, i: nat)
    requires i < |es|
  {
    && ListenOk(es[i])
    && (socks.Some? ==> !ListenOverlaps(es[i].listen.value, socks.value))
    && ClearOf(es, i, es[i].listen.value)
    && es[i].cap != Some(0)
    && es[i].target.Some?
  }

  /** `err` is what entry `i` is refused for: the first check that fails, and the first overlap. */
  predicate RefusedFor<T>(es: seq<Entry<T>>, socks: Option<SocketAddr>, i: nat, err: ConfError)
    requires i < |es|
  {
    match err
    case TooMany(_) => false
    case BadListen(k) => k == i && !ListenOk(es[i])
    case OverlapsSocks(k) => k == i && ListenOk(es[i]) && socks.Some? && ListenOverlaps(es[i].listen.value, socks.value)
    case Overlaps(k, j) =>
      && k == i && j < i && ListenOk(es[i])
      && (socks.Some? ==> !ListenOverlaps(es[i].listen.value, socks.value))
      && es[j].listen.Some? && ListenOverlaps(es[i].listen.value, es[j].listen.value)
      && ClearOf(es, j, es[i].listen.value)
    case ZeroCap(k) =>
      && k == i && ListenOk(es[i])
      && (socks.Some? ==> !ListenOverlaps(es[i].listen.value, socks.value))
      && ClearOf(es, i, es[i].listen.value) && es[i].cap == Some(0)
    case BadTarget(k) =>
      && k == i && ListenOk(es[i])
      && (socks.Some? ==> !ListenOverlaps(es[i].listen.value, socks.value))
      && ClearOf(es, i, es[i].listen.value) && es[i].cap != Some(0) && es[i].target.None?
  }

  function Lowered<T>(e: Entry<T>, maxCap: nat, budget: nat): (s: ForwardSpec<T>)
    requires e.listen.Some? && e.target.Some? && 1 <= maxCap && 1 <= budget <= maxCap
    ensures s.listen == e.listen.value && s.target == e.target.value && 1 <= s.cap <= maxCap
    ensures e.cap.None? ==> s.cap == budget
    ensures forall n :: e.cap == Some(n) && 1 <= n <= maxCap ==> s.cap == n
    ensures forall n :: e.cap == Some(n) && n > maxCap ==> s.cap == maxCap
  {
    ForwardSpec(e.listen.value, if e.cap.Some? then Clamp(e.cap.value, 1, maxCap) else budget, e.target.value)
  }

  /** The position in `seen` of the first listener that overlaps `a`. */
  method FindOverlap(seen: seq<SocketAddr>, a: SocketAddr) returns (j: Option<nat>)
    ensures j.None? ==> forall k :: 0 <= k < |seen| ==> !ListenOverlaps(a, seen[k])
    ensures j.Some? ==> j.value < |seen| && ListenOverlaps(a, seen[j.value])
    ensures j.Some? ==> forall k :: 0 <= k < j.value ==> !ListenOverlaps(a, seen[k])
  {
    var k: nat := 0;
    while k < |seen|
      invariant k <= |seen| && forall m :: 0 <= m < k ==> !ListenOverlaps(a, seen[m])
    {
      if ListenOverlaps(a, seen[k]) {
        return Some(k);
      }
      k := k + 1;
    }
    j := None;
  }

  /** The checks of one entry, in the order the loop makes them. */
  method CheckEntry<T>(es: seq<Entry<T>>, socks: Option<SocketAddr>, i: nat, seen: seq<SocketAddr>)
    returns (err: Option<ConfError>)
    requires i < |es| && |seen| == i && forall k :: 0 <= k < i ==> es[k].listen == Some(seen[k])
    ensures err.None? <==> EntryOk(es, socks, i)
    ensures err.Some? ==> RefusedFor(es, socks, i, err.value)
  {
    var e := es[i];
    if e.listen.None? || e.listen.value.port == 0 {
      return Some(BadListen(i));
    }
    var listen := e.listen.value;
    if socks.Some? && ListenOverlaps(listen, socks.value) {
      return Some(OverlapsSocks(i));
    }
    var j := FindOverlap(seen, listen);
    if j.Some? {
      return Some(Overlaps(i, j.value));
    }
    if e.cap == Some(0) {
      return Some(ZeroCap(i));
    }
    if e.target.None? {
      return Some(BadTarget(i));
    }
    err := None;
  }

  /**
    Validate and lower one forward table. For `tcp_forwards`, `socks` is the parsed SOCKS listener,
    `maxCap` is `MAX_SOCKS_CONNS` and `budget` is `ForwardConnBudget`; for `udp_forwards`, `socks`
    is absent, `maxCap` is `MAX_UDP_ASSOCS` and `budget` is `ForwardSessionBudget`.
   */
  method Forwards<T>(es: seq<Entry<T>>, socks: Option<SocketAddr>, maxCap: nat, budget: nat)
    returns (r: Result<seq<ForwardSpec<T>>, ConfError>)
    requires 1 <= budget <= maxCap
    ensures r.Ok? <==> |es| <= MAX_FORWARD_LISTENERS && forall i :: 0 <= i < |es| ==> EntryOk(es, socks, i)
    ensures r.Ok? ==> |r.value| == |es|
    ensures r.Ok? ==> forall i :: 0 <= i < |es| ==>
                                    EntryOk(es, socks, i) && r.value[i] == Lowered(es[i], maxCap, budget)
    ensures |es| > MAX_FORWARD_LISTENERS ==> r == Err(TooMany(|es|))
    ensures r.Err? && |es| <= MAX_FORWARD_LISTENERS ==>
              exists i :: 0 <= i < |es| && RefusedFor(es, socks, i, r.error) && AllOkBefore(es, socks, i)
  {
    if |es| > MAX_FORWARD_LISTENERS {
      return Err(TooMany(|es|));
    }
    var seen: seq<SocketAddr> := [];
    var out: seq<ForwardSpec<T>> := [];
    var i: nat := 0;
    while i < |es|
      invariant i <= |es| && |seen| == |out| == i && AllOkBefore(es, socks, i)
      invariant forall k :: 0 <= k < i ==> es[k].listen == Some(seen[k])
      invariant forall k :: 0 <= k < i ==> EntryOk(es, socks, k) && out[k] == Lowered(es[k], maxCap, budget)
    {
      var err := CheckEntry(es, socks, i, seen);
      if err.Some? {
        assert RefusedFor(es, socks, i, err.value);
        return Err(err.value);
      }
      seen := seen + [es[i].listen.value];
      out := out + [Lowered(es[i], maxCap, budget)];
      i := i + 1;
    }
    r := Ok(out);
  }

  predicate AllOkBefore<T>(es: seq<Entry<T>>, socks: Option<SocketAddr>, n: nat)
    requires n <= |es|
  {
    forall k :: 0 <= k < n ==> EntryOk(es, socks, k)
  }

  /** Two listeners, or one and the SOCKS listener, can receive the same traffic. */
  ghost predicate Conflict<T>(es: seq<Entry<T>>, socks: Option<SocketAddr>) {
    || (exists i, j :: 0 <= j < i < |es| && SharePair(es, i, j))
    || (exists i :: 0 <= i < |es| && ShareSocks(es, socks, i))
  }

  ghost predicate SharePair<T>(es: seq<Entry<T>>, i: nat, j: nat)
    requires i < |es| && j < |es|
  {
    es[i].listen.Some? && es[j].listen.Some? && ShareTraffic(es[i].listen.value, es[j].listen.value)
  }

  ghost predicate ShareSocks<T>(es: seq<Entry<T>>, socks: Option<SocketAddr>, i: nat)
    requires i < |es|
  {
    socks.Some? && es[i].listen.Some? && ShareTraffic(es[i].listen.value, socks.value)
  }

  /** Every overlap that is reported is a real conflict. */
  lemma {:induction false} ReportedOverlapIsReal<T>(es: seq<Entry<T>>, socks: Option<SocketAddr>, i: nat, err: ConfError)
    requires i < |es| && RefusedFor(es, socks, i, err) && (err.Overlaps? || err.OverlapsSocks?)
    ensures Conflict(es, socks)
  {
    if err.Overlaps? {
      OverlapIsSharedTraffic(es[i].listen.value, es[err.j].listen.value);
      assert SharePair(es, i, err.j);
    } else {
      OverlapIsSharedTraffic(es[i].listen.value, socks.value);
      assert ShareSocks(es, socks, i);
    }
  }

  /** On success all accept sets, that of the SOCKS listener included, are pairwise disjoint. */
  lemma {:induction false} AcceptedListenersDisjoint<T>(es: seq<Entry<T>>, socks: Option<SocketAddr>)
    requires AllOkBefore(es, socks, |es|)
    ensures !Conflict(es, socks)
  {
    forall i, j | 0 <= j < i < |es|
      ensures !SharePair(es, i, j)
    {
      assert EntryOk(es, socks, i) && EntryOk(es, socks, j);
      OverlapIsSharedTraffic(es[i].listen.value, es[j].listen.value);
    }
    forall i | 0 <= i < |es|
      ensures !ShareSocks(es, socks, i)
    {
      assert EntryOk(es, socks, i);
      if socks.Some? {
        OverlapIsSharedTraffic(es[i].listen.value, socks.value);
      }
    }
  }

  /**
    When nothing else is wrong with the table, it is refused exactly when two listeners could
    receive the same traffic, and then the refusal is an overlap report.
   */
  lemma {:induction false} RefusedExactlyForConflict<T>(es: seq<Entry<T>>, socks: Option<SocketAddr>)
    requires forall i :: 0 <= i < |es| ==> ListenOk(es[i]) && es[i].cap != Some(0) && es[i].target.Some?
    ensures AllOkBefore(es, socks, |es|) <==> !Conflict(es, socks)
    ensures forall i: nat, err :: i < |es| && RefusedFor(es, socks, i, err) ==> err.Overlaps? || err.OverlapsSocks?
  {
    if AllOkBefore(es, socks, |es|) {
      AcceptedListenersDisjoint(es, socks);
    }
    if !Conflict(es, socks) {
      forall i | 0 <= i < |es|
        ensures EntryOk(es, socks, i)
      {
        DisjointEntryOk(es, socks, i);
      }
    }
  }

  lemma {:induction false} DisjointEntryOk<T>(es: seq<Entry<T>>, socks: Option<SocketAddr>, i: nat)
    requires i < |es| && ListenOk(es[i]) && es[i].cap != Some(0) && es[i].target.Some?
    requires !Conflict(es, socks)
    ensures EntryOk(es, socks, i)
  {
    forall j | 0 <= j < i && es[j].listen.Some?
      ensures !ListenOverlaps(es[i].listen.value, es[j].listen.value)
    {
      assert !SharePair(es, i, j);
      OverlapIsSharedTraffic(es[i].listen.value, es[j].listen.value);
    }
    if socks.Some? {
      assert !ShareSocks(es, socks, i);
      OverlapIsSharedTraffic(es[i].listen.value, socks.value);
    }
  }

  /** An entry that says what it must: a real listen address with a port, a cap that is not zero, a target. */
  predicate Stated<T>(e: Entry<T>) {
    e.listen.Some? && e.listen.value.port >= 1 && (e.cap.Some? ==> e.cap.value >= 1) && e.target.Some?
  }

  /** A table passes every check exactly if every entry is well stated and no two listeners can get the same traffic. */
  lemma {:induction false} AcceptedExactly<T>(es: seq<Entry<T>>, socks: Option<SocketAddr>)
    ensures AllOkBefore(es, socks, |es|) <==> (forall i :: 0 <= i < |es| ==> Stated(es[i])) && !Conflict(es, socks)
  {
    hide Conflict, ListenOverlaps, ClearOf;
    if AllOkBefore(es, socks, |es|) {
      AcceptedListenersDisjoint(es, socks);
      forall i | 0 <= i < |es|
        ensures Stated(es[i])
      {
        assert EntryOk(es, socks, i);
      }
    }
    if (forall i :: 0 <= i < |es| ==> Stated(es[i])) && !Conflict(es, socks) {
      RefusedExactlyForConflict(es, socks);
    }
  }
}
