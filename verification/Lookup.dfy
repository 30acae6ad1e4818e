/** The synchronous lookup of the packet path: the memo probed under the normalised key. */
module Lookup {
  import opened Bytes
  import opened Net
  import opened Memo
  import opened Key
  import Utf8

  datatype CachedLookup = Addr(addr: SocketAddr, ttlMs: nat) | Negative | Unknown

  /** What a matching slot is worth at time `nowMs` while the global epoch is `epoch`. */
  function Answer(m: Slot, nowMs: U64, epoch: nat): (r: CachedLookup) {
    if nowMs >= m.expiresMs then Unknown
    else if m.addr.Some? then Addr(m.addr.value, m.expiresMs - nowMs)
    else if m.negEpoch == epoch then Negative
    else Unknown
  }

  function LookupFast(hash: HashFn, t: Table, host: Octets, port: U16, nowMs: U64, epoch: nat): (r: CachedLookup) {
    var hit := Peek(hash, t, DnsKeyOwned(host, port));
    if hit.Some? then Answer(hit.value, nowMs, epoch) else Unknown
  }

  /** The stack key for hosts within the wire limit, the owned key above it: one key either way. */
  method LookupKey(host: Octets, port: U16) returns (key: Octets)
    requires Utf8.Valid(host)
    ensures key == DnsKeyOwned(host, port)
  {
    var buf := new U8[DNS_KEY_BUF](_ => 0);
    var stack := DnsKey(host, port, buf);
    key := if stack.Some? then stack.value else DnsKeyOwned(host, port);
  }

  /** The memo alone, and only then the clock and the epoch. */
  method LookupCachedFastWithTtl(memo: DnsMemo, host: Octets, port: U16, nowMs: U64, epoch: nat)
    returns (r: CachedLookup)
    requires memo.Valid() && Utf8.Valid(host)
    ensures r == LookupFast(memo.hash, memo.Contents(), host, port, nowMs, epoch)
  {
    var key := LookupKey(host, port);
    var positive, negative := memo.MemoPeekBoth(key);
    if positive.Some? && nowMs < positive.value.expiresMs {
      return Addr(positive.value.addr.value, positive.value.expiresMs - nowMs);
    }
    if negative.Some? && nowMs < negative.value.expiresMs && negative.value.negEpoch == epoch {
      return Negative;
    }
    return Unknown;
  }

  /** A memo write on behalf of a name and a port. */
  datatype NamePut = NamePut(host: Octets, port: U16, addr: Option<SocketAddr>, expiresMs: U64,
                             epoch: nat, fenceHolds: bool)
  {
    function ToPut(): (op: Put) {
      Put(DnsKeyOwned(host, port), addr, expiresMs, epoch, fenceHolds)
    }

    ghost predicate Names(h: Octets, p: U16) {
      port == p && SameName(host, h)
    }
  }

  function ToPuts(puts: seq<NamePut>): (ops: seq<Put>)
    ensures |ops| == |puts|
    ensures forall i :: 0 <= i < |puts| ==> ops[i] == puts[i].ToPut()
  {
    seq(|puts|, i requires 0 <= i < |puts| => puts[i].ToPut())
  }

  /** `p` is the last accepted write for any spelling of the name, under the same port. */
  ghost predicate IsLastFor(puts: seq<NamePut>, host: Octets, port: U16, p: nat) {
    && p < |puts| && Accepted(puts[p].ToPut()) && puts[p].Names(host, port)
    && forall j :: p < j < |puts| && Accepted(puts[j].ToPut()) ==> !puts[j].Names(host, port)
  }

  /**
    After any history of writes and whatever the hash does, a lookup answers from the last
    accepted write for its name and port. It gives the address with the time left, whatever the
    epoch, if and only if that write carried one, has not expired, and at most one other key was
    stored in the set since; and the refusal if and only if that write was one, likewise alive,
    and tagged with the current epoch.
   */
  lemma {:induction false} LookupAnswersLastWrite(hash: HashFn, puts: seq<NamePut>, host: Octets, port: U16, p: nat,
                                                  nowMs: U64, epoch: nat)
    requires IsLastFor(puts, host, port, p)
    ensures var (ops, key) := (ToPuts(puts), DnsKeyOwned(host, port));
            var (r, live) := (LookupFast(hash, Run(hash, ops), host, port, nowMs, epoch),
                              |KeysSince(hash, ops, key, p)| <= 1 && nowMs < puts[p].expiresMs);
            && (forall a, ttl :: r == Addr(a, ttl) <==>
                  live && puts[p].addr == Some(a) && ttl == puts[p].expiresMs - nowMs)
            && (r == Negative <==> live && puts[p].addr.None? && puts[p].epoch == epoch)
  {
    var (ops, key) := (ToPuts(puts), DnsKeyOwned(host, port));
    forall j | 0 <= j < |puts|
      ensures ops[j].key == key <==> puts[j].Names(host, port)
    {
      KeyInjective(puts[j].host, puts[j].port, host, port);
    }
    assert IsLastPut(ops, key, p);
    PeekAnswersLastPut(hash, ops, key, p);
  }

  lemma {:induction false} LookupMissesUnwritten(hash: HashFn, puts: seq<NamePut>, host: Octets, port: U16, nowMs: U64, epoch: nat)
    requires forall j :: 0 <= j < |puts| && Accepted(puts[j].ToPut()) ==> !puts[j].Names(host, port)
    ensures LookupFast(hash, Run(hash, ToPuts(puts)), host, port, nowMs, epoch) == Unknown
  {
    forall op | op in ToPuts(puts) && Accepted(op)
      ensures op.key != DnsKeyOwned(host, port)
    {
      var j :| 0 <= j < |puts| && op == puts[j].ToPut();
      KeyInjective(puts[j].host, puts[j].port, host, port);
    }
    PeekMissesUnknown(hash, ToPuts(puts), DnsKeyOwned(host, port));
  }

  lemma {:induction false} FindLast(puts: seq<NamePut>, host: Octets, port: U16) returns (p: Option<nat>)
    ensures p.Some? ==> IsLastFor(puts, host, port, p.value)
    ensures p.None? ==> forall j :: 0 <= j < |puts| && Accepted(puts[j].ToPut()) ==> !puts[j].Names(host, port)
  {
    var n: nat := |puts|;
    while n > 0 && !(Accepted(puts[n - 1].ToPut()) && puts[n - 1].Names(host, port))
      invariant n <= |puts|
      invariant forall j :: n <= j < |puts| && Accepted(puts[j].ToPut()) ==> !puts[j].Names(host, port)
    {
      n := n - 1;
    }
    p := if n > 0 then Some(n - 1) else None;
  }

  /**
    No lookup is ever served another name's verdict: an address comes from the newest write for
    the same port and the same name up to ASCII case and trailing dots, and is still alive.
   */
  lemma {:induction false} LookupNeverMisServes(hash: HashFn, puts: seq<NamePut>, host: Octets, port: U16, nowMs: U64, epoch: nat)
    returns (p: nat)
    requires LookupFast(hash, Run(hash, ToPuts(puts)), host, port, nowMs, epoch) != Unknown
    ensures IsLastFor(puts, host, port, p) && nowMs < puts[p].expiresMs
    ensures match LookupFast(hash, Run(hash, ToPuts(puts)), host, port, nowMs, epoch)
            case Addr(a, ttl) => puts[p].addr == Some(a) && nowMs + ttl == puts[p].expiresMs
            case Negative => puts[p].addr.None? && puts[p].epoch == epoch
            case Unknown => false
  {
    var last := FindLast(puts, host, port);
    if last.None? {
      LookupMissesUnwritten(hash, puts, host, port, nowMs, epoch);
      assert false;
    }
    p := last.value;
    LookupAnswersLastWrite(hash, puts, host, port, p, nowMs, epoch);
  }

  /** Every host within the wire limit gives a key that fits a slot, so no such write is refused for its length. */
  lemma {:induction false} WireNamesAlwaysFit(put: NamePut)
    requires |NameBytes(put.host)| <= MAX_HOST
    ensures Accepted(put.ToPut()) <==> put.fenceHolds
  {
    KeyFits(put.host, put.port);
  }
}
