/** MQP-2 BATCH frames: `type | sess | addr | count | count x (len u16 LE | body)`. */
module Batch {
  import opened Bytes
  import opened Addr

  const MQP_DGRAM_BATCH: U8 := 0x06
  const BATCH_PREFIX_LEN: nat := 1 + 4
  const MAX_BATCH_ITEMS: nat := 16
  const BATCH_ITEM_OVERHEAD: nat := 2

  function BatchFrameLen(headerLen: nat, items: nat, payloadBytes: nat): (n: U64) {
    var overhead := SatAdd(BATCH_ITEM_OVERHEAD * items, 0);
    SatAdd(SatAdd(SatAdd(SatAdd(BATCH_PREFIX_LEN, headerLen), 1), overhead), payloadBytes)
  }

  function TotalBytes(ps: seq<Octets>): (n: nat) {
    if ps == [] then 0 else TotalBytes(ps[..|ps| - 1]) + |ps[|ps| - 1]|
  }

  /** One item as written: the length is cast to `u16`, whatever it was. */
  function Item(p: Octets): (b: Octets) {
    Le16(|p| % 0x1_0000) + p
  }

  function Items(ps: seq<Octets>): (b: Octets) {
    if ps == [] then [] else Item(ps[0]) + Items(ps[1..])
  }

  function Head(sess: U32, a: TargetAddr, count: U8): (b: Octets)
    requires Header(a).Ok?
  {
    [MQP_DGRAM_BATCH] + Le32(sess) + Wire(a) + [count]
  }

  /** The reference encoder. */
  function EncodedBatch(sess: U32, a: TargetAddr, ps: seq<Octets>, limit: U64): (r: Option<Octets>) {
    if Header(a).Ok? && 1 <= |ps| <= MAX_BATCH_ITEMS &&
       BatchFrameLen(Header(a).value.len, |ps|, TotalBytes(ps)) <= limit
    then Some(Head(sess, a, |ps|) + Items(ps))
    else None
  }

  method SumLengths(ps: seq<Octets>) returns (n: U64)
    ensures n == SatAdd(TotalBytes(ps), 0)
  {
    n := 0;
    for i := 0 to |ps|
      invariant n == SatAdd(TotalBytes(ps[..i]), 0)
    {
      assert ps[..i + 1][..i] == ps[..i];
      n := SatAdd(n, |ps[i]|);
    }
    assert ps[..|ps|] == ps;
  }

  method EncodeBatchWithHeader(sess: U32, h: AddrHeader, ps: seq<Octets>, limit: U64) returns (r: Option<Octets>)
    requires Header(h.addr) == Ok(h)
    ensures r == EncodedBatch(sess, h.addr, ps, limit)
  {
    if |ps| == 0 || |ps| > MAX_BATCH_ITEMS {
      return None;
    }
    var payloadBytes := SumLengths(ps);
    var total := BatchFrameLen(h.len, |ps|, payloadBytes);
    if total > limit {
      return None;
    }
    HeaderMeasures(h.addr);
    var v := [MQP_DGRAM_BATCH];
    v := v + Le32(sess);
    var hdr := new U8[h.len](_ => 0);
    var n := EncodeInto(h, hdr, 0);
    assert hdr[..] == Wire(h.addr);
    v := v + hdr[..];
    v := v + [|ps|];
    v := AppendItems(v, ps);
    r := Some(v);
  }

  method AppendItems(head: Octets, ps: seq<Octets>) returns (v: Octets)
    ensures v == head + Items(ps)
  {
    v := head;
    for i := 0 to |ps|
      invariant head + Items(ps) == v + Items(ps[i..])
    {
      assert ps[i..][0] == ps[i] && ps[i..][1..] == ps[i + 1..];
      v := v + Le16(|ps[i]| % 0x1_0000);
      v := v + ps[i];
    }
  }

  // ---------- decoding ----------

  /** The items at the start of `b` and the number of bytes they take. */
  function ParseItems(b: Octets, count: nat): (r: Result<(seq<Octets>, nat), MqpError>) {
    if count == 0 then Ok(([], 0))
    else if |b| < 2 then Err(Malformed(BadItemLen))
    else
      var len := FromLe16(b[0], b[1]);
      if 2 + len > |b| then Err(Malformed(BadItemBody))
      else
        match ParseItems(b[2 + len..], count - 1)
        case Err(e) => Err(e)
        case Ok((ps, n)) => Ok(([b[2..2 + len]] + ps, 2 + len + n))
  }

  datatype BatchRef = BatchRef(sess: U32, addr: TargetAddr, payloads: seq<Octets>)

  /** The reference decoder: parse the head, parse every item, demand the exact end. */
  function DecodeBatchRef(b: Octets): (r: Result<BatchRef, MqpError>) {
    if |b| < BATCH_PREFIX_LEN + 1 || b[0] != MQP_DGRAM_BATCH then Err(Malformed(BadBatch))
    else
      match Decode(b[BATCH_PREFIX_LEN..])
      case Err(e) => Err(e)
      case Ok((a, n)) =>
        if BATCH_PREFIX_LEN + n >= |b| then Err(Malformed(NoBatchCount))
        else
          DecodeCounted(FromLe32(b[1], b[2], b[3], b[4]), a, b[BATCH_PREFIX_LEN + n], b[BATCH_PREFIX_LEN + n + 1..])
  }

  function DecodeCounted(sess: U32, a: TargetAddr, count: U8, items: Octets): (r: Result<BatchRef, MqpError>) {
    if count == 0 || count > MAX_BATCH_ITEMS then Err(BadBatchCount(count))
    else
      match ParseItems(items, count)
      case Err(e) => Err(e)
      case Ok((ps, n)) => if n != |items| then Err(Malformed(TrailingBytes)) else Ok(BatchRef(sess, a, ps))
  }

  /** The borrowed view: everything after the count byte is left unparsed. */
  datatype BatchFrame = BatchFrame(sess: U32, addr: TargetAddr, items: Octets, count: U8)

  /** The item bytes hold exactly `count` items. */
  predicate Exact(items: Octets, count: nat) {
    ParseItems(items, count).Ok? && ParseItems(items, count).value.1 == |items|
  }

  /** Validate the whole frame up front without keeping any item. */
  method DecodeBatch(b: Octets) returns (r: Result<BatchFrame, MqpError>)
    ensures r.Err? ==> DecodeBatchRef(b) == Err(r.error)
    ensures r.Ok? ==> Exact(r.value.items, r.value.count) && r.value.count <= MAX_BATCH_ITEMS
    ensures r.Ok? ==> DecodeBatchRef(b) ==
                      Ok(BatchRef(r.value.sess, r.value.addr, ParseItems(r.value.items, r.value.count).value.0))
  {
    if |b| < BATCH_PREFIX_LEN + 1 || b[0] != MQP_DGRAM_BATCH {
      return Err(Malformed(BadBatch));
    }
    var sess := FromLe32(b[1], b[2], b[3], b[4]);
    var decoded := Decode(b[BATCH_PREFIX_LEN..]);
    if decoded.Err? {
      return Err(decoded.error);
    }
    var (a, n) := decoded.value;
    var off := BATCH_PREFIX_LEN + n;
    if off >= |b| {
      return Err(Malformed(NoBatchCount));
    }
    var count: nat := b[off];
    off := off + 1;
    if count == 0 || count > MAX_BATCH_ITEMS {
      return Err(BadBatchCount(count));
    }
    ItemsEndIsParse(b, off, count);
    var bad := ValidateItems(b, off, count);
    if bad.Some? {
      return Err(bad.value);
    }
    r := Ok(BatchFrame(sess, a, b[off..], count));
  }

  /** Where `count` items starting at offset `at` end, without keeping them. */
  function ItemsEnd(b: Octets, at: nat, count: nat): (r: Result<nat, MqpError>)
    requires at <= |b|
    decreases count
  {
    if count == 0 then Ok(at)
    else if at + 2 > |b| then Err(Malformed(BadItemLen))
    else
      var end := at + 2 + FromLe16(b[at], b[at + 1]);
      if end > |b| then Err(Malformed(BadItemBody)) else ItemsEnd(b, end, count - 1)
  }

  /** Walking the offsets agrees with parsing the items. */
  lemma {:induction false} ItemsEndIsParse(b: Octets, at: nat, count: nat)
    requires at <= |b|
    ensures ItemsEnd(b, at, count) ==
            match ParseItems(b[at..], count)
            case Err(e) => Err(e)
            case Ok((_, n)) => Ok(at + n)
    decreases count
  {
    if count > 0 && at + 2 <= |b| {
      var len := FromLe16(b[at], b[at + 1]);
      if at + 2 + len <= |b| {
        ItemsEndIsParse(b, at + 2 + len, count - 1);
        assert b[at..][2 + len..] == b[at + 2 + len..];
      }
    }
  }

  /** The cursor loop of `DecodeBatch`. */
  method ValidateItems(b: Octets, off: nat, count: nat) returns (bad: Option<MqpError>)
    requires off <= |b|
    ensures bad == match ItemsEnd(b, off, count)
                   case Err(e) => Some(e)
                   case Ok(end) => if end != |b| then Some(Malformed(TrailingBytes)) else None
  {
    var seen, cursor := 0, off;
    while seen < count
      invariant 0 <= seen <= count && off <= cursor <= |b|
      invariant ItemsEnd(b, cursor, count - seen) == ItemsEnd(b, off, count)
    {
      if cursor + 2 > |b| {
        return Some(Malformed(BadItemLen));
      }
      var len := FromLe16(b[cursor], b[cursor + 1]);
      cursor := cursor + 2;
      if cursor + len > |b| {
        return Some(Malformed(BadItemBody));
      }
      cursor := cursor + len;
      seen := seen + 1;
    }
    if cursor != |b| {
      return Some(Malformed(TrailingBytes));
    }
    bad := None;
  }

  /** The lazy iterator. Its slicing is unchecked in the source; `Valid` is what validation established. */
  class BatchItems {
    var rest: Octets
    var left: nat

    ghost predicate Valid()
      reads this
    {
      Exact(rest, left)
    }

    /** The payloads still to come. */
    ghost function Remaining(): (ps: seq<Octets>)
      requires Valid()
      reads this
    {
      ParseItems(rest, left).value.0
    }

    constructor (f: BatchFrame)
      requires Exact(f.items, f.count)
      ensures Valid() && Remaining() == ParseItems(f.items, f.count).value.0 && rest == f.items && left == f.count
    {
      rest, left := f.items, f.count;
    }

    method Next() returns (r: Option<Octets>)
      requires Valid()
      modifies this
      ensures Valid()
      ensures old(left) == 0 ==> r == None && rest == old(rest) == [] && left == 0 && old(Remaining()) == []
      ensures old(left) > 0 ==>
                && r.Some? && old(Remaining()) == [r.value] + Remaining() && left == old(left) - 1
                && |rest| + 2 + |r.value| == old(|rest|)
    {
      if left == 0 {
        return None;
      }
      var len := FromLe16(rest[0], rest[1]);
      var body := rest[2..2 + len];
      rest := rest[2 + len..];
      left := left - 1;
      r := Some(body);
    }
  }

  /** Collecting the iterator gives the reference decoder. */
  method DecodeBatchCollect(b: Octets) returns (r: Result<BatchRef, MqpError>)
    ensures r == DecodeBatchRef(b)
  {
    hide ParseItems, DecodeBatchRef;
    var f := DecodeBatch(b);
    if f.Err? {
      return Err(f.error);
    }
    var it := new BatchItems(f.value);
    ghost var all := it.Remaining();
    var payloads: seq<Octets> := [];
    var p := it.Next();
    while p.Some?
      invariant fresh(it) && it.Valid()
      invariant p.Some? ==> all == payloads + [p.value] + it.Remaining()
      invariant p.None? ==> all == payloads
      decreases it.left, p.Some?
    {
      payloads := payloads + [p.value];
      p := it.Next();
    }
    r := Ok(BatchRef(f.value.sess, f.value.addr, payloads));
  }

  // ---------- the two directions ----------

  predicate AllFitU16(ps: seq<Octets>) {
    forall i :: 0 <= i < |ps| ==> |ps[i]| <= 0xFFFF
  }

  lemma {:induction false} ItemLayout(p: Octets, tail: Octets)
    requires |p| <= 0xFFFF
    ensures var b := Item(p) + tail;
            FromLe16(b[0], b[1]) == |p| && b[2..2 + |p|] == p && b[2 + |p|..] == tail
  {
    var (b, w) := (Item(p) + tail, Le16(|p|));
    Le16Inverse(|p|);
    assert b[0] == w[0] && b[1] == w[1];
  }

  lemma {:induction false} ParseOneItem(p: Octets, tail: Octets, count: nat)
    requires |p| <= 0xFFFF && count > 0
    ensures ParseItems(Item(p) + tail, count) ==
            match ParseItems(tail, count - 1)
            case Err(e) => Err(e)
            case Ok((ps, n)) => Ok(([p] + ps, 2 + |p| + n))
  {
    ItemLayout(p, tail);
  }

  lemma {:induction false} ParseOfItems(ps: seq<Octets>, tail: Octets)
    requires AllFitU16(ps)
    ensures ParseItems(Items(ps) + tail, |ps|) == Ok((ps, |Items(ps)|))
  {
    if ps != [] {
      assert Items(ps) + tail == Item(ps[0]) + (Items(ps[1..]) + tail);
      ParseOneItem(ps[0], Items(ps[1..]) + tail, |ps|);
      ParseOfItems(ps[1..], tail);
      assert [ps[0]] + ps[1..] == ps;
    }
  }

  lemma {:induction false} ItemIsLengthAndPayload(p: Octets, len: U16)
    requires |p| == len
    ensures Item(p) == Le16(len) + p
  {
  }

  lemma {:induction false} HeadAndRest(b: Octets, n: nat)
    requires 2 <= n <= |b|
    ensures [b[0], b[1]] + b[2..n] == b[..n]
  {
  }

  lemma {:induction false} ItemOfLayout(b: Octets)
    requires |b| >= 2 && 2 + FromLe16(b[0], b[1]) <= |b|
    ensures var len := FromLe16(b[0], b[1]); Item(b[2..2 + len]) == b[..2 + len]
  {
    hide FromLe16, Le16;
    var len: nat := FromLe16(b[0], b[1]);
    FromLe16Inverse(b[0], b[1]);
    ItemIsLengthAndPayload(b[2..2 + len], FromLe16(b[0], b[1]));
    HeadAndRest(b, 2 + len);
  }

  /** Whatever parses is the written form of the items it yields: contents, count and bytes taken. */
  lemma {:induction false} ItemsOfParse(b: Octets, count: nat)
    requires ParseItems(b, count).Ok?
    ensures var (ps, n) := ParseItems(b, count).value;
            n <= |b| && |ps| == count && AllFitU16(ps) && Items(ps) == b[..n]
    decreases count
  {
    hide FromLe16, Item, Items;
    if count == 0 {
      NoItems();
    } else {
      var len: nat := FromLe16(b[0], b[1]);
      var rest := b[2 + len..];
      ItemsOfParse(rest, count - 1);
      var (ps, n) := ParseItems(rest, count - 1).value;
      ItemOfLayout(b);
      ItemsCons(b[2..2 + len], ps);
      assert b[..2 + len + n] == b[..2 + len] + rest[..n];
    }
  }

  lemma {:induction false} NoItems()
    ensures Items([]) == []
  {
  }

  lemma {:induction false} ItemsCons(p: Octets, ps: seq<Octets>)
    ensures Items([p] + ps) == Item(p) + Items(ps)
  {
    assert ([p] + ps)[1..] == ps;
  }

  lemma {:induction false} HeadRegroups(sess: U32, a: TargetAddr, count: U8, items: Octets)
    requires Header(a).Ok?
    ensures Head(sess, a, count) + items == [MQP_DGRAM_BATCH] + Le32(sess) + (Wire(a) + ([count] + items))
  {
  }

  lemma {:induction false} HeadDecodes(sess: U32, a: TargetAddr, count: U8, items: Octets)
    requires Header(a).Ok?
    ensures DecodeBatchRef(Head(sess, a, count) + items) == DecodeCounted(sess, OnWire(a), count, items)
  {
    HeadRegroups(sess, a, count, items);
    SessionPrefixDecodes(MQP_DGRAM_BATCH, sess, a, [count] + items);
    HeaderMeasures(a);
    var (b, n) := (Head(sess, a, count) + items, BATCH_PREFIX_LEN + |Wire(a)|);
    assert b[n..] == [count] + items;
    assert b[n] == b[n..][0] && b[n + 1..] == b[n..][1..];
  }

  /**
    Decoding an encoded frame gives back session, address and payloads in order exactly when every
    payload length fits the `u16` it is cast to.
   */
  lemma {:induction false} BatchRoundTripExactly(sess: U32, a: TargetAddr, ps: seq<Octets>, limit: U64)
    requires EncodedBatch(sess, a, ps, limit).Some?
    ensures DecodeBatchRef(EncodedBatch(sess, a, ps, limit).value) == Ok(BatchRef(sess, OnWire(a), ps)) <==>
            AllFitU16(ps)
  {
    HeadDecodes(sess, a, |ps|, Items(ps));
    if AllFitU16(ps) {
      ParseOfItems(ps, []);
      assert Items(ps) + [] == Items(ps);
    }
    if ParseItems(Items(ps), |ps|).Ok? {
      ItemsOfParse(Items(ps), |ps|);
    }
  }

  lemma {:induction false} CountedItems(sess: U32, a: TargetAddr, count: U8, items: Octets)
    requires DecodeCounted(sess, a, count, items).Ok?
    ensures var f := DecodeCounted(sess, a, count, items).value;
            && f.sess == sess && f.addr == a && 1 <= |f.payloads| == count <= MAX_BATCH_ITEMS
            && AllFitU16(f.payloads) && Items(f.payloads) == items
  {
    ItemsOfParse(items, count);
    assert items[..|items|] == items;
  }

  /** The head of an accepted frame and the bytes after its count. */
  lemma {:induction false} AcceptedHead(b: Octets) returns (sess: U32, a: TargetAddr, count: U8, items: Octets)
    requires DecodeBatchRef(b).Ok?
    ensures Header(a).Ok? && OnWire(a) == a
    ensures b == Head(sess, a, count) + items && DecodeBatchRef(b) == DecodeCounted(sess, a, count, items)
  {
    SessionPrefixOfDecode(b);
    WireOfDecode(b[BATCH_PREFIX_LEN..]);
    var (a', n) := Decode(b[BATCH_PREFIX_LEN..]).value;
    var at := BATCH_PREFIX_LEN + n;
    sess, a, count, items := FromLe32(b[1], b[2], b[3], b[4]), a', b[at], b[at + 1..];
    assert b[at..] == [count] + items;
    HeadRegroups(sess, a, count, items);
  }

  /** An accepted frame, taken apart and put together again. */
  lemma {:induction false} AcceptedIsHeadAndItems(b: Octets)
    requires DecodeBatchRef(b).Ok?
    ensures var f := DecodeBatchRef(b).value;
            && Header(f.addr).Ok? && OnWire(f.addr) == f.addr
            && 1 <= |f.payloads| <= MAX_BATCH_ITEMS && AllFitU16(f.payloads)
            && b == Head(f.sess, f.addr, |f.payloads|) + Items(f.payloads)
  {
    var sess, a, count, items := AcceptedHead(b);
    CountedItems(sess, a, count, items);
  }

  lemma {:induction false} ItemsLength(ps: seq<Octets>)
    ensures |Items(ps)| == BATCH_ITEM_OVERHEAD * |ps| + TotalBytes(ps)
  {
    if ps != [] {
      ItemsLength(ps[1..]);
      TotalBytesFront(ps);
    }
  }

  lemma {:induction false} TotalBytesFront(ps: seq<Octets>)
    requires ps != []
    ensures TotalBytes(ps) == |ps[0]| + TotalBytes(ps[1..])
    decreases |ps|
  {
    if |ps| > 1 {
      TotalBytesFront(ps[..|ps| - 1]);
      assert ps[..|ps| - 1][1..] == ps[1..][..|ps| - 2];
    }
  }

  /** An accepted frame has exactly the length the budget helper predicts, as long as that does not saturate. */
  lemma {:induction false} FrameLenIsEncoderBudget(sess: U32, a: TargetAddr, ps: seq<Octets>, limit: U64)
    requires EncodedBatch(sess, a, ps, limit).Some?
    ensures var b := EncodedBatch(sess, a, ps, limit).value;
            |b| <= U64_MAX ==> |b| == BatchFrameLen(Header(a).value.len, |ps|, TotalBytes(ps)) <= limit
    ensures |EncodedBatch(sess, a, ps, limit).value| > U64_MAX ==> limit == U64_MAX
  {
    HeaderMeasures(a);
    ItemsLength(ps);
  }

  lemma {:induction false} TotalBytesBound(ps: seq<Octets>)
    requires AllFitU16(ps)
    ensures TotalBytes(ps) <= 0xFFFF * |ps|
  {
    if ps != [] {
      TotalBytesBound(ps[..|ps| - 1]);
    }
  }

  /** Every byte string the decoder accepts re-encodes to itself within any limit that covers it. */
  lemma {:induction false} EncodedOfBatchDecode(b: Octets, limit: U64)
    requires DecodeBatchRef(b).Ok?
    ensures var f := DecodeBatchRef(b).value;
            EncodedBatch(f.sess, f.addr, f.payloads, limit) == if |b| <= limit then Some(b) else None
  {
    var f := DecodeBatchRef(b).value;
    AcceptedIsHeadAndItems(b);
    HeaderMeasures(f.addr);
    ItemsLength(f.payloads);
    TotalBytesBound(f.payloads);
  }

  lemma {:induction false} ExtendedIsRejected(f: BatchRef, tail: Octets)
    requires Header(f.addr).Ok? && |f.payloads| < 0x100 && AllFitU16(f.payloads) && tail != []
    ensures DecodeBatchRef(Head(f.sess, f.addr, |f.payloads|) + Items(f.payloads) + tail).Err?
  {
    Assoc(Head(f.sess, f.addr, |f.payloads|), Items(f.payloads), tail);
    HeadDecodes(f.sess, f.addr, |f.payloads|, Items(f.payloads) + tail);
    ParseOfItems(f.payloads, tail);
  }

  /**
    Frames are self-delimiting: no strict extension of an accepted frame is accepted, and so no
    strict prefix of one either.
   */
  lemma {:induction false} BatchSelfDelimiting(b: Octets, tail: Octets)
    requires tail != []
    ensures !(DecodeBatchRef(b).Ok? && DecodeBatchRef(b + tail).Ok?)
  {
    if DecodeBatchRef(b).Ok? {
      var f := DecodeBatchRef(b).value;
      AcceptedIsHeadAndItems(b);
      ExtendedIsRejected(f, tail);
    }
  }

  /** `b` is the items' lengths, each in two bytes with the low one first, and bodies, in order. */
  ghost predicate HoldsItems(b: Octets, ps: seq<Octets>) {
    if ps == [] then b == []
    else
      && |b| >= 2 + |ps[0]| && Weight2(b[0], b[1]) == |ps[0]| && b[2..2 + |ps[0]|] == ps[0]
      && HoldsItems(b[2 + |ps[0]|..], ps[1..])
  }

  lemma {:induction false} ItemsLayout(ps: seq<Octets>)
    requires AllFitU16(ps)
    ensures HoldsItems(Items(ps), ps)
  {
    if ps != [] {
      var (p, rest, b) := (ps[0], Items(ps[1..]), Items(ps));
      Le16Weighs(|p|);
      assert b == Le16(|p|) + p + rest;
      assert b[0] == Le16(|p|)[0] && b[1] == Le16(|p|)[1];
      assert b[2..2 + |p|] == p && b[2 + |p|..] == rest;
      ItemsLayout(ps[1..]);
    }
  }

  /** A batch on the wire: type 6, session, address, count, items. */
  lemma {:induction false} BatchLayout(sess: U32, a: TargetAddr, ps: seq<Octets>, limit: U64)
    requires EncodedBatch(sess, a, ps, limit).Some? && AllFitU16(ps)
    ensures StartsWith(EncodedBatch(sess, a, ps, limit).value, 6, sess, Wire(a) + ([|ps|] + Items(ps)))
    ensures HoldsItems(Items(ps), ps)
  {
    HeadRegroups(sess, a, |ps|, Items(ps));
    SessionLayout(6, sess, Wire(a) + ([|ps|] + Items(ps)));
    ItemsLayout(ps);
  }
}
