/**
  The dictionary TRAIN frame of the reference codecs:
  `0x04 | 0x01 | count | nfl | nfl x flow varint | count x (idx | len varint | payload)`.
 */
module Train {
  import opened Bytes
  import opened Varint

  const R2_TRAIN: U8 := 0x04
  const R2_TRAIN_FORM_DICT: U8 := 0x01
  const R2_MAX_TRAIN_ITEMS: nat := 64

  datatype DictItem = DictItem(idx: U8, payload: Octets)

  function FlowBytes(flows: seq<U32>): (b: Octets) {
    if flows == [] then [] else Leb(flows[0]) + FlowBytes(flows[1..])
  }

  /** One item; its length is cast to `u32`. */
  function ItemBytes(it: DictItem): (b: Octets) {
    [it.idx] + Leb(AsU32(|it.payload|)) + it.payload
  }

  function ItemsBytes(items: seq<DictItem>): (b: Octets) {
    if items == [] then [] else ItemBytes(items[0]) + ItemsBytes(items[1..])
  }

  /** The frame; both counts are cast to `u8`. */
  function TrainDict(flows: seq<U32>, items: seq<DictItem>): (b: Octets) {
    [R2_TRAIN, R2_TRAIN_FORM_DICT, |items| % 0x100, |flows| % 0x100] + FlowBytes(flows) + ItemsBytes(items)
  }

  method AppendFlows(head: Octets, flows: seq<U32>) returns (out: Octets)
    ensures out == head + FlowBytes(flows)
  {
    out := head;
    for i := 0 to |flows|
      invariant head + FlowBytes(flows) == out + FlowBytes(flows[i..])
    {
      assert flows[i..][0] == flows[i] && flows[i..][1..] == flows[i + 1..];
      out := PutVarint(out, flows[i]);
    }
  }

  method AppendItem(head: Octets, it: DictItem) returns (out: Octets)
    ensures out == head + ItemBytes(it)
  {
    out := head + [it.idx];
    out := PutVarint(out, AsU32(|it.payload|));
    out := out + it.payload;
  }

  method AppendItems(head: Octets, items: seq<DictItem>) returns (out: Octets)
    ensures out == head + ItemsBytes(items)
  {
    out := head;
    for i := 0 to |items|
      invariant head + ItemsBytes(items) == out + ItemsBytes(items[i..])
    {
      assert items[i..][0] == items[i] && items[i..][1..] == items[i + 1..];
      out := AppendItem(out, items[i]);
    }
  }

  method RefEncodeTrainDict(flows: seq<U32>, items: seq<DictItem>) returns (out: Octets)
    ensures out == TrainDict(flows, items)
  {
    out := [R2_TRAIN, R2_TRAIN_FORM_DICT, |items| % 0x100, |flows| % 0x100];
    out := AppendFlows(out, flows);
    out := AppendItems(out, items);
  }

  // ---------- the reference parse ----------

  function ParseFlows(b: Octets, off: nat, k: nat): (r: Option<(seq<U32>, nat)>)
    decreases k
  {
    if k == 0 then Some(([], off))
    else
      var f := Rd(b, off);
      if f.None? || f.value.0 == 0 then None
      else
        var rest := ParseFlows(b, f.value.1, k - 1);
        if rest.None? then None else Some(([f.value.0] + rest.value.0, rest.value.1))
  }

  function ParseItem(b: Octets, off: nat, nfl: nat): (r: Option<(DictItem, nat)>) {
    if off >= |b| || b[off] >= nfl then None
    else
      var len := Rd(b, off + 1);
      if len.None? || len.value.1 + len.value.0 > |b| then None
      else
        var (n, at) := len.value;
        Some((DictItem(b[off], b[at..at + n]), at + n))
  }

  function ParseItems(b: Octets, off: nat, k: nat, nfl: nat): (r: Option<(seq<DictItem>, nat)>)
    decreases k
  {
    if k == 0 then Some(([], off))
    else
      var it := ParseItem(b, off, nfl);
      if it.None? then None
      else
        var rest := ParseItems(b, it.value.1, k - 1, nfl);
        if rest.None? then None else Some(([it.value.0] + rest.value.0, rest.value.1))
  }

  /** The frame's dictionary and items, or `None` for a malformed frame. */
  function ParseDict(b: Octets): (r: Option<(seq<U32>, seq<DictItem>)>) {
    if |b| < 4 || b[0] != R2_TRAIN || b[1] != R2_TRAIN_FORM_DICT then None
    else if b[2] == 0 || b[2] > R2_MAX_TRAIN_ITEMS || b[3] == 0 || b[3] > b[2] then None
    else
      var flows := ParseFlows(b, 4, b[3]);
      if flows.None? then None
      else
        var items := ParseItems(b, flows.value.1, b[2], b[3]);
        if items.None? || items.value.1 != |b| then None else Some((flows.value.0, items.value.0))
  }

  predicate IndicesBelow(items: seq<DictItem>, n: nat) {
    forall i :: 0 <= i < |items| ==> items[i].idx < n
  }

  /** The selected flow ids plus the payload lengths. */
  function Sum(flows: seq<U32>, items: seq<DictItem>): (n: nat)
    requires IndicesBelow(items, |flows|)
  {
    if items == [] then 0
    else flows[items[0].idx] + |items[0].payload| + Sum(flows, items[1..])
  }

  lemma {:induction false} ParseFlowsShape(b: Octets, off: nat, k: nat)
    requires ParseFlows(b, off, k).Some?
    ensures |ParseFlows(b, off, k).value.0| == k
    ensures forall i :: 0 <= i < k ==> ParseFlows(b, off, k).value.0[i] != 0
    decreases k
  {
    if k > 0 {
      ParseFlowsShape(b, Rd(b, off).value.1, k - 1);
    }
  }

  lemma {:induction false} ParseItemsShape(b: Octets, off: nat, k: nat, nfl: nat)
    requires ParseItems(b, off, k, nfl).Some?
    ensures var items := ParseItems(b, off, k, nfl).value.0;
            |items| == k && IndicesBelow(items, nfl) && PayloadsFit(items)
    decreases k
  {
    if k > 0 {
      ParseItemsShape(b, ParseItem(b, off, nfl).value.1, k - 1, nfl);
    }
  }

  predicate PayloadsFit(items: seq<DictItem>) {
    forall i :: 0 <= i < |items| ==> |items[i].payload| < 0x1_0000_0000
  }

  /** What a conforming sender puts into a dictionary TRAIN. */
  predicate WellFormed(flows: seq<U32>, items: seq<DictItem>) {
    && 1 <= |flows| <= |items| <= R2_MAX_TRAIN_ITEMS
    && (forall i :: 0 <= i < |flows| ==> flows[i] != 0)
    && IndicesBelow(items, |flows|) && PayloadsFit(items)
  }

  /** The decoder accepts only well-formed contents. */
  lemma {:induction false} ParseDictWellFormed(b: Octets)
    requires ParseDict(b).Some?
    ensures WellFormed(ParseDict(b).value.0, ParseDict(b).value.1)
  {
    ParseFlowsShape(b, 4, b[3]);
    ParseItemsShape(b, ParseFlows(b, 4, b[3]).value.1, b[2], b[3]);
  }

  // ---------- the one-pass decoder ----------

  /** What was read so far in front of what a parse of the rest yields. */
  function Prepend<T>(done: seq<T>, rest: Option<(seq<T>, nat)>): (r: Option<(seq<T>, nat)>) {
    match rest
    case None => None
    case Some((ts, e)) => Some((done + ts, e))
  }

  lemma {:induction false} PrependNone<T>(rest: Option<(seq<T>, nat)>)
    ensures Prepend([], rest) == rest
  {
    if rest.Some? {
      assert [] + rest.value.0 == rest.value.0;
    }
  }

  lemma {:induction false} PrependOne<T>(done: seq<T>, t: T, rest: Option<(seq<T>, nat)>)
    ensures Prepend(done, Prepend([t], rest)) == Prepend(done + [t], rest)
  {
    if rest.Some? {
      assert done + ([t] + rest.value.0) == done + [t] + rest.value.0;
    }
  }

  lemma {:induction false} FlowsStep(b: Octets, off: nat, k: nat, done: seq<U32>)
    requires k > 0
    ensures var f := Rd(b, off);
            Prepend(done, ParseFlows(b, off, k)) ==
            if f.None? || f.value.0 == 0 then None
            else Prepend(done + [f.value.0], ParseFlows(b, f.value.1, k - 1))
  {
    var f := Rd(b, off);
    if f.Some? && f.value.0 != 0 {
      PrependOne(done, f.value.0, ParseFlows(b, f.value.1, k - 1));
    }
  }

  /** Fill the fixed flow table from the dictionary. */
  method ReadFlows(b: Octets, start: nat, nfl: nat, table: array<U32>) returns (ok: bool, off: nat)
    requires nfl <= table.Length
    modifies table
    ensures ok == ParseFlows(b, start, nfl).Some?
    ensures ok ==> ParseFlows(b, start, nfl) == Some((table[..nfl], off))
  {
    off := start;
    ghost var all := ParseFlows(b, start, nfl);
    PrependNone(all);
    var i: nat := 0;
    while i < nfl
      invariant i <= nfl && Prepend(table[..i], ParseFlows(b, off, nfl - i)) == all
    {
      FlowsStep(b, off, nfl - i, table[..i]);
      var f, next := RdVarint(b, off);
      if f.None? || f.value == 0 {
        return false, off;
      }
      table[i] := f.value;
      assert table[..i + 1] == table[..i] + [f.value];
      off := next;
      i := i + 1;
    }
    assert table[..nfl] + [] == table[..nfl];
    ok := true;
  }

  /** One item: bounds-checked once, its payload not copied. */
  method ReadItem(b: Octets, off: nat, nfl: nat) returns (r: Option<(U8, U32, nat)>)
    ensures match ParseItem(b, off, nfl)
            case None => r.None?
            case Some((it, e)) => r == Some((it.idx, |it.payload|, e))
  {
    if off >= |b| {
      return None;
    }
    var idx := b[off];
    if idx >= nfl {
      return None;
    }
    var len, at := RdVarint(b, off + 1);
    if len.None? || at + len.value > |b| {
      return None;
    }
    r := Some((idx, len.value, at + len.value));
  }

  /** The sum of `k` items from offset `off`, or `None` unless they parse and end the frame. */
  function ItemsSum(b: Octets, off: nat, k: nat, flows: seq<U32>): (r: Option<nat>)
    decreases k
  {
    if k == 0 then if off == |b| then Some(0) else None
    else
      match ParseItem(b, off, |flows|)
      case None => None
      case Some((it, e)) => Plus(flows[it.idx] + |it.payload|, ItemsSum(b, e, k - 1, flows))
  }

  function Plus(n: nat, r: Option<nat>): (s: Option<nat>) {
    if r.None? then None else Some(n + r.value)
  }

  lemma {:induction false} ItemIndex(b: Octets, off: nat, nfl: nat)
    requires ParseItem(b, off, nfl).Some?
    ensures ParseItem(b, off, nfl).value.0.idx < nfl
  {
  }

  lemma {:induction false} ItemsSumIsParse(b: Octets, off: nat, k: nat, flows: seq<U32>)
    ensures match ParseItems(b, off, k, |flows|)
            case None => ItemsSum(b, off, k, flows) == None
            case Some((items, e)) =>
              IndicesBelow(items, |flows|) &&
              ItemsSum(b, off, k, flows) == if e == |b| then Some(Sum(flows, items)) else None
    decreases k
  {
    hide ParseItem;
    if k > 0 && ParseItem(b, off, |flows|).Some? {
      var (it, e) := ParseItem(b, off, |flows|).value;
      ItemIndex(b, off, |flows|);
      ItemsSumIsParse(b, e, k - 1, flows);
      var rest := ParseItems(b, e, k - 1, |flows|);
      if rest.Some? {
        assert ([it] + rest.value.0)[1..] == rest.value.0;
      }
    }
  }

  /** One turn of the item loop: where the next item starts and the new running sum. */
  method SumNext(b: Octets, off: nat, k: nat, flows: seq<U32>, sum: U64, ghost total: Option<nat>)
    returns (r: Option<(nat, U64)>)
    requires k > 0 && sum + 0x2_0000_0000 <= U64_MAX && Plus(sum, ItemsSum(b, off, k, flows)) == total
    ensures r.None? ==> total == None
    ensures r.Some? ==> r.value.1 <= sum + 0x2_0000_0000
    ensures r.Some? ==> Plus(r.value.1, ItemsSum(b, r.value.0, k - 1, flows)) == total
  {
    var it := ReadItem(b, off, |flows|);
    if it.None? {
      return None;
    }
    var (idx, len, next) := it.value;
    r := Some((next, WrappingAdd(WrappingAdd(sum, flows[idx]), len)));
  }

  /** The item pass: the running sum is a wrapping one, but 64 items cannot make it wrap. */
  method SumItems(b: Octets, start: nat, count: nat, flows: seq<U32>) returns (acc: Option<U64>)
    requires count <= R2_MAX_TRAIN_ITEMS
    ensures acc == ItemsSum(b, start, count, flows)
  {
    var off: nat, sum: U64, left: nat := start, 0, count;
    ghost var total := ItemsSum(b, start, count, flows);
    while left > 0
      invariant left <= count && sum <= 0x2_0000_0000 * (count - left)
      invariant Plus(sum, ItemsSum(b, off, left, flows)) == total
    {
      var step := SumNext(b, off, left, flows, sum, total);
      if step.None? {
        return None;
      }
      off, sum := step.value.0, step.value.1;
      left := left - 1;
    }
    acc := if off == |b| then Some(sum) else None;
  }

  /** One pass over the bytes computes the sum the reference parse denotes, and rejects what it rejects. */
  method RefDecodeTrainDict(b: Octets) returns (r: Option<U64>)
    ensures r == DictSum(b)
  {
    if |b| < 2 || b[0] != R2_TRAIN || b[1] != R2_TRAIN_FORM_DICT || |b| < 3 {
      return None;
    }
    var count := b[2];
    if count == 0 || count > R2_MAX_TRAIN_ITEMS || |b| < 4 {
      return None;
    }
    var nfl := b[3];
    if nfl == 0 || nfl > count || nfl > R2_MAX_TRAIN_ITEMS {
      return None;
    }
    var table := new U32[R2_MAX_TRAIN_ITEMS](_ => 0);
    var ok, off := ReadFlows(b, 4, nfl, table);
    if !ok {
      return None;
    }
    DictSumIsItemsSum(b);
    r := SumItems(b, off, count, table[..nfl]);
  }

  /** The sum a well-formed frame carries; at most 64 pairs of 32-bit numbers, so it never wraps. */
  function DictSum(b: Octets): (r: Option<U64>) {
    if ParseDict(b).None? then None
    else
      var (flows, items) := ParseDict(b).value;
      ParseDictWellFormed(b);
      SumBound(flows, items);
      Some(Sum(flows, items))
  }

  lemma {:induction false} DictSumIsItemsSum(b: Octets)
    requires |b| >= 4 && b[0] == R2_TRAIN && b[1] == R2_TRAIN_FORM_DICT
    requires 1 <= b[3] <= b[2] <= R2_MAX_TRAIN_ITEMS && ParseFlows(b, 4, b[3]).Some?
    ensures var (flows, off) := ParseFlows(b, 4, b[3]).value;
            ItemsSum(b, off, b[2], flows) == DictSum(b)
  {
    var (flows, off) := ParseFlows(b, 4, b[3]).value;
    ParseFlowsShape(b, 4, b[3]);
    ItemsSumIsParse(b, off, b[2], flows);
  }

  /** At most 64 items of a 32-bit id and a 32-bit length: the sum never wraps. */
  lemma {:induction false} SumBound(flows: seq<U32>, items: seq<DictItem>)
    requires IndicesBelow(items, |flows|) && PayloadsFit(items)
    ensures Sum(flows, items) <= 0x2_0000_0000 * |items|
  {
    if items != [] {
      SumBound(flows, items[1..]);
    }
  }

  // ---------- round trip and length ----------

  lemma {:induction false} ParseOfFlowBytes(b: Octets, off: nat, flows: seq<U32>, r: Option<(seq<U32>, nat)>)
    requires HoldsAt(b, off, FlowBytes(flows)) && r == ParseFlows(b, off, |flows|)
    requires forall i :: 0 <= i < |flows| ==> flows[i] != 0
    ensures r == Some((flows, off + |FlowBytes(flows)|))
    decreases |flows|
  {
    hide Rd, Leb, HoldsAt;
    if flows != [] {
      var (p, next) := (Leb(flows[0]), off + |Leb(flows[0])|);
      HoldsParts(b, off, p, FlowBytes(flows[1..]));
      RdOfLebAt(b, off, flows[0]);
      ParseOfFlowBytes(b, next, flows[1..], ParseFlows(b, next, |flows| - 1));
      assert flows == [flows[0]] + flows[1..];
    }
  }

  lemma {:induction false} ItemAt(b: Octets, off: nat, it: DictItem, w: Octets, nfl: nat)
    requires HoldsAt(b, off, [it.idx] + w + it.payload) && it.idx < nfl
    requires Rd(b, off + 1) == Some((|it.payload|, off + 1 + |w|))
    ensures ParseItem(b, off, nfl) == Some((it, off + 1 + |w| + |it.payload|))
  {
    HoldsParts(b, off, [it.idx] + w, it.payload);
    HoldsParts(b, off, [it.idx], w);
    assert b[off..off + 1][0] == it.idx;
  }

  lemma {:induction false} ParseOfItemBytes(b: Octets, off: nat, it: DictItem, nfl: nat)
    requires HoldsAt(b, off, ItemBytes(it)) && it.idx < nfl && |it.payload| < 0x1_0000_0000
    ensures ParseItem(b, off, nfl) == Some((it, off + |ItemBytes(it)|))
  {
    var w := Leb(|it.payload|);
    HoldsParts(b, off, [it.idx] + w, it.payload);
    HoldsParts(b, off, [it.idx], w);
    RdOfLebAt(b, off + 1, |it.payload|);
    ItemAt(b, off, it, w, nfl);
  }

  lemma {:induction false} HeadItem(b: Octets, off: nat, it: DictItem, rest: Octets, nfl: nat)
    requires HoldsAt(b, off, ItemBytes(it) + rest) && it.idx < nfl && |it.payload| < 0x1_0000_0000
    ensures ParseItem(b, off, nfl) == Some((it, off + |ItemBytes(it)|))
    ensures HoldsAt(b, off + |ItemBytes(it)|, rest)
  {
    HoldsParts(b, off, ItemBytes(it), rest);
    ParseOfItemBytes(b, off, it, nfl);
  }

  lemma {:induction false} ParseOfItemsBytes(b: Octets, off: nat, items: seq<DictItem>, nfl: nat)
    requires HoldsAt(b, off, ItemsBytes(items)) && IndicesBelow(items, nfl) && PayloadsFit(items)
    ensures ParseItems(b, off, |items|, nfl) == Some((items, off + |ItemsBytes(items)|))
    decreases |items|
  {
    hide ParseItem, ItemBytes;
    if items == [] {
    } else {
      var next := off + |ItemBytes(items[0])|;
      HeadItem(b, off, items[0], ItemsBytes(items[1..]), nfl);
      ParseOfItemsBytes(b, next, items[1..], nfl);
      assert items == [items[0]] + items[1..];
    }
  }

  lemma {:induction false} TrainLayout(flows: seq<U32>, items: seq<DictItem>)
    requires WellFormed(flows, items)
    ensures var b := TrainDict(flows, items);
            && |b| == 4 + |FlowBytes(flows)| + |ItemsBytes(items)|
            && b[0] == R2_TRAIN && b[1] == R2_TRAIN_FORM_DICT && b[2] == |items| && b[3] == |flows|
            && HoldsAt(b, 4, FlowBytes(flows)) && HoldsAt(b, 4 + |FlowBytes(flows)|, ItemsBytes(items))
  {
    hide FlowBytes, ItemsBytes;
    var b := TrainDict(flows, items);
    var head: Octets := [R2_TRAIN, R2_TRAIN_FORM_DICT, |items|, |flows|];
    assert b[0..|b|] == head + FlowBytes(flows) + ItemsBytes(items);
    HoldsParts(b, 0, head + FlowBytes(flows), ItemsBytes(items));
    HoldsParts(b, 0, head, FlowBytes(flows));
  }

  /**
    Every dictionary TRAIN built from well-formed parts decodes to exactly those parts and consumes
    every byte, so the one-pass decoder, which computes `DictSum`, returns exactly their sum.
   */
  lemma {:induction false} TrainRoundTrip(flows: seq<U32>, items: seq<DictItem>)
    requires WellFormed(flows, items)
    ensures ParseDict(TrainDict(flows, items)) == Some((flows, items))
    ensures DictSum(TrainDict(flows, items)) == Some(Sum(flows, items))
  {
    hide TrainDict, ParseFlows, ParseItems, FlowBytes, ItemsBytes, HoldsAt, Sum;
    var b := TrainDict(flows, items);
    TrainLayout(flows, items);
    ParseOfFlowBytes(b, 4, flows, ParseFlows(b, 4, |flows|));
    var off := 4 + |FlowBytes(flows)|;
    ParseOfItemsBytes(b, off, items, |flows|);
  }

  /** What the decoder gives back unchanged is exactly what is well-formed: counts, indices, nonzero ids, lengths. */
  lemma {:induction false} AcceptedExactly(flows: seq<U32>, items: seq<DictItem>)
    ensures ParseDict(TrainDict(flows, items)) == Some((flows, items)) <==> WellFormed(flows, items)
  {
    hide TrainDict, ParseDict;
    if WellFormed(flows, items) {
      TrainRoundTrip(flows, items);
    } else if ParseDict(TrainDict(flows, items)) == Some((flows, items)) {
      ParseDictWellFormed(TrainDict(flows, items));
    }
  }

  /**
    Distinct flow ids are no part of that: giving any flow of a well-formed frame the id of another
    leaves it accepted, and an item still goes to the flow its index names.
   */
  lemma {:induction false} RepeatedFlowAccepted(flows: seq<U32>, items: seq<DictItem>, i: nat, j: nat)
    requires WellFormed(flows, items) && i < |flows| && j < |flows|
    ensures var twice := flows[j := flows[i]];
            && ParseDict(TrainDict(twice, items)) == Some((twice, items))
            && DictSum(TrainDict(twice, items)) == Some(Sum(twice, items))
  {
    hide TrainDict, ParseDict, DictSum;
    TrainRoundTrip(flows[j := flows[i]], items);
  }

  function SumVarints(flows: seq<U32>): (n: nat) {
    if flows == [] then 0 else ModelLen(flows[0]) + SumVarints(flows[1..])
  }

  function SumItemSizes(sizes: seq<nat>): (n: nat) {
    if sizes == [] then 0 else 1 + ModelLen(sizes[0]) + sizes[0] + SumItemSizes(sizes[1..])
  }

  /** The byte model's closed form of the frame length. */
  function ModelTrainDict(flows: seq<U32>, sizes: seq<nat>): (n: nat) {
    4 + SumVarints(flows) + SumItemSizes(sizes)
  }

  function Sizes(items: seq<DictItem>): (s: seq<nat>)
    ensures |s| == |items|
  {
    seq(|items|, i requires 0 <= i < |items| => |items[i].payload|)
  }

  lemma {:induction false} FlowBytesLength(flows: seq<U32>)
    ensures |FlowBytes(flows)| == SumVarints(flows)
  {
    if flows != [] {
      LebLength(flows[0]);
      FlowBytesLength(flows[1..]);
    }
  }

  lemma {:induction false} ItemBytesLength(it: DictItem)
    requires |it.payload| < 0x1_0000_0000
    ensures |ItemBytes(it)| == 1 + ModelLen(|it.payload|) + |it.payload|
  {
    LebLength(|it.payload|);
  }

  lemma {:induction false} ItemsBytesLength(items: seq<DictItem>)
    requires PayloadsFit(items)
    ensures |ItemsBytes(items)| == SumItemSizes(Sizes(items))
  {
    if items != [] {
      ItemBytesLength(items[0]);
      ItemsBytesLength(items[1..]);
      assert Sizes(items)[1..] == Sizes(items[1..]);
    }
  }

  /** The encoded length is the closed form. */
  lemma {:induction false} TrainLengthIsModel(flows: seq<U32>, items: seq<DictItem>)
    requires PayloadsFit(items)
    ensures |TrainDict(flows, items)| == ModelTrainDict(flows, Sizes(items))
  {
    FlowBytesLength(flows);
    ItemsBytesLength(items);
  }

  lemma {:induction false} ParsedFlowsNoShorter(b: Octets, off: nat, k: nat)
    requires ParseFlows(b, off, k).Some?
    ensures off + |FlowBytes(ParseFlows(b, off, k).value.0)| <= ParseFlows(b, off, k).value.1
    decreases k
  {
    if k > 0 {
      LebOfRd(b, off, 0);
      ParsedFlowsNoShorter(b, Rd(b, off).value.1, k - 1);
      var rest := ParseFlows(b, Rd(b, off).value.1, k - 1).value.0;
      assert ([Rd(b, off).value.0] + rest)[1..] == rest;
    }
  }

  lemma {:induction false} ParsedItemNoShorter(b: Octets, off: nat, nfl: nat)
    requires ParseItem(b, off, nfl).Some?
    ensures off + |ItemBytes(ParseItem(b, off, nfl).value.0)| <= ParseItem(b, off, nfl).value.1
  {
    LebOfRd(b, off + 1, 0);
  }

  lemma {:induction false} ParsedItemsNoShorter(b: Octets, off: nat, k: nat, nfl: nat)
    requires ParseItems(b, off, k, nfl).Some?
    ensures off + |ItemsBytes(ParseItems(b, off, k, nfl).value.0)| <= ParseItems(b, off, k, nfl).value.1
    decreases k
  {
    if k > 0 {
      ParsedItemNoShorter(b, off, nfl);
      var (it, next) := ParseItem(b, off, nfl).value;
      ParsedItemsNoShorter(b, next, k - 1, nfl);
      var rest := ParseItems(b, next, k - 1, nfl).value.0;
      assert ([it] + rest)[1..] == rest;
    }
  }

  /**
    Whatever the decoder accepts, padded integers included, re-encodes to a frame that is no longer
    and decodes to the same contents.
   */
  lemma {:induction false} ReencodeNormalises(b: Octets)
    requires ParseDict(b).Some?
    ensures var (flows, items) := ParseDict(b).value;
            ParseDict(TrainDict(flows, items)) == Some((flows, items)) && |TrainDict(flows, items)| <= |b|
  {
    var (flows, items) := ParseDict(b).value;
    ParseDictWellFormed(b);
    TrainRoundTrip(flows, items);
    ParsedFlowsNoShorter(b, 4, b[3]);
    ParsedItemsNoShorter(b, ParseFlows(b, 4, b[3]).value.1, b[2], b[3]);
  }

  /** A dictionary frame starts with 4, 1, the number of items and the number of flows. */
  lemma {:induction false} TrainHead(flows: seq<U32>, items: seq<DictItem>)
    requires WellFormed(flows, items)
    ensures TrainDict(flows, items)[..4] == [4, 1, |items|, |flows|]
    ensures TrainDict(flows, items)[4..] == FlowBytes(flows) + ItemsBytes(items)
  {
    hide FlowBytes, ItemsBytes;
    var rest := FlowBytes(flows) + ItemsBytes(items);
    assert TrainDict(flows, items) == [4, 1, |items|, |flows|] + rest;
  }

  /** Items add up: one is worth the id its index names and its length, and more are worth their sum. */
  lemma {:induction false} SumAdds(flows: seq<U32>, it: DictItem, a: seq<DictItem>, b: seq<DictItem>)
    requires it.idx < |flows| && IndicesBelow(a, |flows|) && IndicesBelow(b, |flows|)
    ensures Sum(flows, [it]) == flows[it.idx] + |it.payload|
    ensures Sum(flows, a + b) == Sum(flows, a) + Sum(flows, b)
    decreases |a|
  {
    assert [it][1..] == [];
    if a == [] {
      assert a + b == b;
    } else {
      assert (a + b)[1..] == a[1..] + b;
      SumAdds(flows, it, a[1..], b);
    }
  }
}
