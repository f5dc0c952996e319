/** The packer: a dynamic program picks the shortest encoding, a backtrack writes it out, a decoder checks it. */
module RlePacker {
  import opened Bytes
  import opened RleFormat

  const MAX_RAW_SIZE := 128 * 1024
  const INFINITE_COST := 999999999

  /** One entry of the dynamic program: the last token of the best encoding found of the first `offset` bytes. */
  datatype DpItem = DpItem(codeByte: byte, codeByte2: byte, rawRegion: nat, cost: int, parent: int, offset: nat)

  // ----- tokens as steps from one offset of the input to a later one

  /** Token `t` encodes exactly the bytes from `start` up to `end`. */
  predicate Step(raw: seq<byte>, start: nat, end: nat, t: Token) {
    start <= end <= |raw| && ValidToken(t) && Expand(t) == raw[start..end]
  }

  predicate RunSpan(raw: seq<byte>, start: nat, end: nat) {
    start < end <= |raw| && forall k | start <= k < end :: raw[k] == raw[start]
  }

  predicate PairAt(raw: seq<byte>, start: nat, i: nat) {
    && start + 2 * i + 2 <= |raw|
    && raw[start + 2 * i] == raw[start] && raw[start + 2 * i + 1] == raw[start + 1]
  }

  predicate PairSpan(raw: seq<byte>, start: nat, pairs: nat) {
    1 <= pairs && start + 2 * pairs <= |raw| && forall i: nat | i < pairs :: PairAt(raw, start, i)
  }

  /** The token an entry's code bytes and source region stand for when they are written out. */
  function ItemToken(raw: seq<byte>, item: DpItem): Token
    requires item.rawRegion + 1 < |raw| || (item.codeByte != 0x80 && item.rawRegion < |raw|)
    requires item.codeByte < 0x80 ==> item.rawRegion + item.codeByte <= |raw|
  {
    if item.codeByte == 0x80 then Pairs(item.codeByte2, raw[item.rawRegion], raw[item.rawRegion + 1])
    else if item.codeByte >= 0x80 then Run(item.codeByte - 0x80, raw[item.rawRegion])
    else Raw(raw[item.rawRegion..item.rawRegion + item.codeByte])
  }

  /** Entry `item` was recorded for offset `end` by a token that starts at its parent. */
  predicate Records(raw: seq<byte>, item: DpItem, end: nat) {
    && 0 <= item.parent < end <= |raw|
    && item.rawRegion == item.parent
    && (item.codeByte == 0x80 ==> item.rawRegion + 1 < |raw|)
    && (item.codeByte < 0x80 ==> item.rawRegion + item.codeByte <= |raw|)
    && Step(raw, item.parent, end, ItemToken(raw, item))
  }

  lemma RawRecords(raw: seq<byte>, item: DpItem, start: nat, end: nat)
    requires start < end <= |raw| && end - start <= 127
    requires item.codeByte == end - start && item.rawRegion == start && item.parent == start
    ensures Records(raw, item, end) && Cost(ItemToken(raw, item)) == 1 + (end - start)
  {
    assert start + item.codeByte == end;
  }

  lemma RunRecords(raw: seq<byte>, item: DpItem, start: nat, end: nat)
    requires RunSpan(raw, start, end) && end - start <= 127
    requires item.codeByte == 0x80 + (end - start) && item.rawRegion == start && item.parent == start
    ensures Records(raw, item, end) && Cost(ItemToken(raw, item)) == 2
  {
    assert Expand(Run(end - start, raw[start])) == raw[start..end];
  }

  lemma PairStep(raw: seq<byte>, start: nat, pairs: nat)
    requires PairSpan(raw, start, pairs) && pairs <= 255
    ensures Step(raw, start, start + 2 * pairs, Pairs(pairs, raw[start], raw[start + 1]))
  {
    var e := Expand(Pairs(pairs, raw[start], raw[start + 1]));
    forall k | 0 <= k < 2 * pairs
      ensures e[k] == raw[start + k]
    {
      assert PairAt(raw, start, k / 2);
      assert k == 2 * (k / 2) || k == 2 * (k / 2) + 1;
    }
    assert e == raw[start..start + 2 * pairs];
  }

  lemma PairRecords(raw: seq<byte>, item: DpItem, start: nat, end: nat, pairs: nat)
    requires 1 <= pairs <= 255 && end == start + 2 * pairs <= |raw|
    requires PairSpan(raw, start, pairs)
    requires item.codeByte == 0x80 && item.codeByte2 == (end - start) / 2
    requires item.rawRegion == start && item.parent == start
    ensures Records(raw, item, end) && Cost(ItemToken(raw, item)) == 4
  {
    PairStep(raw, start, pairs);
  }

  /** The three relaxation loops look at every step that leaves `start`. */
  lemma StepKinds(raw: seq<byte>, start: nat, end: nat, t: Token)
    requires Step(raw, start, end, t)
    ensures start < end
    ensures t.Raw? ==> end - start <= 127 && Cost(t) == 1 + (end - start)
    ensures t.Run? ==> end - start <= 127 && RunSpan(raw, start, end)
    ensures t.Pairs? ==> t.count <= 255 && end == start + 2 * t.count && PairSpan(raw, start, t.count)
  {
    var e := Expand(t);
    assert |e| == end - start;
    assert forall k | start <= k < end :: raw[k] == e[k - start];
  }

  // ----- the table, as a sequence of entries

  ghost predicate Table(raw: seq<byte>, dp: seq<DpItem>) {
    1 <= |raw| <= MAX_RAW_SIZE && |dp| == MAX_RAW_SIZE + 1 && dp[0].cost == 0
  }

  /** Entry `n` still holds the sentinel. */
  ghost predicate Untouched(item: DpItem) {
    item.cost == INFINITE_COST && item.parent == -1
  }

  /** Entry `n` holds a step from a parent at or before `start`, at that parent's cost plus the step's. */
  ghost predicate Reached(raw: seq<byte>, dp: seq<DpItem>, n: nat, start: nat)
    requires Table(raw, dp) && n < |dp|
  {
    && Records(raw, dp[n], n) && dp[n].parent <= start
    && dp[n].cost == dp[dp[n].parent].cost + Cost(ItemToken(raw, dp[n]))
  }

  ghost predicate Recorded(raw: seq<byte>, dp: seq<DpItem>, start: nat)
    requires Table(raw, dp)
  {
    forall n: nat {:trigger Reached(raw, dp, n, start)} | 1 <= n <= |raw| ::
        Untouched(dp[n]) || Reached(raw, dp, n, start)
  }

  /** No step that leaves `start` improves on the table. */
  ghost predicate Relaxed(raw: seq<byte>, dp: seq<DpItem>, start: nat)
    requires Table(raw, dp) && start < |raw|
  {
    forall end: nat, t | start <= end <= |raw| && Step(raw, start, end, t) :: dp[end].cost <= dp[start].cost + Cost(t)
  }

  /** Entries up to `start` are finite, so adding a step to them never reaches the sentinel. */
  ghost predicate Finite(raw: seq<byte>, dp: seq<DpItem>, start: nat)
    requires Table(raw, dp) && start <= |raw|
  {
    forall n: nat | n <= start :: 0 <= dp[n].cost <= 2 * n
  }

  /** What relaxing from `start` may do: lower the cost of later entries. */
  ghost predicate Improves(before: seq<DpItem>, after: seq<DpItem>, start: nat) {
    && |before| == |after|
    && (forall n: nat | n <= start && n < |before| :: after[n] == before[n])
    && (forall n: nat | n < |before| :: after[n].cost <= before[n].cost)
  }

  /** All steps of one kind that leave `start` have been offered. */
  ghost predicate RawOffered(raw: seq<byte>, dp: seq<DpItem>, start: nat)
    requires Table(raw, dp) && start < |raw|
  {
    forall end: nat | start < end <= |raw| && end - start <= 127 :: dp[end].cost <= dp[start].cost + 1 + (end - start)
  }

  ghost predicate RunOffered(raw: seq<byte>, dp: seq<DpItem>, start: nat)
    requires Table(raw, dp) && start < |raw|
  {
    forall end: nat | RunSpan(raw, start, end) && end - start <= 127 :: dp[end].cost <= dp[start].cost + 2
  }

  ghost predicate PairsOffered(raw: seq<byte>, dp: seq<DpItem>, start: nat, limit: nat)
    requires Table(raw, dp) && start < |raw|
  {
    forall pairs: nat | PairSpan(raw, start, pairs) && pairs < limit :: dp[start + 2 * pairs].cost <= dp[start].cost + 4
  }

  lemma OfferKeepsRecorded(raw: seq<byte>, dp: seq<DpItem>, start: nat, end: nat, item: DpItem)
    requires Table(raw, dp) && Recorded(raw, dp, start) && start < end <= |raw|
    requires Records(raw, item, end) && item.parent == start && item.cost == dp[start].cost + Cost(ItemToken(raw, item))
    ensures Recorded(raw, dp[end := item], start)
  {
    var after := dp[end := item];
    forall n: nat | 1 <= n <= |raw|
      ensures Untouched(after[n]) || Reached(raw, after, n, start)
    {
      if n != end && !Untouched(dp[n]) {
        assert Reached(raw, dp, n, start);
      }
    }
  }

  ghost predicate AllRelaxed(raw: seq<byte>, dp: seq<DpItem>, start: nat)
    requires Table(raw, dp) && start <= |raw|
  {
    forall s: nat | s < start :: Relaxed(raw, dp, s)
  }

  /** Relaxing one more offset undoes none of the earlier ones. */
  lemma NextRelaxed(raw: seq<byte>, before: seq<DpItem>, after: seq<DpItem>, start: nat)
    requires Table(raw, before) && Table(raw, after) && start < |raw|
    requires AllRelaxed(raw, before, start) && Improves(before, after, start) && Relaxed(raw, after, start)
    ensures AllRelaxed(raw, after, start + 1)
  {
    forall s: nat, end: nat, t | s < start && s <= end <= |raw| && Step(raw, s, end, t)
      ensures after[end].cost <= after[s].cost + Cost(t)
    {
      assert Relaxed(raw, before, s);
      assert before[end].cost <= before[s].cost + Cost(t);
    }
  }

  lemma NextPairsOffered(raw: seq<byte>, before: seq<DpItem>, after: seq<DpItem>, start: nat, pairs: nat)
    requires Table(raw, before) && Table(raw, after) && start < |raw| && Improves(before, after, start)
    requires PairsOffered(raw, before, start, pairs)
    requires start + 2 * pairs <= |raw| && after[start + 2 * pairs].cost <= after[start].cost + 4
    ensures PairsOffered(raw, after, start, pairs + 1)
  {
  }

  /** Where a pair first fails to match, no longer span is left to offer. */
  lemma NoMorePairs(raw: seq<byte>, dp: seq<DpItem>, start: nat, pairs: nat)
    requires Table(raw, dp) && start < |raw| && 1 <= pairs <= 256 && PairsOffered(raw, dp, start, pairs)
    requires pairs == 256 || !PairAt(raw, start, pairs - 1)
    ensures PairsOffered(raw, dp, start, 256)
  {
  }

  /** The three loops together relax `start`: every step is of one of their kinds. */
  lemma RelaxedByLoops(raw: seq<byte>, dp: seq<DpItem>, start: nat)
    requires Table(raw, dp) && start < |raw|
    requires RawOffered(raw, dp, start) && RunOffered(raw, dp, start) && PairsOffered(raw, dp, start, 256)
    ensures Relaxed(raw, dp, start)
  {
    forall end: nat, t | start <= end <= |raw| && Step(raw, start, end, t)
      ensures dp[end].cost <= dp[start].cost + Cost(t)
    {
      StepKinds(raw, start, end, t);
    }
  }

  lemma NextRecorded(raw: seq<byte>, dp: seq<DpItem>, start: nat)
    requires Table(raw, dp) && start < |raw| && Recorded(raw, dp, start)
    ensures Recorded(raw, dp, start + 1)
  {
    forall n: nat | 1 <= n <= |raw|
      ensures Untouched(dp[n]) || Reached(raw, dp, n, start + 1)
    {
      assert Untouched(dp[n]) || Reached(raw, dp, n, start);
    }
  }

  lemma RawOfferedKept(raw: seq<byte>, before: seq<DpItem>, after: seq<DpItem>, start: nat)
    requires Table(raw, before) && Table(raw, after) && start < |raw| && Improves(before, after, start)
    requires RawOffered(raw, before, start)
    ensures RawOffered(raw, after, start)
  {
    assert forall end: nat | end < |before| :: after[end].cost <= before[end].cost;
  }

  lemma RunOfferedKept(raw: seq<byte>, before: seq<DpItem>, after: seq<DpItem>, start: nat)
    requires Table(raw, before) && Table(raw, after) && start < |raw| && Improves(before, after, start)
    requires RunOffered(raw, before, start)
    ensures RunOffered(raw, after, start)
  {
    assert forall end: nat | end < |before| :: after[end].cost <= before[end].cost;
  }

  /** The one-byte literal keeps the next entry finite. */
  lemma NextFinite(raw: seq<byte>, before: seq<DpItem>, after: seq<DpItem>, start: nat)
    requires Table(raw, before) && Table(raw, after) && start < |raw|
    requires Finite(raw, before, start) && Improves(before, after, start)
    requires Relaxed(raw, after, start) && Recorded(raw, after, start)
    ensures Finite(raw, after, start + 1)
  {
    var next := Raw(raw[start..start + 1]);
    assert Step(raw, start, start + 1, next);
    var n := start + 1;
    if !Untouched(after[n]) {
      assert Reached(raw, after, n, start);
    }
  }

  // ----- what a relaxed table means

  /** Every offset has been reached: no sentinel is left. */
  ghost predicate Complete(raw: seq<byte>, dp: seq<DpItem>)
  {
    Table(raw, dp) && forall n: nat {:trigger Reached(raw, dp, n, |raw|)} | 1 <= n <= |raw| ::
        Reached(raw, dp, n, |raw|)
  }

  lemma SentinelGone(raw: seq<byte>, dp: seq<DpItem>)
    requires Table(raw, dp) && Recorded(raw, dp, |raw|) && Finite(raw, dp, |raw|)
    ensures Complete(raw, dp)
  {
    forall n: nat | 1 <= n <= |raw|
      ensures Reached(raw, dp, n, |raw|)
    {
      assert !Untouched(dp[n]);
    }
  }

  /** The token recorded for offset `n`. */
  ghost function TokenOf(raw: seq<byte>, dp: seq<DpItem>, n: nat): (t: Token)
    requires Complete(raw, dp) && 1 <= n <= |raw|
    ensures 0 <= dp[n].parent < n && Step(raw, dp[n].parent, n, t)
    ensures dp[n].cost == dp[dp[n].parent].cost + Cost(t)
  {
    assert Reached(raw, dp, n, |raw|);
    ItemToken(raw, dp[n])
  }

  /** The tokens the parent links spell for the first `n` bytes. */
  ghost function Chain(raw: seq<byte>, dp: seq<DpItem>, n: nat): (ts: seq<Token>)
    requires Complete(raw, dp) && n <= |raw|
    ensures ValidTokens(ts)
  {
    if n == 0 then [] else
    var t := TokenOf(raw, dp, n);
    Chain(raw, dp, dp[n].parent) + [t]
  }

  lemma {:induction false} ChainEncodes(raw: seq<byte>, dp: seq<DpItem>, n: nat)
    requires Complete(raw, dp) && n <= |raw|
    ensures ExpandAll(Chain(raw, dp, n)) == raw[..n]
    ensures CostAll(Chain(raw, dp, n)) == dp[n].cost
  {
    if n != 0 {
      var t := TokenOf(raw, dp, n);
      var m := dp[n].parent;
      var init := Chain(raw, dp, m);
      assert Chain(raw, dp, n) == init + [t];
      ChainEncodes(raw, dp, m);
      SnocEncodes(raw, init, m, n, t);
    }
  }

  lemma SnocEncodes(raw: seq<byte>, init: seq<Token>, m: nat, n: nat, t: Token)
    requires Step(raw, m, n, t) && ExpandAll(init) == raw[..m]
    ensures ExpandAll(init + [t]) == raw[..n]
    ensures CostAll(init + [t]) == CostAll(init) + Cost(t)
  {
    ExpandAllSnoc(init, t);
    CostAllSnoc(init, t);
    assert raw[..n] == raw[..m] + raw[m..n];
  }

  /** The offset queued after place `i`: at the end, the one to go on with. */
  function Linked(queue: seq<nat>, offset: nat, i: nat): nat
    requires i < |queue|
  {
    if i + 1 < |queue| then queue[i + 1] else offset
  }

  /** A queue of offsets that follows the parent links from the end of the input down to `offset`. */
  ghost predicate Links(raw: seq<byte>, dp: seq<DpItem>, queue: seq<nat>, offset: nat)
    requires Complete(raw, dp)
  {
    && (forall i | 0 <= i < |queue| :: 1 <= queue[i] <= |raw|)
    && (forall i | 0 <= i < |queue| :: dp[queue[i]].parent == Linked(queue, offset, i))
    && (if queue == [] then offset else queue[0]) == |raw|
  }

  lemma LinksMore(raw: seq<byte>, dp: seq<DpItem>, queue: seq<nat>, offset: nat)
    requires Complete(raw, dp) && Links(raw, dp, queue, offset) && 1 <= offset <= |raw|
    ensures 0 <= dp[offset].parent < offset && Links(raw, dp, queue + [offset], dp[offset].parent)
  {
    assert Reached(raw, dp, offset, |raw|);
    var more, parent := queue + [offset], dp[offset].parent;
    forall i | 0 <= i < |more|
      ensures dp[more[i]].parent == Linked(more, parent, i)
    {
      if i < |queue| {
        assert more[i] == queue[i];
        assert Linked(more, parent, i) == Linked(queue, offset, i);
      }
    }
  }

  /** The offset queued at place `i`, or the start of the input. */
  function QueuedAt(queue: seq<nat>, i: nat): nat {
    if i < |queue| then queue[i] else 0
  }

  lemma NothingWritten(raw: seq<byte>, dp: seq<DpItem>)
    requires Complete(raw, dp)
    ensures EmitAll(Chain(raw, dp, 0)) == []
  {
  }

  /** The chain to an offset ends with the token recorded there. */
  lemma ChainStep(raw: seq<byte>, dp: seq<DpItem>, n: nat)
    requires Complete(raw, dp) && 1 <= n <= |raw|
    ensures 0 <= dp[n].parent < n
    ensures EmitAll(Chain(raw, dp, n)) == EmitAll(Chain(raw, dp, dp[n].parent)) + Emit(TokenOf(raw, dp, n))
  {
    var t := TokenOf(raw, dp, n);
    EmitAllSnoc(Chain(raw, dp, dp[n].parent), t);
  }

  /** No tokens encode a prefix of the input in fewer bytes than the table says. */
  lemma {:induction false} TableIsOptimal(raw: seq<byte>, dp: seq<DpItem>, n: nat, ts: seq<Token>)
    requires Table(raw, dp) && AllRelaxed(raw, dp, |raw|)
    requires n <= |raw| && ValidTokens(ts) && ExpandAll(ts) == raw[..n]
    ensures dp[n].cost <= CostAll(ts)
    decreases |ts|
  {
    if ts != [] {
      var init, t := ts[..|ts| - 1], ts[|ts| - 1];
      assert ts == init + [t];
      ExpandAllSnoc(init, t);
      CostAllSnoc(init, t);
      var m := |ExpandAll(init)|;
      assert raw[..m] == raw[..n][..m] == ExpandAll(init);
      TableIsOptimal(raw, dp, m, init);
      assert Expand(t) == raw[..n][m..] == raw[m..n];
      assert Step(raw, m, n, t);
      StepKinds(raw, m, n, t);
      assert Relaxed(raw, dp, m);
    }
  }

  /** Literal tokens of 127 bytes, and one for what is left over. */
  function Literals(data: seq<byte>): (ts: seq<Token>)
    ensures ValidTokens(ts)
  {
    if |data| == 0 then []
    else if |data| <= 127 then [Raw(data)]
    else [Raw(data[..127])] + Literals(data[127..])
  }

  lemma {:induction false} LiteralsCost(data: seq<byte>)
    ensures ExpandAll(Literals(data)) == data
    ensures CostAll(Literals(data)) == |data| + (|data| + 126) / 127
  {
    if 1 <= |data| <= 127 {
      assert [Raw(data)][1..] == [];
    } else if |data| > 127 {
      LiteralsCost(data[127..]);
      assert Literals(data)[1..] == Literals(data[127..]);
      assert data == data[..127] + data[127..];
    }
  }

  /** Every entry is within one byte per 127 of the input it covers. */
  lemma CostBound(raw: seq<byte>, dp: seq<DpItem>, n: nat)
    requires Table(raw, dp) && AllRelaxed(raw, dp, |raw|) && n <= |raw|
    ensures dp[n].cost <= n + (n + 126) / 127
  {
    LiteralsCost(raw[..n]);
    TableIsOptimal(raw, dp, n, Literals(raw[..n]));
  }

  /** The dynamic program's table and the loops that fill it. */
  class Packer {
    const raw: seq<byte>
    const dp: array<DpItem>

    ghost predicate Valid()
      reads dp
    {
      Table(raw, dp[..])
    }

    constructor (input: seq<byte>)
      requires 1 <= |input| <= MAX_RAW_SIZE
      ensures Valid() && fresh(dp) && raw == input
      ensures Recorded(raw, dp[..], 0) && Finite(raw, dp[..], 0)
    {
      raw := input;
      dp := new DpItem[MAX_RAW_SIZE + 1];
      new;
      var i := 0;
      while i <= MAX_RAW_SIZE
        invariant 0 <= i <= MAX_RAW_SIZE + 1
        invariant forall k | 0 <= k < i :: dp[k] == DpItem(0, 0, 0, INFINITE_COST, -1, k)
      {
        dp[i] := DpItem(0, 0, 0, INFINITE_COST, -1, i);
        i := i + 1;
      }
      dp[0] := dp[0].(cost := 0);
    }

    /** Records a step from `start` to `end` if it is cheaper than what is recorded there. */
    method Offer(start: nat, end: nat, item: DpItem)
      requires Valid() && start < end <= |raw| && Recorded(raw, dp[..], start)
      requires Records(raw, item, end) && item.parent == start
      requires item.cost == dp[start].cost + Cost(ItemToken(raw, item))
      modifies dp
      ensures Valid() && Recorded(raw, dp[..], start)
      ensures dp[..] == (if item.cost < old(dp[end]).cost then old(dp[..])[end := item] else old(dp[..]))
    {
      if item.cost < dp[end].cost {
        OfferKeepsRecorded(raw, dp[..], start, end, item);
        dp[end] := item;
      }
    }

    /** Offers every literal run of up to 127 bytes. */
    method RelaxRaw(start: nat)
      requires Valid() && start < |raw| && Recorded(raw, dp[..], start)
      modifies dp
      ensures Valid() && Improves(old(dp[..]), dp[..], start) && Recorded(raw, dp[..], start)
      ensures RawOffered(raw, dp[..], start)
    {
      var end := start + 1;
      while end <= |raw| && end - start < 128
        invariant start < end <= |raw| + 1 && end - start <= 128
        invariant Valid() && Improves(old(dp[..]), dp[..], start) && Recorded(raw, dp[..], start)
        invariant forall e | start < e < end :: dp[e].cost <= dp[start].cost + 1 + (e - start)
      {
        var thisCost := 1 + (end - start);
        var item := dp[end].(codeByte := end - start, cost := thisCost + dp[start].cost, rawRegion := start,
                                 parent := start);
        RawRecords(raw, item, start, end);
        Offer(start, end, item);
        end := end + 1;
      }
    }

    /** Offers every run of one repeated byte, up to 127 of them. */
    method RelaxRun(start: nat)
      requires Valid() && start < |raw| && Recorded(raw, dp[..], start)
      modifies dp
      ensures Valid() && Improves(old(dp[..]), dp[..], start) && Recorded(raw, dp[..], start)
      ensures RunOffered(raw, dp[..], start)
    {
      var end := start + 1;
      while end <= |raw| && raw[end - 1] == raw[start] && end - start < 128
        invariant start < end <= |raw| + 1 && end - start <= 128
        invariant Valid() && Improves(old(dp[..]), dp[..], start) && Recorded(raw, dp[..], start)
        invariant forall k | start <= k < end - 1 :: raw[k] == raw[start]
        invariant forall e | start < e < end :: dp[e].cost <= dp[start].cost + 2
      {
        var item := dp[end].(codeByte := 0x80 + (end - start), cost := 2 + dp[start].cost, rawRegion := start,
                                 parent := start);
        RunRecords(raw, item, start, end);
        Offer(start, end, item);
        end := end + 1;
      }
    }

    method OfferPairs(start: nat, end: nat, ghost pairs: nat)
      requires Valid() && Recorded(raw, dp[..], start)
      requires 1 <= pairs <= 255 && end == start + 2 * pairs <= |raw|
      requires PairsOffered(raw, dp[..], start, pairs)
      requires PairSpan(raw, start, pairs)
      modifies dp
      ensures Valid() && Improves(old(dp[..]), dp[..], start) && Recorded(raw, dp[..], start)
      ensures PairsOffered(raw, dp[..], start, pairs + 1)
    {
      var item := dp[end].(codeByte := 0x80, codeByte2 := (end - start) / 2, cost := 4 + dp[start].cost,
                           rawRegion := start, parent := start);
      PairRecords(raw, item, start, end, pairs);
      Offer(start, end, item);
      NextPairsOffered(raw, old(dp[..]), dp[..], start, pairs);
    }

    /** Offers every run of one repeated pair of bytes, up to 255 of them. */
    method RelaxPairs(start: nat)
      requires Valid() && start < |raw| && Recorded(raw, dp[..], start)
      modifies dp
      ensures Valid() && Improves(old(dp[..]), dp[..], start) && Recorded(raw, dp[..], start)
      ensures PairsOffered(raw, dp[..], start, 256)
    {
      var end := start + 2;
      ghost var pairs: nat := 1;
      while end <= |raw| && raw[end - 2] == raw[start] && raw[end - 1] == raw[start + 1] && end - start < 512
        invariant end == start + 2 * pairs && 1 <= pairs <= 256
        invariant pairs == 1 || PairSpan(raw, start, pairs - 1)
        invariant Valid() && Improves(old(dp[..]), dp[..], start) && Recorded(raw, dp[..], start)
        invariant PairsOffered(raw, dp[..], start, pairs)
      {
        assert PairAt(raw, start, pairs - 1);
        OfferPairs(start, end, pairs);
        end := end + 2;
        pairs := pairs + 1;
      }
      NoMorePairs(raw, dp[..], start, pairs);
    }

    /** Offers every step that leaves `start`. */
    method RelaxFrom(start: nat)
      requires Valid() && start < |raw| && Recorded(raw, dp[..], start)
      modifies dp
      ensures Valid() && Improves(old(dp[..]), dp[..], start) && Recorded(raw, dp[..], start)
      ensures Relaxed(raw, dp[..], start)
    {
      RelaxRaw(start);
      ghost var afterRaw := dp[..];
      RelaxRun(start);
      ghost var afterRun := dp[..];
      RelaxPairs(start);
      RawOfferedKept(raw, afterRaw, afterRun, start);
      RawOfferedKept(raw, afterRun, dp[..], start);
      RunOfferedKept(raw, afterRun, dp[..], start);
      RelaxedByLoops(raw, dp[..], start);
    }

    /** Fills the table; afterwards no step anywhere improves on it. */
    method Relax()
      requires Valid() && Recorded(raw, dp[..], 0) && Finite(raw, dp[..], 0)
      modifies dp
      ensures Valid() && Recorded(raw, dp[..], |raw|) && Finite(raw, dp[..], |raw|)
      ensures AllRelaxed(raw, dp[..], |raw|)
    {
      var start := 0;
      while start < |raw|
        invariant 0 <= start <= |raw|
        invariant Valid() && Recorded(raw, dp[..], start) && Finite(raw, dp[..], start)
        invariant AllRelaxed(raw, dp[..], start)
      {
        ghost var before := dp[..];
        RelaxFrom(start);
        NextRelaxed(raw, before, dp[..], start);
        NextFinite(raw, before, dp[..], start);
        NextRecorded(raw, dp[..], start);
        start := start + 1;
      }
    }

    /** Follows the parent links from the end of the input to its start. */
    method Backtrack() returns (status: Status, queue: seq<nat>)
      requires Complete(raw, dp[..])
      ensures status == Done && Links(raw, dp[..], queue, 0)
    {
      ghost var table := dp[..];
      queue := [];
      var offset := |raw|;
      while offset > 0
        invariant 0 <= offset <= |raw| && Links(raw, table, queue, offset)
      {
        LinksMore(raw, table, queue, offset);
        queue := queue + [offset];
        if dp[offset].parent >= offset {
          return CircularPath, queue;
        }
        offset := dp[offset].parent;
      }
      return Done, queue;
    }

    /** Writes the queued tokens, last first, and the terminator. */
    method Write(queue: seq<nat>) returns (file: seq<byte>)
      requires Complete(raw, dp[..]) && Links(raw, dp[..], queue, 0)
      ensures file == EmitAll(Chain(raw, dp[..], |raw|)) + [0x00]
    {
      hide EmitAll, Emit, Chain;
      ghost var table := dp[..];
      NothingWritten(raw, table);
      file := [];
      var i := |queue| - 1;
      while i >= 0
        invariant -1 <= i < |queue|
        invariant file == EmitAll(Chain(raw, table, QueuedAt(queue, i + 1)))
      {
        assert Reached(raw, table, queue[i], |raw|);
        file := WriteItem(raw, file, dp[queue[i]], queue[i]);
        ChainStep(raw, table, queue[i]);
        assert Linked(queue, 0, i) == QueuedAt(queue, i + 1);
        i := i - 1;
      }
      file := file + [0x00];
    }
  }

  /** Writes one token: its code byte, then what follows that code byte. */
  method WriteItem(raw: seq<byte>, file: seq<byte>, item: DpItem, end: nat) returns (longer: seq<byte>)
    requires Records(raw, item, end)
    ensures longer == file + Emit(ItemToken(raw, item))
  {
    longer := file + [item.codeByte];
    if item.codeByte == 0x80 {
      longer := longer + [item.codeByte2];
      longer := longer + [raw[item.rawRegion]];
      longer := longer + [raw[item.rawRegion + 1]];
    } else if item.codeByte >= 0x80 {
      longer := longer + [raw[item.rawRegion]];
    } else {
      longer := longer + raw[item.rawRegion..item.rawRegion + item.codeByte];
    }
  }

  /** Repeats a pair of bytes into a buffer. */
  method FillPairs(unpacked: array<byte>, at: nat, count: nat, first: byte, second: byte) returns (end: nat)
    requires at + 2 * count <= unpacked.Length
    modifies unpacked
    ensures end == at + 2 * count
    ensures unpacked[..end] == old(unpacked[..at]) + Expand(Pairs(count, first, second))
  {
    end := at;
    var k := 0;
    ghost var bytes := Expand(Pairs(count, first, second));
    while k < count
      invariant 0 <= k <= count && end == at + 2 * k
      invariant unpacked[..at] == old(unpacked[..at])
      invariant forall j | 0 <= j < 2 * k :: unpacked[at + j] == bytes[j]
    {
      unpacked[end] := first;
      end := end + 1;
      unpacked[end] := second;
      end := end + 1;
      k := k + 1;
    }
  }

  /** Repeats a byte into a buffer. */
  method FillRun(unpacked: array<byte>, at: nat, count: nat, value: byte) returns (end: nat)
    requires at + count <= unpacked.Length
    modifies unpacked
    ensures end == at + count
    ensures unpacked[..end] == old(unpacked[..at]) + Expand(Run(count, value))
  {
    end := at;
    var k := 0;
    while k < count
      invariant 0 <= k <= count && end == at + k
      invariant unpacked[..at] == old(unpacked[..at])
      invariant unpacked[at..end] == Expand(Run(count, value))[..k]
    {
      unpacked[end] := value;
      end := end + 1;
      k := k + 1;
    }
  }

  /** Copies literal bytes into a buffer. */
  method CopyRaw(unpacked: array<byte>, at: nat, data: seq<byte>) returns (end: nat)
    requires at + |data| <= unpacked.Length
    modifies unpacked
    ensures end == at + |data|
    ensures unpacked[..end] == old(unpacked[..at]) + Expand(Raw(data))
  {
    forall k | 0 <= k < |data| {
      unpacked[at + k] := data[k];
    }
    end := at + |data|;
  }

  /** How a run of the program ends. */
  datatype Status = Done | NoInput | CircularPath | WrongLength | UnusedBytes | WrongByte

  /** Decodes the token at `offset` to the end of what is already unpacked. */
  method DecodeToken(file: seq<byte>, offset: nat, unpacked: array<byte>, unpackedLen: nat, ghost t: Token)
    returns (next: nat, end: nat)
    requires ValidToken(t) && offset + |Emit(t)| <= |file| && file[offset..offset + |Emit(t)|] == Emit(t)
    requires unpackedLen + |Expand(t)| <= unpacked.Length
    modifies unpacked
    ensures next == offset + |Emit(t)| && end == unpackedLen + |Expand(t)|
    ensures unpacked[..end] == old(unpacked[..unpackedLen]) + Expand(t)
  {
    TokenBytes(file, offset, t);
    if file[offset] == 0x80 {
      end := FillPairs(unpacked, unpackedLen, file[offset + 1], file[offset + 2], file[offset + 3]);
      next := offset + 4;
    } else if file[offset] >= 0x80 {
      end := FillRun(unpacked, unpackedLen, file[offset] - 0x80, file[offset + 1]);
      next := offset + 2;
    } else {
      var count := file[offset];
      end := CopyRaw(unpacked, unpackedLen, file[offset + 1..offset + 1 + count]);
      next := offset + 1 + count;
    }
  }

  /** Decodes a file into a buffer until the buffer holds as many bytes as the input. */
  method Decode(raw: seq<byte>, file: seq<byte>, unpacked: array<byte>, ghost ts: seq<Token>)
    returns (offset: nat, unpackedLen: nat)
    requires |raw| <= unpacked.Length && Ahead(raw, file, 0, 0, ts)
    modifies unpacked
    ensures unpackedLen == |raw| && unpacked[..|raw|] == raw
    ensures offset < |file| && file[offset..] == [0x00]
  {
    hide Emit, Expand, EmitAll, ExpandAll, ValidTokens;
    unpackedLen, offset := 0, 0;
    ghost var left := ts;
    while offset <= |file| && unpackedLen < |raw|
      invariant Ahead(raw, file, offset, unpackedLen, left)
      invariant unpacked[..unpackedLen] == raw[..unpackedLen]
      decreases |left|
    {
      NextToken(raw, file, offset, unpackedLen, left);
      offset, unpackedLen := DecodeToken(file, offset, unpacked, unpackedLen, left[0]);
      left := left[1..];
    }
    NothingLeft(raw, file, offset, left);
    assert raw[..|raw|] == raw;
  }

  /** Decodes the file just written and compares it with the input. */
  method Check(raw: seq<byte>, file: seq<byte>, ghost ts: seq<Token>) returns (status: Status)
    requires 1 <= |raw| <= MAX_RAW_SIZE && |file| <= 2 * MAX_RAW_SIZE
    requires Ahead(raw, file, 0, 0, ts)
    ensures status == Done
  {
    var unpacked := new byte[MAX_RAW_SIZE];
    var offset, unpackedLen := Decode(raw, file, unpacked, ts);
    assert file[offset] == file[offset..][0];
    if file[offset] == 0x00 {
      offset := offset + 1;
    }
    if unpackedLen != |raw| {
      return WrongLength;
    }
    if offset != |file| {
      return UnusedBytes;
    }
    for k := 0 to |raw| {
      if raw[k] != unpacked[k] {
        return WrongByte;
      }
    }
    return Done;
  }

  /** The tokens still to decode: the file continues with their bytes, the input with what they stand for. */
  ghost predicate Ahead(raw: seq<byte>, file: seq<byte>, offset: nat, from: nat, left: seq<Token>) {
    && offset <= |file| && from <= |raw| && ValidTokens(left)
    && file[offset..] == EmitAll(left) + [0x00]
    && raw[from..] == ExpandAll(left)
  }

  /** Where the input has bytes left, the next token's bytes are all there. */
  lemma NextToken(raw: seq<byte>, file: seq<byte>, offset: nat, from: nat, left: seq<Token>)
    requires Ahead(raw, file, offset, from, left) && from < |raw|
    ensures left != [] && ValidToken(left[0])
    ensures offset + |Emit(left[0])| <= |file| && from + |Expand(left[0])| <= |raw|
    ensures file[offset..offset + |Emit(left[0])|] == Emit(left[0])
    ensures raw[..from] + Expand(left[0]) == raw[..from + |Expand(left[0])|]
    ensures Ahead(raw, file, offset + |Emit(left[0])|, from + |Expand(left[0])|, left[1..])
  {
    var t, rest := left[0], left[1..];
    var n, m := |Emit(t)|, |Expand(t)|;
    assert file[offset..offset + n] == file[offset..][..n];
    assert file[offset + n..] == file[offset..][n..];
    assert raw[from..from + m] == raw[from..][..m];
    assert raw[from + m..] == raw[from..][m..];
  }

  /** How a token's bytes tell which token it is. */
  lemma TokenBytes(file: seq<byte>, offset: nat, t: Token)
    requires ValidToken(t) && offset + |Emit(t)| <= |file| && file[offset..offset + |Emit(t)|] == Emit(t)
    ensures offset < |file|
    ensures file[offset] == 0x80 ==> |Emit(t)| == 4 && t == Pairs(file[offset + 1], file[offset + 2], file[offset + 3])
    ensures file[offset] > 0x80 ==> |Emit(t)| == 2 && t == Run(file[offset] - 0x80, file[offset + 1])
    ensures file[offset] < 0x80 ==>
              |Emit(t)| == 1 + file[offset] && t == Raw(file[offset + 1..offset + 1 + file[offset]])
  {
    var e := Emit(t);
    assert forall k | 0 <= k < |e| :: file[offset + k] == e[k];
    match t
    case Raw(data) =>
      assert file[offset] == |data|;
      assert file[offset + 1..offset + 1 + |data|] == data;
    case Run(count, value) => assert file[offset + 1] == e[1];
    case Pairs(count, first, second) =>
      assert file[offset + 1] == e[1] && file[offset + 2] == e[2] && file[offset + 3] == e[3];
  }

  /** At the end of the input only the terminator is left. */
  lemma NothingLeft(raw: seq<byte>, file: seq<byte>, offset: nat, left: seq<Token>)
    requires Ahead(raw, file, offset, |raw|, left)
    ensures file[offset..] == [0x00]
  {
  }

  /** Packs a file: the result reads back as the input, or as its first 128 KiB, and nothing that does is shorter. */
  method Pack(input: seq<byte>) returns (status: Status, file: seq<byte>)
    ensures input == [] <==> status == NoInput
    ensures input != [] ==> status == Done
    ensures 0 < |input| <= 0x2_0000 ==> Unpack(file) == Some(input)
    ensures |input| > 0x2_0000 ==> Unpack(file) == Some(input[..0x2_0000])
    ensures 0 < |input| <= 0x2_0000 ==> forall p | Unpack(p) == Some(input) :: |file| <= |p|
    ensures |input| > 0x2_0000 ==> forall p | Unpack(p) == Some(input[..0x2_0000]) :: |file| <= |p|
    ensures |input| <= 0x2_0000 ==> |file| <= |input| + (|input| + 126) / 127 + 1
    ensures |input| > 0x2_0000 ==> |file| <= 0x2_0000 + 1033 + 1
  {
    var raw := if |input| > MAX_RAW_SIZE then input[..MAX_RAW_SIZE] else input;
    if |raw| < 1 {
      return NoInput, [];
    }
    var packer := new Packer(raw);
    packer.Relax();
    ghost var dp := packer.dp[..];
    SentinelGone(raw, dp);
    var queue;
    status, queue := packer.Backtrack();
    if status != Done {
      return status, [];
    }
    file := packer.Write(queue);
    ghost var ts := Chain(raw, dp, |raw|);
    ChainEncodes(raw, dp, |raw|);
    assert raw[..|raw|] == raw;
    CostBound(raw, dp, |raw|);
    EmitAllLength(ts);
    UnpackEmitted(ts);
    ShortestFile(raw, dp);
    assert file[0..] == file && raw[0..] == raw;
    status := Check(raw, file, ts);
  }

  /** Any file that reads back as the input is at least one byte longer than the table's cost. */
  lemma ShortestFile(raw: seq<byte>, dp: seq<DpItem>)
    requires Table(raw, dp) && AllRelaxed(raw, dp, |raw|)
    ensures forall p | Unpack(p) == Some(raw) :: dp[|raw|].cost + 1 <= |p|
  {
    forall p | Unpack(p) == Some(raw)
      ensures dp[|raw|].cost + 1 <= |p|
    {
      var ts := ReadableIsTokens(p);
      assert raw[..|raw|] == raw;
      TableIsOptimal(raw, dp, |raw|, ts);
    }
  }
}
