/** Where dispatch puts the rows it receives. Every (channel, source rank) substream owns a consecutive run
  * of the received tokens; a lane walks the (token, k) pairs of its substream in order and takes the next
  * free slot of the expert; the slots, the per-token counters and the arrivals it fires are those below. */
module DispatchPool {
  import opened Arith
  import opened Sums
  import opened PoolLayout
  import PrefixScan
  import KernelY

  /** The received tokens in substream order, each with its topk expert ids (ids that are not local to this
    * rank are out of range), the first token of every substream, and the receive id of every token. */
  datatype Routing = Routing(
    tokens: seq<seq<int>>,
    starts: seq<nat>,
    numExperts: nat,
    topk: nat,
    tileM: nat,
    recvId: seq<nat>
  ) {
    predicate Valid() {
      && tileM > 0
      && (forall g: nat :: g < |tokens| ==> |tokens[g]| == topk)
      && 0 < |starts| && starts[0] == 0 && starts[|starts| - 1] == |tokens|
      && (forall i: nat, j: nat :: i <= j < |starts| ==> starts[i] <= starts[j])
      && |recvId| == |tokens|
      && (forall g: nat :: g < |recvId| ==> recvId[g] < |tokens|)
      && (forall g: nat, g': nat :: g < |recvId| && g' < |recvId| && recvId[g] == recvId[g'] ==> g == g')
    }

    predicate Local(id: int) { 0 <= id < numExperts }

    /** (g, k) is a pair that some expert of this rank serves. */
    predicate Pair(g: nat, k: nat)
      requires Valid()
    {
      g < |tokens| && k < topk && Local(tokens[g][k])
    }

    function Frequency(e: nat): nat { Taken(tokens, e, |tokens|) }

    function Pool(): (l: Layout)
      requires Valid()
      ensures l.Valid()
    {
      Layout(seq(numExperts, e requires 0 <= e => Frequency(e)), tileM)
    }

    /** The slot of a pair: as many slots into its expert's region as pairs of the expert came before. */
    function Slot(g: nat, k: nat): nat
      requires Valid() && Pair(g, k)
    {
      Pool().Offset(tokens[g][k]) * tileM + Rank(tokens, tokens[g][k], g, k)
    }

    /** base_pool of a substream: the first slot it takes for expert e. */
    function BasePool(sub: nat, e: nat): nat
      requires Valid() && sub < |starts| && e < numExperts
    {
      Pool().Offset(e) * tileM + Taken(tokens, e, starts[sub])
    }

    /** seen_per_substream: how many pairs of expert e the substream brings. */
    function Seen(sub: nat, e: nat): int
      requires Valid() && sub + 1 < |starts|
    {
      Taken(tokens, e, starts[sub + 1]) - Taken(tokens, e, starts[sub])
    }
  }

  /** Occurrences of e among the first k ids of a token. */
  function InRow(row: seq<int>, e: int, k: nat): nat
    requires k <= |row|
  {
    if k == 0 then 0 else InRow(row, e, k - 1) + if row[k - 1] == e then 1 else 0
  }

  /** Pairs of expert e among the first g tokens. */
  function Taken(tokens: seq<seq<int>>, e: int, g: nat): nat
    requires g <= |tokens|
  {
    if g == 0 then 0 else Taken(tokens, e, g - 1) + InRow(tokens[g - 1], e, |tokens[g - 1]|)
  }

  function Rank(tokens: seq<seq<int>>, e: int, g: nat, k: nat): nat
    requires g < |tokens| && k <= |tokens[g]|
  {
    Taken(tokens, e, g) + InRow(tokens[g], e, k)
  }

  // ---------------------------------------------------------------------------
  // The slots are handed out without gaps and without sharing.
  // ---------------------------------------------------------------------------

  lemma {:induction false} InRowMono(row: seq<int>, e: int, k: nat, k': nat)
    requires k <= k' <= |row|
    ensures InRow(row, e, k) <= InRow(row, e, k')
    decreases k'
  {
    if k < k' {
      InRowMono(row, e, k, k' - 1);
    }
  }

  lemma {:induction false} TakenMono(tokens: seq<seq<int>>, e: int, g: nat, g': nat)
    requires g <= g' <= |tokens|
    ensures Taken(tokens, e, g) <= Taken(tokens, e, g')
    decreases g'
  {
    if g < g' {
      TakenMono(tokens, e, g, g' - 1);
    }
  }

  /** A pair's rank is below what is taken after it. */
  lemma RankGrows(tokens: seq<seq<int>>, e: int, g: nat, k: nat)
    requires g < |tokens| && k < |tokens[g]| && tokens[g][k] == e
    ensures forall g': nat :: g < g' <= |tokens| ==> Rank(tokens, e, g, k) < Taken(tokens, e, g')
    ensures forall k': nat :: k < k' <= |tokens[g]| ==> Rank(tokens, e, g, k) < Rank(tokens, e, g, k')
  {
    forall k': nat | k < k' <= |tokens[g]| ensures Rank(tokens, e, g, k) < Rank(tokens, e, g, k') {
      InRowMono(tokens[g], e, k + 1, k');
    }
    forall g': nat | g < g' <= |tokens| ensures Rank(tokens, e, g, k) < Taken(tokens, e, g') {
      InRowMono(tokens[g], e, k + 1, |tokens[g]|);
      TakenMono(tokens, e, g + 1, g');
    }
  }

  lemma RankInjective(tokens: seq<seq<int>>, e: int, g: nat, k: nat, g': nat, k': nat)
    requires g < |tokens| && k < |tokens[g]| && tokens[g][k] == e
    requires g' < |tokens| && k' < |tokens[g']| && tokens[g'][k'] == e
    requires Rank(tokens, e, g, k) == Rank(tokens, e, g', k')
    ensures g == g' && k == k'
  {
    RankGrows(tokens, e, g, k);
    RankGrows(tokens, e, g', k');
  }

  lemma {:induction false} FindInRow(row: seq<int>, e: int, i: nat, n: nat) returns (k: nat)
    requires n <= |row| && i < InRow(row, e, n)
    ensures k < n && row[k] == e && InRow(row, e, k) == i
    decreases n
  {
    if i < InRow(row, e, n - 1) {
      k := FindInRow(row, e, i, n - 1);
    } else {
      k := n - 1;
    }
  }

  lemma {:induction false} FindPair(tokens: seq<seq<int>>, e: int, i: nat, n: nat) returns (g: nat, k: nat)
    requires n <= |tokens| && i < Taken(tokens, e, n)
    ensures g < n && k < |tokens[g]| && tokens[g][k] == e && Rank(tokens, e, g, k) == i
    decreases n
  {
    if i < Taken(tokens, e, n - 1) {
      g, k := FindPair(tokens, e, i, n - 1);
    } else {
      g := n - 1;
      k := FindInRow(tokens[g], e, i - Taken(tokens, e, g), |tokens[g]|);
    }
  }

  /** A pair's slot is a real row of the pair's own expert. */
  lemma SlotInExpert(r: Routing, g: nat, k: nat)
    requires r.Valid() && r.Pair(g, k)
    ensures r.Pool().RealOf(r.tokens[g][k], r.Slot(g, k))
    ensures r.Slot(g, k) < r.Pool().TotalTiles() * r.tileM
  {
    var e, l := r.tokens[g][k], r.Pool();
    RankGrows(r.tokens, e, g, k);
    assert Rank(r.tokens, e, g, k) < Taken(r.tokens, e, |r.tokens|);
    RowsFit(l, e);
    OffsetMono(l, e + 1, |l.rows|);
    MulLe(l.Offset(e + 1), l.TotalTiles(), r.tileM);
  }

  lemma RealOfOne(l: Layout, e: nat, e': nat, slot: nat)
    requires l.Valid() && e < |l.rows| && e' < |l.rows| && l.RealOf(e, slot) && l.RealOf(e', slot)
    ensures e == e'
  {
    RowsFit(l, e);
    RowsFit(l, e');
    DivRange(slot, l.Offset(e), l.Offset(e + 1), l.tileM);
    DivRange(slot, l.Offset(e'), l.Offset(e' + 1), l.tileM);
    OneOwner(l, slot / l.tileM, e, e');
  }

  /** No two pairs share a slot. */
  lemma SlotInjective(r: Routing, g: nat, k: nat, g': nat, k': nat)
    requires r.Valid() && r.Pair(g, k) && r.Pair(g', k') && r.Slot(g, k) == r.Slot(g', k')
    ensures g == g' && k == k'
  {
    SlotInExpert(r, g, k);
    SlotInExpert(r, g', k');
    RealOfOne(r.Pool(), r.tokens[g][k], r.tokens[g'][k'], r.Slot(g, k));
    RankInjective(r.tokens, r.tokens[g][k], g, k, g', k');
  }

  /** And every real slot of the pool is the slot of some pair. */
  lemma SlotOnto(r: Routing, slot: nat) returns (g: nat, k: nat)
    requires r.Valid() && r.Pool().Real(slot)
    ensures r.Pair(g, k) && r.Slot(g, k) == slot
  {
    var l := r.Pool();
    var e: nat :| e < |l.rows| && l.RealOf(e, slot);
    g, k := FindPair(r.tokens, e, slot - l.Offset(e) * l.tileM, |r.tokens|);
  }

  // ---------------------------------------------------------------------------
  // The base-pool scan.
  // ---------------------------------------------------------------------------

  predicate SeenColumn(r: Routing, e: nat, column: seq<int>)
    requires r.Valid()
  {
    |column| == |r.starts| - 1 && forall sub: nat :: sub < |column| ==> column[sub] == r.Seen(sub, e)
  }

  lemma {:induction false} SeenPrefix(r: Routing, e: nat, column: seq<int>, sub: nat)
    requires r.Valid() && SeenColumn(r, e, column) && sub < |r.starts|
    ensures PrefixScan.Prefix(column, sub) == Taken(r.tokens, e, r.starts[sub])
  {
    if sub > 0 {
      SeenPrefix(r, e, column, sub - 1);
    }
  }

  /** Phase 8 for one expert: the scan of its column gives every substream its base slot. */
  method ScanBasePool(r: Routing, e: nat, blockOffset: nat, column: array<int>)
    requires r.Valid() && e < r.numExperts && SeenColumn(r, e, column[..])
    requires blockOffset == r.Pool().Offset(e)
    modifies column
    ensures forall sub: nat :: sub < column.Length ==> column[sub] == r.BasePool(sub, e)
  {
    ghost var was := column[..];
    PrefixScan.ScanInPlace(column, blockOffset * r.tileM);
    forall sub: nat | sub < column.Length ensures column[sub] == r.BasePool(sub, e) {
      SeenPrefix(r, e, was, sub);
    }
  }

  // ---------------------------------------------------------------------------
  // Pass A: slot allocation, batch by batch.
  // ---------------------------------------------------------------------------

  /** The slots of a token's pairs, -1 where the expert is not local. */
  predicate SlotRow(r: Routing, g: nat, row: seq<int>)
    requires r.Valid() && g < |r.tokens|
  {
    |row| == r.topk && forall k: nat :: k < r.topk ==> row[k] == if r.Pair(g, k) then r.Slot(g, k) else -1
  }

  /** seen_substream after the first g tokens and k ids of the next one. */
  predicate SeenUpTo(r: Routing, sub: nat, g: nat, k: nat, seen: seq<nat>)
    requires r.Valid() && sub < |r.starts| && g < |r.tokens| && k <= r.topk
  {
    |seen| == r.numExperts
    && forall e: nat :: e < r.numExperts ==> seen[e] == Rank(r.tokens, e, g, k) - Taken(r.tokens, e, r.starts[sub])
  }

  predicate SeenTo(r: Routing, sub: nat, g: nat, seen: seq<nat>)
    requires r.Valid() && sub < |r.starts| && g <= |r.tokens|
  {
    |seen| == r.numExperts
    && forall e: nat :: e < r.numExperts ==> seen[e] == Taken(r.tokens, e, g) - Taken(r.tokens, e, r.starts[sub])
  }

  predicate Bases(r: Routing, sub: nat, base: seq<nat>)
    requires r.Valid() && sub < |r.starts|
  {
    |base| == r.numExperts && forall e: nat :: e < r.numExperts ==> base[e] == r.BasePool(sub, e)
  }

  /** Lane 0 on one token. */
  method AllocateToken(r: Routing, sub: nat, g: nat, base: seq<nat>, seen: array<nat>) returns (slotRow: seq<int>)
    requires r.Valid() && sub + 1 < |r.starts| && r.starts[sub] <= g < r.starts[sub + 1] <= |r.tokens|
    requires Bases(r, sub, base) && SeenTo(r, sub, g, seen[..])
    modifies seen
    ensures SlotRow(r, g, slotRow) && SeenTo(r, sub, g + 1, seen[..])
  {
    slotRow := [];
    for k := 0 to r.topk
      invariant |slotRow| == k && SeenUpTo(r, sub, g, k, seen[..])
      invariant forall k': nat :: k' < k ==> slotRow[k'] == if r.Pair(g, k') then r.Slot(g, k') else -1
    {
      var e := r.tokens[g][k];
      ghost var was := seen[..];
      if 0 <= e < r.numExperts {
        var slot := base[e] + seen[e];
        seen[e] := seen[e] + 1;
        slotRow := slotRow + [slot];
        assert seen[..] == was[e := was[e] + 1];
      } else {
        slotRow := slotRow + [-1];
      }
    }
  }

  /** A receiver drains its substream in whatever batches the ring delivers, each cut into sub-batches of
    * at most chunkSize tokens. The slots are the same for every such division. */
  method ReceiveSubstream(r: Routing, sub: nat, base: seq<nat>, batches: seq<nat>, chunkSize: nat, seen: array<nat>)
    returns (slots: seq<seq<int>>)
    requires r.Valid() && sub + 1 < |r.starts| && r.starts[sub + 1] <= |r.tokens| && r.starts[sub] <= r.starts[sub + 1]
    requires Bases(r, sub, base) && SeenTo(r, sub, r.starts[sub], seen[..]) && chunkSize > 0
    requires Total(batches, |batches|) == r.starts[sub + 1] - r.starts[sub]
    modifies seen
    ensures |slots| == r.starts[sub + 1] - r.starts[sub]
    ensures forall i: nat :: i < |slots| ==> SlotRow(r, r.starts[sub] + i, slots[i])
    ensures forall e: nat :: e < r.numExperts ==> seen.Length == r.numExperts && seen[e] == r.Seen(sub, e)
  {
    slots := [];
    for b := 0 to |batches|
      invariant |slots| == Total(batches, b) && r.starts[sub] + |slots| <= |r.tokens|
      invariant forall i: nat :: i < |slots| ==> SlotRow(r, r.starts[sub] + i, slots[i])
      invariant SeenTo(r, sub, r.starts[sub] + |slots|, seen[..])
    {
      TotalMono(batches, b + 1, |batches|);
      ghost var done := |slots|;
      var subStart := 0;
      while subStart < batches[b]
        invariant subStart <= batches[b] && |slots| == done + subStart
        invariant forall i: nat :: i < |slots| ==> SlotRow(r, r.starts[sub] + i, slots[i])
        invariant SeenTo(r, sub, r.starts[sub] + |slots|, seen[..])
      {
        var subSize := if chunkSize < batches[b] - subStart then chunkSize else batches[b] - subStart;
        for subChunk := 0 to subSize
          invariant |slots| == done + subStart + subChunk
          invariant forall i: nat :: i < |slots| ==> SlotRow(r, r.starts[sub] + i, slots[i])
          invariant SeenTo(r, sub, r.starts[sub] + |slots|, seen[..])
        {
          var row := AllocateToken(r, sub, r.starts[sub] + |slots|, base, seen);
          slots := slots + [row];
        }
        subStart := subStart + subSize;
      }
    }
  }

  function Total(batches: seq<nat>, n: nat): nat
    requires n <= |batches|
  {
    if n == 0 then 0 else Total(batches, n - 1) + batches[n - 1]
  }

  lemma {:induction false} TotalMono(batches: seq<nat>, n: nat, m: nat)
    requires n <= m <= |batches|
    ensures Total(batches, n) <= Total(batches, m)
    decreases m
  {
    if n < m {
      TotalMono(batches, n, m - 1);
    }
  }
}
