/** The expert-major pool: every expert owns a run of whole tiles, filled from the front with its rows and
  * padded at the end. Block offsets, slot owners, real rows and arrival targets, as the metadata kernels
  * compute them and as the layout defines them. */
module PoolLayout {
  import opened Arith
  import opened Sums

  /** rows[e] real rows for expert e, padded to tiles of tileM rows. */
  datatype Layout = Layout(rows: seq<nat>, tileM: nat) {
    predicate Valid() { tileM > 0 }

    function Tiles(e: nat): nat
      requires Valid() && e < |rows|
    {
      (rows[e] + tileM - 1) / tileM
    }

    /** expert_pool_block_offset[e]: the tiles of the experts before e. */
    function Offset(e: nat): nat
      requires Valid() && e <= |rows|
    {
      if e == 0 then 0 else Offset(e - 1) + Tiles(e - 1)
    }

    function TotalTiles(): nat
      requires Valid()
    {
      Offset(|rows|)
    }

    /** Tile t belongs to expert e. */
    predicate InExpert(e: nat, t: nat)
      requires Valid()
    {
      e < |rows| && Offset(e) <= t < Offset(e + 1)
    }

    /** slot_expert: expert e repeated for every slot of its tiles. */
    function SlotExperts(n: nat): seq<nat>
      requires Valid() && n <= |rows|
    {
      if n == 0 then [] else SlotExperts(n - 1) + seq(Tiles(n - 1) * tileM, _ => n - 1)
    }

    /** The slot holds a row of expert e rather than padding. */
    predicate RealOf(e: nat, slot: nat)
      requires Valid() && e < |rows|
    {
      Offset(e) * tileM <= slot < Offset(e) * tileM + rows[e]
    }

    predicate Real(slot: nat)
      requires Valid()
    {
      exists e: nat :: e < |rows| && RealOf(e, slot)
    }

    ghost function RealInTile(t: nat): nat -> bool
      requires Valid()
    {
      (row: nat) => Real(t * tileM + row)
    }

    /** arrival_target[t]: how many slots of tile t are real. */
    ghost function Target(t: nat): nat
      requires Valid()
    {
      Count(RealInTile(t), tileM)
    }
  }

  lemma {:induction false} OffsetMono(l: Layout, e: nat, e': nat)
    requires l.Valid() && e <= e' <= |l.rows|
    ensures l.Offset(e) <= l.Offset(e')
    decreases e' - e
  {
    if e < e' {
      OffsetMono(l, e, e' - 1);
    }
  }

  /** The tile runs of the experts are disjoint and leave no tile without an owner. */
  lemma {:induction false} OneOwner(l: Layout, t: nat, e: nat, e': nat)
    requires l.Valid() && l.InExpert(e, t) && l.InExpert(e', t)
    ensures e == e'
  {
    if e < e' {
      OffsetMono(l, e + 1, e');
    } else if e' < e {
      OffsetMono(l, e' + 1, e);
    }
  }

  lemma {:induction false} SomeOwner(l: Layout, t: nat, n: nat) returns (e: nat)
    requires l.Valid() && n <= |l.rows| && t < l.Offset(n)
    ensures l.InExpert(e, t) && e < n
  {
    if l.Offset(n - 1) <= t {
      e := n - 1;
    } else {
      e := SomeOwner(l, t, n - 1);
    }
  }

  lemma {:induction false} SlotExpertsAt(l: Layout, n: nat, slot: nat)
    requires l.Valid() && n <= |l.rows| && slot < l.Offset(n) * l.tileM
    ensures |l.SlotExperts(n)| == l.Offset(n) * l.tileM
    ensures l.InExpert(l.SlotExperts(n)[slot], slot / l.tileM)
  {
    SlotExpertsLength(l, n);
    if n > 0 {
      SlotExpertsLength(l, n - 1);
      var front := l.SlotExperts(n - 1);
      if slot < |front| {
        SlotExpertsAt(l, n - 1, slot);
        assert l.SlotExperts(n)[slot] == front[slot];
      } else {
        DivRange(slot, l.Offset(n - 1), l.Offset(n), l.tileM);
        assert l.SlotExperts(n)[slot] == n - 1;
      }
    }
  }

  lemma {:induction false} SlotExpertsLength(l: Layout, n: nat)
    requires l.Valid() && n <= |l.rows|
    ensures |l.SlotExperts(n)| == l.Offset(n) * l.tileM
    ensures n > 0 ==> l.Offset(n) * l.tileM == l.Offset(n - 1) * l.tileM + l.Tiles(n - 1) * l.tileM
  {
    if n > 0 {
      SlotExpertsLength(l, n - 1);
      assert (l.Offset(n - 1) + l.Tiles(n - 1)) * l.tileM == l.Offset(n - 1) * l.tileM + l.Tiles(n - 1) * l.tileM;
    }
  }

  /** An expert's rows fit its tiles, and every one of its tiles starts on a real row. */
  lemma RowsFit(l: Layout, e: nat)
    requires l.Valid() && e < |l.rows|
    ensures l.Offset(e) * l.tileM + l.rows[e] <= l.Offset(e + 1) * l.tileM
    ensures l.Tiles(e) > 0 ==> (l.Tiles(e) - 1) * l.tileM < l.rows[e]
    ensures l.Tiles(e) > 0 <==> l.rows[e] > 0
  {
    SlotExpertsLength(l, e + 1);
    CeilDiv(l.rows[e], l.tileM);
    assert l.Tiles(e) == 0 ==> l.Tiles(e) * l.tileM == 0;
    if l.rows[e] == 0 {
      DivUnique(l.tileM - 1, 0, l.tileM - 1, l.tileM);
    }
  }

  /** A real row lies in a tile of its expert. */
  lemma TileOfReal(l: Layout, e: nat, slot: nat)
    requires l.Valid() && e < |l.rows| && l.RealOf(e, slot)
    ensures l.InExpert(e, slot / l.tileM)
  {
    RowsFit(l, e);
    DivRange(slot, l.Offset(e), l.Offset(e + 1), l.tileM);
  }

  /** Only the owner of a slot's tile can make the slot real. */
  lemma RealOwner(l: Layout, e: nat, slot: nat)
    requires l.Valid() && l.InExpert(e, slot / l.tileM)
    ensures l.Real(slot) <==> l.RealOf(e, slot)
  {
    if e': nat :| e' < |l.rows| && l.RealOf(e', slot) {
      RowsFit(l, e');
      DivRange(slot, l.Offset(e'), l.Offset(e' + 1), l.tileM);
      OneOwner(l, slot / l.tileM, e, e');
    }
  }

  ghost function Below(k: nat): nat -> bool {
    (i: nat) => i < k
  }

  lemma {:induction false} CountBelow(k: nat, n: nat)
    ensures Count(Below(k), n) == if k < n then k else n
  {
    if n > 0 {
      CountBelow(k, n - 1);
    }
  }

  /** The closed form the tile-metadata kernel uses for the target. */
  function TargetOf(l: Layout, e: nat, t: nat): int
    requires l.Valid() && l.InExpert(e, t)
  {
    if t - l.Offset(e) == l.Offset(e + 1) - l.Offset(e) - 1 then l.rows[e] - (t - l.Offset(e)) * l.tileM else l.tileM
  }

  /** The share of tile k of n in a run of `rows` rows that starts at x. */
  lemma ShareOfTile(rows: nat, tileM: nat, k: nat, n: nat, share: int)
    requires tileM > 0 && k < n && (n - 1) * tileM < rows <= n * tileM
    requires share == if k == n - 1 then rows - k * tileM else tileM
    ensures 1 <= share <= tileM && k * tileM + share <= rows && (share < tileM ==> k * tileM + share == rows)
  {
    assert n * tileM == (n - 1) * tileM + tileM && (k + 1) * tileM == k * tileM + tileM;
    if k < n - 1 {
      MulLe(k + 1, n - 1, tileM);
    }
  }

  lemma TargetShare(l: Layout, e: nat, t: nat)
    requires l.Valid() && l.InExpert(e, t)
    ensures 1 <= TargetOf(l, e, t) <= l.tileM
    ensures var k, share := t - l.Offset(e), TargetOf(l, e, t);
            k * l.tileM + share <= l.rows[e] && (share < l.tileM ==> k * l.tileM + share == l.rows[e])
  {
    RowsFit(l, e);
    CeilDiv(l.rows[e], l.tileM);
    ShareOfTile(l.rows[e], l.tileM, t - l.Offset(e), l.Tiles(e), TargetOf(l, e, t));
  }

  lemma RowInRun(a: nat, k: nat, d: nat, row: nat, rows: nat, share: int)
    requires row < d && k * d + share <= rows && (share < d ==> k * d + share == rows)
    ensures a * d <= (a + k) * d + row < a * d + rows <==> row < share
  {
    assert (a + k) * d == a * d + k * d;
    MulNonNeg(k, d);
  }

  lemma SlotTile(d: nat, t: nat, row: nat)
    requires row < d
    ensures (t * d + row) / d == t
  {
    DivUnique(t * d + row, t, row, d);
  }

  lemma RealRow(l: Layout, e: nat, t: nat, row: nat)
    requires l.Valid() && l.InExpert(e, t) && row < l.tileM
    ensures l.Real(t * l.tileM + row) <==> row < TargetOf(l, e, t)
  {
    TargetShare(l, e, t);
    SlotTile(l.tileM, t, row);
    RowInRun(l.Offset(e), t - l.Offset(e), l.tileM, row, l.rows[e], TargetOf(l, e, t));
    RealOwner(l, e, t * l.tileM + row);
  }

  /** The kernel's closed form counts the real slots of the tile; it is never zero and never above tileM,
    * so every tile has something to wait for. */
  lemma TargetCountsReal(l: Layout, e: nat, t: nat)
    requires l.Valid() && l.InExpert(e, t)
    ensures 1 <= TargetOf(l, e, t) <= l.tileM
    ensures l.Target(t) == TargetOf(l, e, t)
  {
    TargetShare(l, e, t);
    RealRows(l, e, t, Below(TargetOf(l, e, t)), TargetOf(l, e, t));
    CountBelow(TargetOf(l, e, t), l.tileM);
  }

  lemma RealRows(l: Layout, e: nat, t: nat, q: nat -> bool, n: nat)
    requires l.Valid() && l.InExpert(e, t) && n == TargetOf(l, e, t) && q == Below(n)
    ensures l.Target(t) == Count(q, l.tileM)
  {
    var p := l.RealInTile(t);
    forall row: nat | row < l.tileM ensures p(row) == q(row) {
      RealRow(l, e, t, row);
    }
    CountEq(p, q, l.tileM);
  }

  ghost function ExpertTargets(l: Layout, e: nat): nat -> nat
    requires l.Valid() && e < |l.rows|
  {
    (k: nat) => l.Target(l.Offset(e) + k)
  }

  lemma {:induction false} TargetsPrefix(l: Layout, e: nat, k: nat)
    requires l.Valid() && e < |l.rows| && k <= l.Tiles(e)
    ensures SumN(ExpertTargets(l, e), k) == if k < l.Tiles(e) then k * l.tileM else l.rows[e]
  {
    RowsFit(l, e);
    if k > 0 {
      TargetsPrefix(l, e, k - 1);
      TargetCountsReal(l, e, l.Offset(e) + k - 1);
      assert k * l.tileM == (k - 1) * l.tileM + l.tileM;
    }
  }

  /** The targets of an expert's tiles add up to its rows: no row is waited for twice or never. */
  lemma TargetsSum(l: Layout, e: nat)
    requires l.Valid() && e < |l.rows|
    ensures SumN(ExpertTargets(l, e), l.Tiles(e)) == l.rows[e]
  {
    TargetsPrefix(l, e, l.Tiles(e));
  }

  // ---------------------------------------------------------------------------
  // The metadata kernels.
  // ---------------------------------------------------------------------------

  /** The first n entries are the block offsets of the layout. */
  predicate OffsetsTo(l: Layout, offsets: seq<nat>, n: nat)
    requires l.Valid()
  {
    n <= |l.rows| + 1 && |offsets| == n && forall e: nat :: e < n ==> offsets[e] == l.Offset(e)
  }

  lemma NextOffset(l: Layout, offsets: seq<nat>, n: nat)
    requires l.Valid() && 0 < n <= |l.rows| && OffsetsTo(l, offsets, n)
    ensures OffsetsTo(l, offsets + [offsets[n - 1] + l.Tiles(n - 1)], n + 1)
  {
  }

  /** Block offsets from the expert frequencies. */
  method BlockOffsets(freq: seq<nat>, tileM: nat) returns (offsets: seq<nat>, totalTiles: nat)
    requires tileM > 0
    ensures OffsetsTo(Layout(freq, tileM), offsets, |freq| + 1)
    ensures totalTiles == Layout(freq, tileM).TotalTiles()
  {
    ghost var l := Layout(freq, tileM);
    var cumBlocks := 0;
    offsets := [0];
    for e := 0 to |freq|
      invariant OffsetsTo(l, offsets, e + 1) && cumBlocks == offsets[e]
    {
      NextOffset(l, offsets, e + 1);
      cumBlocks := cumBlocks + (freq[e] + tileM - 1) / tileM;
      offsets := offsets + [cumBlocks];
    }
    totalTiles := cumBlocks;
  }

  lemma FirstAbove(l: Layout, offsets: seq<nat>, t: nat, e: nat, owner: nat)
    requires l.Valid() && OffsetsTo(l, offsets, |l.rows| + 1) && e <= owner && l.InExpert(owner, t)
    ensures t < offsets[e + 1] <==> e == owner
  {
    OffsetMono(l, e + 1, if e < owner then owner else e + 1);
  }

  /** The owner of a tile, by the linear search of the tile-metadata fill. */
  method FindExpert(l: Layout, offsets: seq<nat>, t: nat) returns (found: nat)
    requires l.Valid() && OffsetsTo(l, offsets, |l.rows| + 1) && t < l.TotalTiles()
    ensures l.InExpert(found, t)
  {
    ghost var owner := SomeOwner(l, t, |l.rows|);
    found := 0;
    var e := 0;
    while e < |l.rows|
      invariant e <= owner
    {
      FirstAbove(l, offsets, t, e, owner);
      if t < offsets[e + 1] {
        found := e;
        break;
      }
      e := e + 1;
    }
  }

  /** Tile t has been visited by thread tid of G, which is now at `at`, or by a thread before it. */
  predicate Visited(t: nat, G: nat, tid: nat, at: nat)
    requires G > 0
  {
    t % G < tid || (t % G == tid && t < at)
  }

  lemma VisitNext(t: nat, G: nat, tid: nat, at: nat)
    requires G > 0 && at % G == tid && Visited(t, G, tid, at + G)
    ensures Visited(t, G, tid, at) || t == at
  {
    if t % G == tid && at <= t {
      NextInStride(t, at, G);
    }
  }

  lemma VisitStart(t: nat, G: nat, tid: nat)
    requires G > 0 && Visited(t, G, tid, tid)
    ensures Visited(t, G, tid, 0)
  {
    ModLow(t, G);
  }

  /** Owner and target of tile t are filled in. */
  ghost predicate Filled(l: Layout, t: nat, experts: seq<nat>, targets: seq<int>)
    requires l.Valid() && t < |experts| == |targets|
  {
    l.InExpert(experts[t], t) && targets[t] == l.Target(t)
  }

  /** Grid-stride fill: every thread takes every G-th tile, and together they fill each tile once. */
  method FillTileMetadata(l: Layout, offsets: seq<nat>, totalTiles: nat, gridThreads: nat,
          tileIdToExpert: array<nat>, poolArrivalTarget: array<int>)
    requires l.Valid() && OffsetsTo(l, offsets, |l.rows| + 1) && totalTiles == l.TotalTiles() && gridThreads > 0
    requires tileIdToExpert.Length == poolArrivalTarget.Length == totalTiles
    modifies tileIdToExpert, poolArrivalTarget
    ensures forall t: nat :: t < totalTiles ==> l.InExpert(tileIdToExpert[t], t)
    ensures forall t: nat :: t < totalTiles ==> poolArrivalTarget[t] == l.Target(t)
  {
    for tid := 0 to gridThreads
      invariant forall t: nat :: t < totalTiles && Visited(t, gridThreads, tid, 0)
                  ==> Filled(l, t, tileIdToExpert[..], poolArrivalTarget[..])
    {
      FillStride(l, offsets, totalTiles, gridThreads, tid, tileIdToExpert, poolArrivalTarget);
    }
    forall t: nat | t < totalTiles
      ensures l.InExpert(tileIdToExpert[t], t) && poolArrivalTarget[t] == l.Target(t) {
      assert Visited(t, gridThreads, gridThreads, 0);
      assert Filled(l, t, tileIdToExpert[..], poolArrivalTarget[..]);
    }
  }

  /** The tiles of one thread. */
  method FillStride(l: Layout, offsets: seq<nat>, totalTiles: nat, gridThreads: nat, tid: nat,
          tileIdToExpert: array<nat>, poolArrivalTarget: array<int>)
    requires l.Valid() && OffsetsTo(l, offsets, |l.rows| + 1) && totalTiles == l.TotalTiles() && tid < gridThreads
    requires tileIdToExpert.Length == poolArrivalTarget.Length == totalTiles
    requires forall t: nat :: t < totalTiles && Visited(t, gridThreads, tid, 0)
               ==> Filled(l, t, tileIdToExpert[..], poolArrivalTarget[..])
    modifies tileIdToExpert, poolArrivalTarget
    ensures forall t: nat :: t < totalTiles && Visited(t, gridThreads, tid + 1, 0)
              ==> Filled(l, t, tileIdToExpert[..], poolArrivalTarget[..])
  {
    var tile := tid;
    DivUnique(tid, 0, tid, gridThreads);
    forall t: nat | t < totalTiles && Visited(t, gridThreads, tid, tid)
      ensures Visited(t, gridThreads, tid, 0) {
      VisitStart(t, gridThreads, tid);
    }
    while tile < totalTiles
      invariant tile % gridThreads == tid
      invariant forall t: nat :: t < totalTiles && Visited(t, gridThreads, tid, tile)
                  ==> Filled(l, t, tileIdToExpert[..], poolArrivalTarget[..])
    {
      ghost var experts, targets := tileIdToExpert[..], poolArrivalTarget[..];
      var e, target := FillOne(l, offsets, tile, tileIdToExpert, poolArrivalTarget);
      forall t: nat | t < totalTiles && Visited(t, gridThreads, tid, tile + gridThreads)
        ensures Filled(l, t, tileIdToExpert[..], poolArrivalTarget[..]) {
        VisitNext(t, gridThreads, tid, tile);
        if t != tile {
          assert Filled(l, t, experts, targets);
        }
      }
      DivUnique(tile + gridThreads, tile / gridThreads + 1, tid, gridThreads);
      tile := tile + gridThreads;
    }
  }

  method FillOne(l: Layout, offsets: seq<nat>, tile: nat, tileIdToExpert: array<nat>, poolArrivalTarget: array<int>)
    returns (e: nat, target: int)
    requires l.Valid() && OffsetsTo(l, offsets, |l.rows| + 1) && tile < l.TotalTiles()
    requires tileIdToExpert.Length == poolArrivalTarget.Length == l.TotalTiles()
    modifies tileIdToExpert, poolArrivalTarget
    ensures tileIdToExpert[..] == old(tileIdToExpert[..])[tile := e]
    ensures poolArrivalTarget[..] == old(poolArrivalTarget[..])[tile := target]
    ensures Filled(l, tile, tileIdToExpert[..], poolArrivalTarget[..])
  {
    e := FindExpert(l, offsets, tile);
    var start := offsets[e];
    var tilesOfE := offsets[e + 1] - start;
    var t := tile - start;
    target := if t == tilesOfE - 1 then l.rows[e] - t * l.tileM else l.tileM;
    TargetCountsReal(l, e, tile);
    tileIdToExpert[tile] := e;
    poolArrivalTarget[tile] := target;
    assert tileIdToExpert[..] == old(tileIdToExpert[..])[tile := e];
    assert poolArrivalTarget[..] == old(poolArrivalTarget[..])[tile := target];
  }
}
