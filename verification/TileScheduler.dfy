/** The streaming tile scheduler's policy: the size of the grid and the decode of a claimed linear index to
  * (expert, row tile, column tile) by a warp ballot over the block offsets. */
module TileScheduler {
  import opened Arith
  import opened Sums
  import KernelY
  import PoolLayout

  const LANES := 32
  const INT_MAX := 0x7FFF_FFFF

  datatype Params = Params(
    blockOffset: seq<nat>,   // expert_pool_block_offset
    totalTiles: nat,
    nTiles: nat,             // N tiles of the problem
    clusterN: nat,
    expertsPerLane: nat      // MAX_LOCAL_EXPERTS / 32
  ) {
    function Experts(): int { |blockOffset| - 1 }

    function NumPidN(): nat
      requires clusterN > 0
    {
      (nTiles + clusterN - 1) / clusterN
    }

    function TotalWork(): nat
      requires clusterN > 0
    {
      totalTiles * NumPidN()
    }

    predicate Valid() {
      && clusterN > 0 && 0 < |blockOffset| && Experts() <= LANES * expertsPerLane
      && blockOffset[0] == 0 && blockOffset[Experts()] == totalTiles <= INT_MAX
      && forall e: nat, e': nat :: e <= e' < |blockOffset| ==> blockOffset[e] <= blockOffset[e']
    }

    predicate Owner(e: nat, tile: nat) {
      e + 1 < |blockOffset| && blockOffset[e] <= tile < blockOffset[e + 1]
    }
  }

  datatype WorkTile = WorkTile(pidM: int, pidN: int, expert: int, valid: bool)

  // ---------------------------------------------------------------------------
  // Warp votes.
  // ---------------------------------------------------------------------------

  /** The ballot word: bit k is the vote of lane k. */
  function Ballot(votes: seq<bool>): nat {
    if votes == [] then 0 else (if votes[0] then 1 else 0) + 2 * Ballot(votes[1..])
  }

  function Popc(word: nat): nat {
    if word == 0 then 0 else word % 2 + Popc(word / 2)
  }

  ghost function Vote(votes: seq<bool>): nat -> bool {
    (lane: nat) => lane < |votes| && votes[lane]
  }

  lemma {:induction false} CountShift(p: nat -> bool, q: nat -> bool, n: nat)
    requires forall i: nat :: i < n ==> q(i) == p(i + 1)
    ensures Count(p, n + 1) == (if p(0) then 1 else 0) + Count(q, n)
  {
    assert Count(p, n + 1) == Count(p, n) + Indicator(p)(n);
    if n > 0 {
      CountShift(p, q, n - 1);
    }
  }

  lemma {:induction false} PopcCounts(votes: seq<bool>)
    ensures Popc(Ballot(votes)) == Count(Vote(votes), |votes|)
  {
    if votes != [] {
      PopcCounts(votes[1..]);
      CountShift(Vote(votes), Vote(votes[1..]), |votes| - 1);
      PopcStep(if votes[0] then 1 else 0, Ballot(votes[1..]));
    }
  }

  lemma PopcStep(bit: nat, rest: nat)
    requires bit < 2
    ensures Popc(bit + 2 * rest) == bit + Popc(rest)
  {
    assert (bit + 2 * rest) % 2 == bit && (bit + 2 * rest) / 2 == rest;
  }

  lemma {:induction false} CountAppend(p: nat -> bool, q: nat -> bool, n: nat, m: nat)
    requires forall i: nat :: i < m ==> q(i) == p(n + i)
    ensures Count(p, n + m) == Count(p, n) + Count(q, m)
  {
    if m > 0 {
      CountAppend(p, q, n, m - 1);
    }
  }

  // ---------------------------------------------------------------------------
  // The decode.
  // ---------------------------------------------------------------------------

  /** The cumulative offset that lane `lane` holds in its i-th register. */
  function CumValue(prm: Params, i: nat, lane: nat): nat
    requires 0 < |prm.blockOffset|
  {
    if lane + i * LANES <= prm.Experts() then prm.blockOffset[lane + i * LANES] else INT_MAX
  }

  ghost function AtOrBelow(prm: Params, tile: nat): nat -> bool
    requires 0 < |prm.blockOffset|
  {
    (e: nat) => (if e <= prm.Experts() then prm.blockOffset[e] else INT_MAX) <= tile
  }

  lemma FindOwner(prm: Params, tile: nat, n: nat) returns (e: nat)
    requires prm.Valid() && n < |prm.blockOffset| && tile < prm.blockOffset[n]
    ensures prm.Owner(e, tile)
  {
    if prm.blockOffset[n - 1] <= tile {
      e := n - 1;
    } else {
      e := FindOwner(prm, tile, n - 1);
    }
  }

  /** The offsets at or below the tile are those of the experts up to the owner, so their number is one
    * more than the owner, empty experts included. */
  lemma MatchedCount(prm: Params, tile: nat, e: nat)
    requires prm.Valid() && prm.Owner(e, tile)
    ensures Count(AtOrBelow(prm, tile), LANES * prm.expertsPerLane) == e + 1
  {
    var p, q := AtOrBelow(prm, tile), PoolLayout.Below(e + 1);
    forall i: nat | i < LANES * prm.expertsPerLane ensures p(i) == q(i) {
      if i <= e {
        assert prm.blockOffset[i] <= prm.blockOffset[e];
      } else if i <= prm.Experts() {
        assert prm.blockOffset[e + 1] <= prm.blockOffset[i];
      }
    }
    CountEq(p, q, LANES * prm.expertsPerLane);
    PoolLayout.CountBelow(e + 1, LANES * prm.expertsPerLane);
  }

  /** A claimed index decodes to the owner of its tile, the tile's number inside the owner and the leader
    * CTA's column tile; a drained index decodes to nothing. */
  method DelinearizeWorkIdx(prm: Params, workIdx: nat) returns (w: WorkTile)
    requires prm.Valid()
    ensures w.valid <==> workIdx < prm.TotalWork()
    ensures !w.valid ==> w == WorkTile(0, 0, 0, false)
    ensures w.valid ==> 0 <= w.expert && prm.Owner(w.expert, workIdx / prm.NumPidN())
    ensures w.valid ==> prm.blockOffset[w.expert] + w.pidM == workIdx / prm.NumPidN()
    ensures w.valid ==> w.pidN == workIdx % prm.NumPidN() * prm.clusterN
  {
    w := WorkTile(0, 0, 0, false);
    if workIdx < prm.TotalWork() {
      NoWorkWithoutColumns(prm);
      DivBound(workIdx, prm.totalTiles, prm.NumPidN());
      var tile, clusterPidN := workIdx / prm.NumPidN(), workIdx % prm.NumPidN();
      var expert, cum := BallotExpert(prm, tile);
      w := WorkTile(tile - cum, clusterPidN * prm.clusterN, expert, true);
    }
  }

  lemma NoWorkWithoutColumns(prm: Params)
    requires prm.Valid()
    ensures prm.NumPidN() == 0 ==> prm.TotalWork() == 0
  {
  }

  /** Register i of the warp, lane by lane. */
  predicate Register(prm: Params, i: nat, reg: seq<nat>)
    requires 0 < |prm.blockOffset|
  {
    |reg| == LANES && forall lane: nat :: lane < LANES ==> reg[lane] == CumValue(prm, i, lane)
  }

  predicate Cums(prm: Params, cums: seq<seq<nat>>)
    requires 0 < |prm.blockOffset|
  {
    |cums| == prm.expertsPerLane && forall i: nat :: i < |cums| ==> Register(prm, i, cums[i])
  }

  method LoadCums(prm: Params) returns (cums: seq<seq<nat>>)
    requires 0 < |prm.blockOffset|
    ensures Cums(prm, cums)
  {
    cums := [];
    for i := 0 to prm.expertsPerLane
      invariant |cums| == i && forall k: nat :: k < i ==> Register(prm, k, cums[k])
    {
      var reg: seq<nat> := seq(LANES, lane requires 0 <= lane => CumValue(prm, i, lane));
      assert Register(prm, i, reg);
      cums := cums + [reg];
    }
  }

  lemma VotesOfRegister(prm: Params, tile: nat, i: nat, votes: seq<bool>)
    requires 0 < |prm.blockOffset| && |votes| == LANES
    requires forall lane: nat :: lane < LANES ==> votes[lane] == (CumValue(prm, i, lane) <= tile)
    ensures Count(AtOrBelow(prm, tile), LANES * (i + 1)) == Count(AtOrBelow(prm, tile), LANES * i) + Popc(Ballot(votes))
  {
    PopcCounts(votes);
    CountAppend(AtOrBelow(prm, tile), Vote(votes), LANES * i, LANES);
  }

  /** The warp-cooperative lookup: a ballot per register, a popcount, and a shuffle of the matching offset. */
  method BallotExpert(prm: Params, tile: nat) returns (expert: nat, cum: nat)
    requires prm.Valid() && tile < prm.totalTiles
    ensures prm.Owner(expert, tile) && cum == prm.blockOffset[expert]
  {
    var cums := LoadCums(prm);
    var matched := 0;
    for i := 0 to prm.expertsPerLane
      invariant matched == Count(AtOrBelow(prm, tile), LANES * i)
    {
      assert Register(prm, i, cums[i]);
      var votes := seq(LANES, lane requires 0 <= lane < LANES => cums[i][lane] <= tile);
      VotesOfRegister(prm, tile, i, votes);
      matched := matched + Popc(Ballot(votes));
    }
    ghost var owner := FindOwner(prm, tile, prm.Experts());
    MatchedCount(prm, tile, owner);
    expert := matched - 1;
    cum := ShuffleCum(prm, cums, expert);
  }

  method ShuffleCum(prm: Params, cums: seq<seq<nat>>, expert: nat) returns (cum: nat)
    requires prm.Valid() && Cums(prm, cums) && expert < prm.Experts()
    ensures cum == prm.blockOffset[expert]
  {
    var expertLane := expert % LANES;
    cum := 0;
    if prm.expertsPerLane == 1 {
      assert Register(prm, 0, cums[0]);
      cum := cums[0][expertLane];
    } else {
      var expertSlot := expert / LANES;
      for i := 0 to prm.expertsPerLane
        invariant cum == if expertSlot < i then prm.blockOffset[expert] else 0
      {
        assert Register(prm, i, cums[i]);
        var cand := cums[i][expertLane];
        if expertSlot == i {
          cum := cand;
        }
      }
    }
  }

  // ---------------------------------------------------------------------------
  // What the decode means.
  // ---------------------------------------------------------------------------

  /** A cluster's piece of work: row tile pidM of an expert and a group of clusterN column tiles. */
  datatype Piece = Piece(expert: nat, pidM: nat, group: nat) {
    predicate In(prm: Params)
      requires prm.Valid()
    {
      && expert < prm.Experts() && group < prm.NumPidN()
      && prm.blockOffset[expert] + pidM < prm.blockOffset[expert + 1]
    }

    function Linear(prm: Params): nat
      requires prm.Valid() && In(prm)
    {
      (prm.blockOffset[expert] + pidM) * prm.NumPidN() + group
    }
  }

  lemma LinearInverse(prm: Params, x: Piece)
    requires prm.Valid() && x.In(prm)
    ensures x.Linear(prm) < prm.TotalWork()
    ensures x.Linear(prm) / prm.NumPidN() == prm.blockOffset[x.expert] + x.pidM
    ensures x.Linear(prm) % prm.NumPidN() == x.group
    ensures prm.Owner(x.expert, x.Linear(prm) / prm.NumPidN())
  {
    var tile := prm.blockOffset[x.expert] + x.pidM;
    assert prm.blockOffset[x.expert + 1] <= prm.blockOffset[prm.Experts()];
    PairBound(tile, x.group, prm.totalTiles, prm.NumPidN());
    DivUnique(x.Linear(prm), tile, x.group, prm.NumPidN());
  }

  lemma NextAtMost(prm: Params, e: nat, e': nat)
    requires prm.Valid() && e' < |prm.blockOffset|
    ensures e < e' ==> prm.blockOffset[e + 1] <= prm.blockOffset[e']
  {
  }

  lemma UniqueOwner(prm: Params, tile: nat, e: nat, e': nat)
    requires prm.Valid() && prm.Owner(e, tile) && prm.Owner(e', tile)
    ensures e == e'
  {
    NextAtMost(prm, e, e');
    NextAtMost(prm, e', e);
  }

  /** Work indices and pieces of work correspond one to one: no piece is claimed twice under two indices. */
  lemma LinearInjective(prm: Params, x: Piece, x': Piece)
    requires prm.Valid() && x.In(prm) && x'.In(prm) && x.Linear(prm) == x'.Linear(prm)
    ensures x == x'
  {
    LinearInverse(prm, x);
    LinearInverse(prm, x');
    UniqueOwner(prm, x.Linear(prm) / prm.NumPidN(), x.expert, x'.expert);
  }

  /** And every index below the total work is one of them, the one the decode names. */
  lemma DecodeOnto(prm: Params, workIdx: nat, expert: nat) returns (x: Piece)
    requires prm.Valid() && workIdx < prm.TotalWork() && prm.NumPidN() > 0
    requires prm.Owner(expert, workIdx / prm.NumPidN())
    ensures x.In(prm) && x.Linear(prm) == workIdx
    ensures x == Piece(expert, workIdx / prm.NumPidN() - prm.blockOffset[expert], workIdx % prm.NumPidN())
  {
    DivBound(workIdx, prm.totalTiles, prm.NumPidN());
    x := Piece(expert, workIdx / prm.NumPidN() - prm.blockOffset[expert], workIdx % prm.NumPidN());
  }

  /** On a pool layout the decode agrees with the owner of the slots, and the row the GEMM starts at,
    * cu_seqlens_m[expert] + pid_m * tile_m, is the first slot of the claimed tile. */
  lemma DecodeAgreesWithPool(prm: Params, l: PoolLayout.Layout, tile: nat, row: nat, expert: nat, pidM: nat)
    requires prm.Valid() && l.Valid() && PoolLayout.OffsetsTo(l, prm.blockOffset, |l.rows| + 1)
    requires prm.Owner(expert, tile) && prm.blockOffset[expert] + pidM == tile && row < l.tileM
    ensures SlotOwnedBy(l, tile * l.tileM + row, expert)
    ensures prm.blockOffset[expert] * l.tileM + pidM * l.tileM == tile * l.tileM
  {
    OwnerInLayout(prm, l, tile, expert);
    SlotOwner(l, expert, tile, row);
    FirstRow(prm.blockOffset[expert], pidM, l.tileM);
  }

  lemma OwnerInLayout(prm: Params, l: PoolLayout.Layout, tile: nat, expert: nat)
    requires prm.Valid() && l.Valid() && PoolLayout.OffsetsTo(l, prm.blockOffset, |l.rows| + 1)
    requires prm.Owner(expert, tile)
    ensures l.InExpert(expert, tile) && tile < l.TotalTiles()
  {
    assert prm.blockOffset[expert + 1] <= prm.blockOffset[|l.rows|];
  }

  lemma FirstRow(offset: nat, pidM: nat, tileM: nat)
    ensures offset * tileM + pidM * tileM == (offset + pidM) * tileM
  {
  }

  /** slot_expert[slot] == expert. */
  predicate SlotOwnedBy(l: PoolLayout.Layout, slot: nat, expert: nat)
    requires l.Valid()
  {
    var owners := l.SlotExperts(|l.rows|);
    slot < |owners| && owners[slot] == expert
  }

  lemma SlotOwner(l: PoolLayout.Layout, expert: nat, tile: nat, row: nat)
    requires l.Valid() && l.InExpert(expert, tile) && tile < l.TotalTiles() && row < l.tileM
    ensures SlotOwnedBy(l, tile * l.tileM + row, expert)
  {
    var n := |l.rows|;
    PoolLayout.SlotExpertsLength(l, n);
    PairBound(tile, row, l.Offset(n), l.tileM);
    DivUnique(tile * l.tileM + row, tile, row, l.tileM);
    PoolLayout.SlotExpertsAt(l, n, tile * l.tileM + row);
    PoolLayout.OneOwner(l, tile, expert, l.SlotExperts(n)[tile * l.tileM + row]);
  }

  /** For kernel Y, the tile rebuilt at the end of a tile is the claimed one, and the column tile of peer p
    * is the stripe the protocol gives it. */
  lemma DecodeIsKernelYClaim(prm: Params, c: KernelY.Config, workIdx: nat, w: WorkTile, p: nat)
    requires prm.Valid() && c.Valid() && c.clusterN == prm.clusterN && c.stripes == prm.nTiles
    requires c.totalTiles == prm.totalTiles && p < c.clusterN && workIdx < prm.TotalWork()
    requires 0 <= w.expert && prm.Owner(w.expert, workIdx / prm.NumPidN())
    requires prm.blockOffset[w.expert] + w.pidM == workIdx / prm.NumPidN()
    requires w.pidN == workIdx % prm.NumPidN() * prm.clusterN
    ensures workIdx < c.TotalWork() && c.Tile(workIdx) == prm.blockOffset[w.expert] + w.pidM
    ensures c.Stripe(workIdx, p) == w.pidN + p
  {
    assert c.ClaimsPerTile() == prm.NumPidN();
  }

  /** Persistent clusters of the launch: all there is room for, unless fewer already have a CTA for every piece
    * of work, and then no cluster without work. */
  function PersistentClusters(prm: Params, maxActiveClusters: nat, clusterSize: nat): (n: nat)
    requires prm.Valid() && 0 < clusterSize
    ensures n <= maxActiveClusters && n <= prm.TotalWork()
    ensures n < maxActiveClusters ==> n * clusterSize >= prm.TotalWork()
    ensures n > 0 ==> (n - 1) * clusterSize < prm.TotalWork()
    ensures n == 0 <==> maxActiveClusters == 0 || prm.TotalWork() == 0
  {
    var work := prm.TotalWork();
    CeilDiv(work, clusterSize);
    var groups := (work + clusterSize - 1) / clusterSize;
    GroupsFit(work, clusterSize, groups);
    if 0 < maxActiveClusters < groups then MulLe(maxActiveClusters - 1, groups - 1, clusterSize); maxActiveClusters
    else if maxActiveClusters < groups then maxActiveClusters else groups
  }

  lemma GroupsFit(work: nat, size: nat, groups: nat)
    requires size > 0 && groups * size >= work && (work > 0 ==> (groups - 1) * size < work)
    requires groups == (work + size - 1) / size
    ensures groups <= work && (groups == 0 <==> work == 0)
  {
    if work == 0 {
      DivUnique(size - 1, 0, size - 1, size);
    } else {
      assert groups == 0 ==> groups * size == 0;
      if groups > work {
        MulLe(work, groups - 1, size);
        assert work * size == work + work * (size - 1);
        MulNonNeg(work, size - 1);
      }
    }
  }
}
