/** The scatter epilogue of one subtile: the register tile goes to padded staging memory, and the warps then
  * add it, eight columns at a time, to the rows of `o` that the pool slots name. */
module ScatterStore {
  import opened Arith
  import opened Sums

  const N_PAD := 34     // staging row stride
  const LANES := 32
  const VEC := 8        // columns per vector reduction

  // ---------------------------------------------------------------------------
  // Staging.
  // ---------------------------------------------------------------------------

  function StageAddress(epiM: nat, stage: nat, m: nat, n: nat): nat {
    stage * (epiM * N_PAD) + m * N_PAD + n
  }

  /** Distinct elements of the staging tiles have distinct addresses. */
  ghost predicate NoCollision(epiM: nat, epiN: nat) {
    forall stage: nat, m: nat, n: nat, stage': nat, m': nat, n': nat ::
      m < epiM && n < epiN && m' < epiM && n' < epiN && StageAddress(epiM, stage, m, n) == StageAddress(epiM, stage', m', n')
      ==> stage == stage' && m == m' && n == n'
  }

  lemma AddressParts(epiM: nat, stage: nat, m: nat, n: nat)
    requires m < epiM && n < N_PAD
    ensures StageAddress(epiM, stage, m, n) / (epiM * N_PAD) == stage
    ensures StageAddress(epiM, stage, m, n) % (epiM * N_PAD) == m * N_PAD + n
    ensures (m * N_PAD + n) / N_PAD == m && (m * N_PAD + n) % N_PAD == n
  {
    PairBound(m, n, epiM, N_PAD);
    DivUnique(StageAddress(epiM, stage, m, n), stage, m * N_PAD + n, epiM * N_PAD);
  }

  /** The fixed pad is what makes the layout injective: it is, for the subtile widths up to the pad and no
    * wider, whatever the number of stages. */
  lemma NoCollisionIff(epiM: nat, epiN: nat)
    requires epiM > 0
    ensures NoCollision(epiM, epiN) <==> epiN <= N_PAD
  {
    if epiN <= N_PAD {
      forall stage: nat, m: nat, n: nat, stage': nat, m': nat, n': nat |
        m < epiM && n < epiN && m' < epiM && n' < epiN && StageAddress(epiM, stage, m, n) == StageAddress(epiM, stage', m', n')
        ensures stage == stage' && m == m' && n == n' {
        AddressParts(epiM, stage, m, n);
        AddressParts(epiM, stage', m', n');
      }
    } else {
      // column N_PAD of the last row of stage 0 is where row 0 of stage 1 starts
      assert epiM * N_PAD == (epiM - 1) * N_PAD + N_PAD;
      assert StageAddress(epiM, 0, epiM - 1, N_PAD) == StageAddress(epiM, 1, 0, 0);
    }
  }

  /** Registers to staging buffer 0: afterwards every element can be read back from its own address. */
  method StageRegisters(acc: (nat, nat) -> real, epiM: nat, epiN: nat, staging: array<real>)
    requires epiN <= N_PAD && epiM * N_PAD <= staging.Length
    modifies staging
    ensures forall m: nat, n: nat :: m < epiM && n < epiN ==>
              m * N_PAD + n < staging.Length && staging[m * N_PAD + n] == acc(m, n)
  {
    for m := 0 to epiM
      invariant forall i: nat, n: nat :: i < m && n < epiN ==>
                  i * N_PAD + n < staging.Length && staging[i * N_PAD + n] == acc(i, n)
    {
      for n := 0 to epiN
        invariant forall i: nat, k: nat :: (i < m && k < epiN) || (i == m && k < n) ==>
                    i * N_PAD + k < staging.Length && staging[i * N_PAD + k] == acc(i, k)
      {
        staging[m * N_PAD + n] := acc(m, n);
      }
    }
  }

  // ---------------------------------------------------------------------------
  // The scatter.
  // ---------------------------------------------------------------------------

  datatype Subtile = Subtile(
    epiM: nat, epiN: nat, warps: nat,
    mOrigin: nat, nOrigin: nat,
    recvToken: seq<int>,     // of the CTA tile
    tRecv: nat, hidden: nat
  ) {
    function Chunks(): nat { (epiN + VEC - 1) / VEC }
    function RowsPerWarp(): nat
      requires warps > 0
    {
      (epiM + warps - 1) / warps
    }
    function WorkPerWarp(): nat
      requires warps > 0
    {
      RowsPerWarp() * Chunks()
    }
    predicate Valid() {
      && warps > 0 && epiN % VEC == 0 && epiN > 0 && epiN <= N_PAD
      && mOrigin + epiM <= |recvToken| && nOrigin + epiN <= hidden
    }
    /** Row m of the subtile goes to receive token r. */
    predicate Goes(m: nat, r: int) {
      m < epiM && mOrigin + m < |recvToken| && 0 <= r < tRecv && recvToken[mOrigin + m] == r
    }
  }

  /** What row m of the subtile adds to (r, col). */
  ghost function RowAdds(t: Subtile, v: seq<real>, r: nat, col: nat): nat -> real {
    (m: nat) => if t.Goes(m, r) && t.nOrigin <= col < t.nOrigin + t.epiN && m * N_PAD + col - t.nOrigin < |v|
                then v[m * N_PAD + col - t.nOrigin] else 0.0
  }

  /** What the vector reduction of row m and chunk k adds to (r, col). */
  ghost function ChunkAdds(t: Subtile, v: seq<real>, r: nat, col: nat, m: nat, k: nat): real {
    if t.Goes(m, r) && t.nOrigin + k * VEC <= col < t.nOrigin + k * VEC + VEC && m * N_PAD + col - t.nOrigin < |v|
    then v[m * N_PAD + col - t.nOrigin] else 0.0
  }

  /** Vector reductions in the order of (row, chunk). */
  ghost function UnitAdds(t: Subtile, v: seq<real>, r: nat, col: nat): nat -> real {
    (u: nat) => if t.Chunks() > 0 then ChunkAdds(t, v, r, col, u / t.Chunks(), u % t.Chunks()) else 0.0
  }

  lemma {:induction false} RowChunks(t: Subtile, v: seq<real>, r: nat, col: nat, m: nat, k: nat)
    requires t.Valid() && k <= t.Chunks() && m < t.epiM
    ensures Sum(UnitAdds(t, v, r, col), m * t.Chunks() + k)
         == Sum(UnitAdds(t, v, r, col), m * t.Chunks()) + if col < t.nOrigin + k * VEC then RowAdds(t, v, r, col)(m) else 0.0
  {
    if k > 0 {
      RowChunks(t, v, r, col, m, k - 1);
      DivUnique(m * t.Chunks() + (k - 1), m, k - 1, t.Chunks());
    }
  }

  /** The chunks of a row are the row: together the reductions add every row's columns once. */
  lemma {:induction false} UnitsAreRows(t: Subtile, v: seq<real>, r: nat, col: nat, m: nat)
    requires t.Valid() && m <= t.epiM
    ensures Sum(UnitAdds(t, v, r, col), m * t.Chunks()) == Sum(RowAdds(t, v, r, col), m)
  {
    if m > 0 {
      UnitsAreRows(t, v, r, col, m - 1);
      RowChunks(t, v, r, col, m - 1, t.Chunks());
      assert m * t.Chunks() == (m - 1) * t.Chunks() + t.Chunks();
    }
  }

  /** `o` has taken in the first `units` reductions. */
  ghost predicate Added(t: Subtile, v: seq<real>, was: (nat, nat) -> real, o: array2<real>, units: nat)
    reads o
  {
    && o.Length0 == t.tRecv && o.Length1 == t.hidden
    && forall r: nat, col: nat :: r < o.Length0 && col < o.Length1 ==>
         o[r, col] == was(r, col) + Sum(UnitAdds(t, v, r, col), units)
  }

  ghost function Contents(o: array2<real>): (nat, nat) -> real
    reads o
  {
    var s := seq(o.Length0, r requires 0 <= r < o.Length0 reads o =>
                 seq(o.Length1, c requires 0 <= c < o.Length1 reads o => o[r, c]));
    (r: nat, c: nat) => if r < |s| && c < |s[r]| then s[r][c] else 0.0
  }

  /** One vector reduction: VEC adjacent staged values onto VEC adjacent columns of row r. */
  method AddVec(staging: array<real>, at: nat, o: array2<real>, r: nat, col0: nat)
    requires r < o.Length0 && col0 + VEC <= o.Length1 && at + VEC <= staging.Length
    modifies o
    ensures forall r': nat, col: nat :: r' < o.Length0 && col < o.Length1 ==>
              o[r', col] == old(o[r', col]) + if r' == r && col0 <= col < col0 + VEC then staging[at + col - col0] else 0.0
  {
    for j := 0 to VEC
      invariant forall r': nat, col: nat :: r' < o.Length0 && col < o.Length1 ==>
                  o[r', col] == old(o[r', col]) + if r' == r && col0 <= col < col0 + j then staging[at + col - col0] else 0.0
    {
      o[r, col0 + j] := o[r, col0 + j] + staging[at + j];
    }
  }

  lemma NextUnit(t: Subtile, v: seq<real>, r: nat, col: nat, m: nat, k: nat)
    requires k < t.Chunks()
    ensures Sum(UnitAdds(t, v, r, col), m * t.Chunks() + k + 1)
         == Sum(UnitAdds(t, v, r, col), m * t.Chunks() + k) + ChunkAdds(t, v, r, col, m, k)
  {
    var f, u := UnitAdds(t, v, r, col), m * t.Chunks() + k;
    UnitAt(t, v, r, col, m, k, u);
    OneMore(f, u);
  }

  lemma OneMore(f: nat -> real, u: nat)
    ensures Sum(f, u + 1) == Sum(f, u) + f(u)
  {
  }

  lemma UnitAt(t: Subtile, v: seq<real>, r: nat, col: nat, m: nat, k: nat, u: nat)
    requires k < t.Chunks() && u == m * t.Chunks() + k
    ensures UnitAdds(t, v, r, col)(u) == ChunkAdds(t, v, r, col, m, k)
  {
    DivUnique(u, m, k, t.Chunks());
  }

  /** The predicated reduction of one lane: padding rows and foreign ids add nothing. */
  method ReduceVec(t: Subtile, staging: array<real>, o: array2<real>, m: nat, k: nat, ghost was: (nat, nat) -> real)
    requires t.Valid() && k < t.Chunks() && m < t.epiM && t.epiM * N_PAD <= staging.Length
    requires Added(t, staging[..], was, o, m * t.Chunks() + k)
    modifies o
    ensures Added(t, staging[..], was, o, m * t.Chunks() + k + 1)
  {
    ghost var v := staging[..];
    var r := t.recvToken[t.mOrigin + m];
    forall r': nat, col: nat ensures Sum(UnitAdds(t, v, r', col), m * t.Chunks() + k + 1)
        == Sum(UnitAdds(t, v, r', col), m * t.Chunks() + k) + ChunkAdds(t, v, r', col, m, k) {
      NextUnit(t, v, r', col, m, k);
    }
    if 0 <= r < t.tRecv {
      AddVec(staging, m * N_PAD + k * VEC, o, r, t.nOrigin + k * VEC);
    }
  }

  /** The number of reductions before work item `work` of a warp in the sweep over (warp, iteration, lane). */
  function Position(t: Subtile, warp: nat, work: nat): nat
    requires t.warps > 0
  {
    var units := warp * t.WorkPerWarp() + if work < t.WorkPerWarp() then work else t.WorkPerWarp();
    if units < t.epiM * t.Chunks() then units else t.epiM * t.Chunks()
  }

  lemma RowInRange(row: nat, k: nat, epiM: nat, chunks: nat)
    requires k < chunks
    ensures row < epiM <==> row * chunks + k < epiM * chunks
  {
    if row < epiM {
      PairBound(row, k, epiM, chunks);
    } else {
      MulLe(epiM, row, chunks);
    }
  }

  /** A work item of a warp names the (row, chunk) that its position in the sweep has. */
  lemma WorkUnit(t: Subtile, warp: nat, work: nat)
    requires t.Valid() && work < t.WorkPerWarp()
    ensures (warp * t.RowsPerWarp() + work / t.Chunks()) * t.Chunks() + work % t.Chunks() == warp * t.WorkPerWarp() + work
  {
    var c, rows := t.Chunks(), t.RowsPerWarp();
    assert work == work / c * c + work % c;
    assert (warp * rows + work / c) * c == warp * rows * c + work / c * c;
    assert warp * (rows * c) == warp * rows * c;
  }

  /** One lane: masked if its work item is past the warp's or its row past the subtile. */
  method Lane(t: Subtile, staging: array<real>, o: array2<real>, warp: nat, work: nat, ghost was: (nat, nat) -> real)
    requires t.Valid() && t.epiM * N_PAD <= staging.Length
    requires Added(t, staging[..], was, o, Position(t, warp, work))
    modifies o
    ensures Added(t, staging[..], was, o, Position(t, warp, work + 1))
  {
    var workInRange := work < t.WorkPerWarp();
    if workInRange {
      LiveLane(t, staging, o, warp, work, was);
    } else {
      MaskedPosition(t, warp, work);
    }
  }

  method LiveLane(t: Subtile, staging: array<real>, o: array2<real>, warp: nat, work: nat, ghost was: (nat, nat) -> real)
    requires t.Valid() && t.epiM * N_PAD <= staging.Length && work < t.WorkPerWarp()
    requires Added(t, staging[..], was, o, Position(t, warp, work))
    modifies o
    ensures Added(t, staging[..], was, o, Position(t, warp, work + 1))
  {
    var m, k, u := LaneUnit(t, warp, work);
    if m < t.epiM {
      ReduceAt(t, staging, o, m, k, u, was);
    }
  }

  /** The (row, chunk) of a live work item, and the reduction it is in the sweep. */
  method LaneUnit(t: Subtile, warp: nat, work: nat) returns (m: nat, k: nat, ghost u: nat)
    requires t.Valid() && work < t.WorkPerWarp()
    ensures k < t.Chunks() && u == m * t.Chunks() + k
    ensures m < t.epiM ==> Position(t, warp, work) == u && Position(t, warp, work + 1) == u + 1
    ensures m >= t.epiM ==> Position(t, warp, work) == Position(t, warp, work + 1)
  {
    m, k := warp * t.RowsPerWarp() + work / t.Chunks(), work % t.Chunks();
    u := m * t.Chunks() + k;
    WorkUnit(t, warp, work);
    LanePosition(t, warp, work, m, k);
  }

  method ReduceAt(t: Subtile, staging: array<real>, o: array2<real>, m: nat, k: nat, ghost u: nat,
          ghost was: (nat, nat) -> real)
    requires t.Valid() && k < t.Chunks() && m < t.epiM && t.epiM * N_PAD <= staging.Length
    requires u == m * t.Chunks() + k && Added(t, staging[..], was, o, u)
    modifies o
    ensures Added(t, staging[..], was, o, u + 1)
  {
    ReduceVec(t, staging, o, m, k, was);
  }

  /** A live work item stands at the reduction it names; one whose row is past the subtile does not move the
    * sweep. */
  lemma LanePosition(t: Subtile, warp: nat, work: nat, m: nat, k: nat)
    requires t.warps > 0 && work < t.WorkPerWarp() && k < t.Chunks()
    requires m * t.Chunks() + k == warp * t.WorkPerWarp() + work
    ensures m < t.epiM ==>
              Position(t, warp, work) == m * t.Chunks() + k && Position(t, warp, work + 1) == m * t.Chunks() + k + 1
    ensures m >= t.epiM ==> Position(t, warp, work) == Position(t, warp, work + 1)
  {
    RowInRange(m, k, t.epiM, t.Chunks());
    PositionAt(t, warp, work, m * t.Chunks() + k);
  }

  lemma MaskedPosition(t: Subtile, warp: nat, work: nat)
    requires t.warps > 0 && work >= t.WorkPerWarp()
    ensures Position(t, warp, work + 1) == Position(t, warp, work)
  {
  }

  lemma PositionAt(t: Subtile, warp: nat, work: nat, u: nat)
    requires t.warps > 0 && work < t.WorkPerWarp() && u == warp * t.WorkPerWarp() + work
    ensures u < t.epiM * t.Chunks() ==> Position(t, warp, work) == u && Position(t, warp, work + 1) == u + 1
    ensures u >= t.epiM * t.Chunks() ==> Position(t, warp, work) == Position(t, warp, work + 1)
  {
    PositionIn(t, warp, work);
  }

  lemma PositionIn(t: Subtile, warp: nat, work: nat)
    requires t.warps > 0 && work < t.WorkPerWarp()
    ensures var u, n := warp * t.WorkPerWarp() + work, t.epiM * t.Chunks();
            && Position(t, warp, work) == (if u < n then u else n)
            && Position(t, warp, work + 1) == (if u + 1 < n then u + 1 else n)
  {
  }

  method ScatterWarp(t: Subtile, staging: array<real>, o: array2<real>, warp: nat, ghost was: (nat, nat) -> real)
    requires t.Valid() && t.epiM * N_PAD <= staging.Length
    requires Added(t, staging[..], was, o, Position(t, warp, 0))
    modifies o
    ensures Added(t, staging[..], was, o, Position(t, warp + 1, 0))
  {
    var iters := (t.WorkPerWarp() + LANES - 1) / LANES;
    for w := 0 to iters
      invariant Added(t, staging[..], was, o, Position(t, warp, w * LANES))
    {
      for lane := 0 to LANES
        invariant Added(t, staging[..], was, o, Position(t, warp, w * LANES + lane))
      {
        Lane(t, staging, o, warp, w * LANES + lane, was);
      }
    }
    NextWarp(t, warp, iters * LANES);
  }

  lemma NextWarp(t: Subtile, warp: nat, work: nat)
    requires t.warps > 0 && work >= t.WorkPerWarp()
    ensures Position(t, warp, work) == Position(t, warp + 1, 0)
  {
    assert (warp + 1) * t.WorkPerWarp() == warp * t.WorkPerWarp() + t.WorkPerWarp();
  }

  lemma AllRows(t: Subtile)
    requires t.Valid()
    ensures Position(t, 0, 0) == 0 && Position(t, t.warps, 0) == t.epiM * t.Chunks()
  {
    CeilDiv(t.epiM, t.warps);
    MulLe(t.epiM, t.RowsPerWarp() * t.warps, t.Chunks());
    assert t.warps * (t.RowsPerWarp() * t.Chunks()) == t.RowsPerWarp() * t.warps * t.Chunks();
    MulNonNeg(t.epiM, t.Chunks());
  }

  /** The sweep of all warps. The masks take out the lanes past a warp's work and the rows past the subtile;
    * what is left are the (row, chunk) pairs, each once, so `o` receives every row of the subtile once. */
  method ScatterSubtile(t: Subtile, staging: array<real>, o: array2<real>)
    requires t.Valid() && t.epiM * N_PAD <= staging.Length && o.Length0 == t.tRecv && o.Length1 == t.hidden
    modifies o
    ensures forall r: nat, col: nat :: r < o.Length0 && col < o.Length1 ==>
              o[r, col] == old(o[r, col]) + Sum(RowAdds(t, staging[..], r, col), t.epiM)
  {
    ghost var was := Contents(o);
    AllRows(t);
    for warp := 0 to t.warps
      invariant Added(t, staging[..], was, o, Position(t, warp, 0))
    {
      ScatterWarp(t, staging, o, warp, was);
    }
    forall r: nat, col: nat | r < o.Length0 && col < o.Length1
      ensures o[r, col] == was(r, col) + Sum(RowAdds(t, staging[..], r, col), t.epiM) {
      UnitsAreRows(t, staging[..], r, col, t.epiM);
    }
  }

  // ---------------------------------------------------------------------------
  // Subtiles and stripes.
  // ---------------------------------------------------------------------------

  /** The place of a column: its stripe, its subtile in the stripe, its column in the subtile. */
  predicate ColumnAt(col: nat, tileN: nat, epiN: nat, stripe: nat, sub: nat, n: nat) {
    sub * epiN < tileN && n < epiN && col == stripe * tileN + sub * epiN + n
  }

  /** When the subtiles divide the tile, every column of the row has one place and one only: no column is
    * added twice, none is left out. */
  lemma ColumnOnce(col: nat, tileN: nat, epiN: nat, stripe: nat, sub: nat, n: nat)
    requires epiN > 0 && tileN > 0 && tileN % epiN == 0
    ensures ColumnAt(col, tileN, epiN, stripe, sub, n) <==>
              stripe == col / tileN && sub == col % tileN / epiN && n == col % tileN % epiN
  {
    var k := tileN / epiN;
    assert tileN == k * epiN;
    if ColumnAt(col, tileN, epiN, stripe, sub, n) {
      if k <= sub {
        MulLe(k, sub, epiN);
      }
      PairBound(sub, n, k, epiN);
      DivUnique(col, stripe, sub * epiN + n, tileN);
      DivUnique(sub * epiN + n, sub, n, epiN);
    }
    if stripe == col / tileN && sub == col % tileN / epiN && n == col % tileN % epiN {
      assert col == col / tileN * tileN + col % tileN;
      assert col % tileN == sub * epiN + n;
    }
  }

  // ---------------------------------------------------------------------------
  // All subtiles of a stripe, and all stripes of a tile.
  // ---------------------------------------------------------------------------

  /** What row m of a tile gives to (r, col): its accumulator, if the row goes to r. */
  ghost function RowGives(recvToken: seq<int>, acc: (nat, nat) -> real, r: nat, col: nat): nat -> real {
    (m: nat) => if m < |recvToken| && recvToken[m] == r then acc(m, col) else 0.0
  }

  lemma {:induction false} SumShift(f: nat -> real, g: nat -> real, n: nat, k: nat)
    requires forall i: nat :: i < k ==> g(i) == f(n + i)
    ensures Sum(f, n + k) == Sum(f, n) + Sum(g, k)
  {
    if k > 0 {
      SumShift(f, g, n, k - 1);
    }
  }

  /** The staging buffer holds the subtile's part of the accumulators. */
  predicate Staged(t: Subtile, v: seq<real>, acc: (nat, nat) -> real) {
    forall m: nat, n: nat :: m < t.epiM && n < t.epiN ==> StagedAt(t, v, acc, m, n)
  }

  predicate StagedAt(t: Subtile, v: seq<real>, acc: (nat, nat) -> real, m: nat, n: nat) {
    m * N_PAD + n < |v| && v[m * N_PAD + n] == acc(t.mOrigin + m, t.nOrigin + n)
  }

  method StageSubtile(t: Subtile, acc: (nat, nat) -> real, staging: array<real>)
    requires t.Valid() && t.epiM * N_PAD <= staging.Length
    modifies staging
    ensures Staged(t, staging[..], acc)
  {
    var frag := (m: nat, n: nat) => acc(t.mOrigin + m, t.nOrigin + n);
    StageRegisters(frag, t.epiM, t.epiN, staging);
    forall m: nat, n: nat | m < t.epiM && n < t.epiN ensures StagedAt(t, staging[..], acc, m, n) {
      assert staging[m * N_PAD + n] == frag(m, n);
    }
  }

  /** A subtile carries the row sums of its columns on from its first row to its last, and leaves others. */
  lemma SubtileSum(t: Subtile, v: seq<real>, acc: (nat, nat) -> real, r: nat, col: nat)
    requires t.Valid() && Staged(t, v, acc) && r < t.tRecv
    ensures t.nOrigin <= col < t.nOrigin + t.epiN ==>
              Sum(RowGives(t.recvToken, acc, r, col), t.mOrigin + t.epiM)
                == Sum(RowGives(t.recvToken, acc, r, col), t.mOrigin) + Sum(RowAdds(t, v, r, col), t.epiM)
    ensures !(t.nOrigin <= col < t.nOrigin + t.epiN) ==> Sum(RowAdds(t, v, r, col), t.epiM) == 0.0
  {
    var f, g := RowGives(t.recvToken, acc, r, col), RowAdds(t, v, r, col);
    if t.nOrigin <= col < t.nOrigin + t.epiN {
      forall m: nat | m < t.epiM ensures g(m) == f(t.mOrigin + m) {
        assert StagedAt(t, v, acc, m, col - t.nOrigin);
      }
      SumShift(f, g, t.mOrigin, t.epiM);
    } else {
      SumZero(g, t.epiM);
    }
  }

  /** A CTA tile: rows of the pool, `stripes` column tiles, cut into subtiles. */
  datatype Tile = Tile(
    tileM: nat, tileN: nat, epiM: nat, epiN: nat, warps: nat, stripes: nat, recvToken: seq<int>, tRecv: nat
  ) {
    predicate Valid() {
      && epiM > 0 && tileM % epiM == 0 && tileN > 0 && epiN > 0 && tileN % epiN == 0
      && warps > 0 && epiN % VEC == 0 && epiN <= N_PAD && |recvToken| == tileM
    }

    function Hidden(): nat { stripes * tileN }

    function Sub(stripe: nat, i: nat, j: nat): Subtile {
      Subtile(epiM, epiN, warps, i * epiM, stripe * tileN + j * epiN, recvToken, tRecv, Hidden())
    }
  }

  lemma SubInside(t: Tile, stripe: nat, i: nat, j: nat)
    requires t.Valid() && stripe < t.stripes && i < t.tileM / t.epiM && j < t.tileN / t.epiN
    ensures t.Sub(stripe, i, j).Valid()
    ensures (i + 1) * t.epiM == i * t.epiM + t.epiM <= t.tileM
    ensures (j + 1) * t.epiN == j * t.epiN + t.epiN <= t.tileN
  {
    MulLe(i + 1, t.tileM / t.epiM, t.epiM);
    MulLe(j + 1, t.tileN / t.epiN, t.epiN);
    MulLe(stripe + 1, t.stripes, t.tileN);
    assert t.tileM / t.epiM * t.epiM == t.tileM && t.tileN / t.epiN * t.epiN == t.tileN;
    assert (stripe + 1) * t.tileN == stripe * t.tileN + t.tileN;
  }

  /** How far column col of the stripe at `first` has come while subtile (i, j) is due: columns before the
    * subtile's have taken in the rows up to the end of its row range, the others those before it. */
  ghost function GivenSum(t: Tile, acc: (nat, nat) -> real, r: nat, col: nat, first: nat, i: nat, j: nat): real {
    if first <= col < first + j * t.epiN then Sum(RowGives(t.recvToken, acc, r, col), (i + 1) * t.epiM)
    else if first <= col < first + t.tileN then Sum(RowGives(t.recvToken, acc, r, col), i * t.epiM)
    else 0.0
  }

  ghost predicate Given(t: Tile, acc: (nat, nat) -> real, was: (nat, nat) -> real, o: array2<real>,
          first: nat, i: nat, j: nat)
    reads o
  {
    && o.Length0 == t.tRecv && o.Length1 == t.Hidden()
    && forall r: nat, col: nat :: r < o.Length0 && col < o.Length1 ==>
         o[r, col] == was(r, col) + GivenSum(t, acc, r, col, first, i, j)
  }

  lemma GivenNext(t: Tile, acc: (nat, nat) -> real, stripe: nat, i: nat, j: nat, v: seq<real>, r: nat, col: nat)
    requires t.Valid() && stripe < t.stripes && i < t.tileM / t.epiM && j < t.tileN / t.epiN
    requires Staged(t.Sub(stripe, i, j), v, acc) && r < t.tRecv
    ensures GivenSum(t, acc, r, col, stripe * t.tileN, i, j + 1)
         == GivenSum(t, acc, r, col, stripe * t.tileN, i, j) + Sum(RowAdds(t.Sub(stripe, i, j), v, r, col), t.epiM)
  {
    SubInside(t, stripe, i, j);
    SubtileSum(t.Sub(stripe, i, j), v, acc, r, col);
  }

  /** One subtile: registers to staging, staging to `o`. */
  method ScatterOne(t: Tile, acc: (nat, nat) -> real, stripe: nat, i: nat, j: nat, staging: array<real>, o: array2<real>,
          ghost was: (nat, nat) -> real)
    requires t.Valid() && stripe < t.stripes && i < t.tileM / t.epiM && j < t.tileN / t.epiN
    requires t.epiM * N_PAD <= staging.Length && Given(t, acc, was, o, stripe * t.tileN, i, j)
    modifies staging, o
    ensures Given(t, acc, was, o, stripe * t.tileN, i, j + 1)
  {
    SubInside(t, stripe, i, j);
    StageSubtile(t.Sub(stripe, i, j), acc, staging);
    ghost var v := staging[..];
    ScatterSubtile(t.Sub(stripe, i, j), staging, o);
    forall r: nat, col: nat | r < t.tRecv
      ensures GivenSum(t, acc, r, col, stripe * t.tileN, i, j + 1) == GivenSum(t, acc, r, col, stripe * t.tileN, i, j)
                + Sum(RowAdds(t.Sub(stripe, i, j), v, r, col), t.epiM) {
      GivenNext(t, acc, stripe, i, j, v, r, col);
    }
  }

  /** After the last subtile of a row range the next range starts. */
  lemma GivenRange(t: Tile, acc: (nat, nat) -> real, r: nat, col: nat, first: nat, i: nat)
    requires t.Valid()
    ensures GivenSum(t, acc, r, col, first, i + 1, 0) == GivenSum(t, acc, r, col, first, i, t.tileN / t.epiN)
  {
    assert t.tileN / t.epiN * t.epiN == t.tileN;
  }

  /** One CTA: all its subtiles. Every column of the stripe takes in every row of the tile once. */
  method ScatterStripe(t: Tile, acc: (nat, nat) -> real, stripe: nat, staging: array<real>, o: array2<real>)
    requires t.Valid() && stripe < t.stripes && t.epiM * N_PAD <= staging.Length
    requires o.Length0 == t.tRecv && o.Length1 == t.Hidden()
    modifies staging, o
    ensures forall r: nat, col: nat :: r < o.Length0 && col < o.Length1 ==>
              o[r, col] == old(o[r, col]) +
                if stripe * t.tileN <= col < stripe * t.tileN + t.tileN
                then Sum(RowGives(t.recvToken, acc, r, col), t.tileM) else 0.0
  {
    ghost var was := Contents(o);
    ghost var first := stripe * t.tileN;
    for i := 0 to t.tileM / t.epiM
      invariant Given(t, acc, was, o, first, i, 0)
    {
      for j := 0 to t.tileN / t.epiN
        invariant Given(t, acc, was, o, first, i, j)
      {
        ScatterOne(t, acc, stripe, i, j, staging, o, was);
      }
      forall r: nat, col: nat
        ensures GivenSum(t, acc, r, col, first, i + 1, 0) == GivenSum(t, acc, r, col, first, i, t.tileN / t.epiN) {
        GivenRange(t, acc, r, col, first, i);
      }
    }
    assert t.tileM / t.epiM * t.epiM == t.tileM;
  }

  /** The stripes in `seen` have been swept, the others not. */
  ghost predicate Swept(t: Tile, acc: (nat, nat) -> real, was: (nat, nat) -> real, o: array2<real>, seen: seq<nat>)
    requires t.tileN > 0
    reads o
  {
    && o.Length0 == t.tRecv && o.Length1 == t.Hidden()
    && forall r: nat, col: nat :: r < o.Length0 && col < o.Length1 ==>
         o[r, col] == was(r, col) +
           if col / t.tileN in seen then Sum(RowGives(t.recvToken, acc, r, col), t.tileM) else 0.0
  }

  method SweepOne(t: Tile, acc: (nat, nat) -> real, stripe: nat, staging: array<real>, o: array2<real>,
          ghost was: (nat, nat) -> real, ghost seen: seq<nat>)
    requires t.Valid() && t.epiM * N_PAD <= staging.Length && stripe < t.stripes && stripe !in seen
    requires Swept(t, acc, was, o, seen)
    modifies staging, o
    ensures Swept(t, acc, was, o, seen + [stripe])
  {
    ScatterStripe(t, acc, stripe, staging, o);
    forall col: nat ensures stripe * t.tileN <= col < stripe * t.tileN + t.tileN <==> col / t.tileN == stripe {
      StripeOf(col, t.tileN, stripe);
    }
  }

  /** All column tiles, in any order of the CTAs: every (row, column) accumulator of the tile is added once, to
    * the row's token and its own column. */
  method ScatterTile(t: Tile, acc: (nat, nat) -> real, order: seq<nat>, staging: array<real>, o: array2<real>)
    requires t.Valid() && t.epiM * N_PAD <= staging.Length && o.Length0 == t.tRecv && o.Length1 == t.Hidden()
    requires forall stripe: nat :: stripe < t.stripes ==> stripe in order
    requires forall i: nat :: i < |order| ==> order[i] < t.stripes
    requires forall i: nat, j: nat :: i < j < |order| ==> order[i] != order[j]
    modifies staging, o
    ensures forall r: nat, col: nat :: r < o.Length0 && col < o.Length1 ==>
              o[r, col] == old(o[r, col]) + Sum(RowGives(t.recvToken, acc, r, col), t.tileM)
  {
    ghost var was := Contents(o);
    for n := 0 to |order|
      invariant Swept(t, acc, was, o, order[..n])
    {
      SweepOne(t, acc, order[n], staging, o, was, order[..n]);
      assert order[..n + 1] == order[..n] + [order[n]];
    }
    forall col: nat | col < o.Length1 ensures col / t.tileN in order[..|order|] {
      DivBound(col, t.stripes, t.tileN);
      assert order[..|order|] == order;
    }
  }

  lemma StripeOf(col: nat, tileN: nat, stripe: nat)
    requires tileN > 0
    ensures stripe * tileN <= col < stripe * tileN + tileN <==> col / tileN == stripe
  {
    assert col == col / tileN * tileN + col % tileN;
    if stripe * tileN <= col < stripe * tileN + tileN {
      DivUnique(col, stripe, col - stripe * tileN, tileN);
    }
  }
}
