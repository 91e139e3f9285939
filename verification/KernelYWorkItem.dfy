/** One CTA's whole work item: the claim, the ready spin, the scatter of its stripe and the end of the tile. The
  * scatter leaves in `o` what the epilogue's lane sweep leaves there, and opens the gate's guard. */
module KernelYWorkItem {
  import Arith
  import opened Sums
  import opened KernelY
  import opened KernelYDevice
  import S = KernelYSafety
  import ScatterStore

  /** The accumulators of a tile, by row and column. */
  function TileAcc(c: Config, t: nat): (nat, nat) -> real {
    (m: nat, col: nat) => c.term(SlotOf(c, t, m), col)
  }

  /** The receive tokens of its rows. */
  function TileTokens(c: Config, t: nat): (tokens: seq<int>)
    ensures |tokens| == c.tileM
  {
    seq(c.tileM, m requires 0 <= m => if SlotOf(c, t, m) < |c.recvToken| then c.recvToken[SlotOf(c, t, m)] else -1)
  }

  /** What the rows of tile t give to (r, col): the sum that ScatterStore.ScatterStripe adds. */
  ghost function Gives(c: Config, t: nat, r: nat, col: nat): nat -> real {
    ScatterStore.RowGives(TileTokens(c, t), TileAcc(c, t), r, col)
  }

  predicate InStripe(c: Config, n: nat, col: nat) {
    n * c.tileN <= col < (n + 1) * c.tileN
  }

  // ---------------------------------------------------------------------------
  // The scatter, cell by cell.
  // ---------------------------------------------------------------------------

  /** Cells of the job before (row, col) in row-major order. */
  ghost function IssuedTo(c: Config, t: nat, n: nat, row: nat, col: nat): set<(nat, nat)>
    requires c.Valid()
  {
    set m: nat, k: nat | m < c.tileM && k < (n + 1) * c.tileN && InJob(c, t, n, m, k)
                         && (m < row || (m == row && k < col)) :: (m, k)
  }

  ghost function GivenTo(c: Config, t: nat, n: nat, row: nat, col: nat, r: nat, k: nat): real {
    if !InStripe(c, n, k) then 0.0
    else if k < col then Sum(Gives(c, t, r, k), row + 1) else Sum(Gives(c, t, r, k), row)
  }

  /** s is s0 with the job's cells before (row, col) added by peer p of claim j. */
  ghost predicate Scattered(c: Config, s0: State, s: State, j: nat, p: nat, n: nat, row: nat, col: nat) {
    && c.Valid() && j < |s0.claims| && p < |s0.claims[j].peers| && c.Tile(s0.claims[j].idx) < c.totalTiles
    && s == s0.(claims := SetPeer(s0, j, p, Scatter(IssuedTo(c, c.Tile(s0.claims[j].idx), n, row, col))), o := s.o)
    && s.o.Keys == s0.o.Keys
    && forall r: nat, k: nat :: r < c.numRecv && (r, k) in s0.o ==>
         s.o[(r, k)] == s0.o[(r, k)] + GivenTo(c, c.Tile(s0.claims[j].idx), n, row, col, r, k)
  }

  lemma GivesIs(c: Config, t: nat, row: nat, r: nat, k: nat)
    requires c.Valid() && t < c.totalTiles && row < c.tileM
    ensures SlotOf(c, t, row) < |c.recvToken|
    ensures Gives(c, t, r, k)(row) == if c.recvToken[SlotOf(c, t, row)] == r then c.term(SlotOf(c, t, row), k) else 0.0
  {
    S.SlotRoundTrip(c, t, row);
  }

  lemma GivenNext(c: Config, t: nat, n: nat, row: nat, col: nat, r: nat, k: nat)
    requires c.Valid() && t < c.totalTiles && row < c.tileM && InStripe(c, n, col)
    ensures GivenTo(c, t, n, row, col + 1, r, k)
         == GivenTo(c, t, n, row, col, r, k) + if k == col then Gives(c, t, r, col)(row) else 0.0
  {
  }

  /** A cell whose row is not of the job gives nothing. */
  lemma PaddingGives(c: Config, t: nat, n: nat, row: nat, col: nat, r: nat)
    requires c.Valid() && t < c.totalTiles && row < c.tileM && r < c.numRecv && n < c.stripes && InStripe(c, n, col)
    requires !InJob(c, t, n, row, col)
    ensures Gives(c, t, r, col)(row) == 0.0
  {
    GivesIs(c, t, row, r, col);
  }

  lemma IssuedNext(c: Config, t: nat, n: nat, row: nat, col: nat)
    requires c.Valid() && row < c.tileM && col < (n + 1) * c.tileN
    ensures InJob(c, t, n, row, col) ==> IssuedTo(c, t, n, row, col + 1) == IssuedTo(c, t, n, row, col) + {(row, col)}
    ensures !InJob(c, t, n, row, col) ==> IssuedTo(c, t, n, row, col + 1) == IssuedTo(c, t, n, row, col)
    ensures (row, col) !in IssuedTo(c, t, n, row, col)
  {
  }

  lemma AddCell(c: Config, s0: State, s: State, j: nat, p: nat, n: nat, row: nat, col: nat)
    requires Scattered(c, s0, s, j, p, n, row, col) && Enabled(c, s, Add(j, p, row, col))
    requires n == c.Stripe(s0.claims[j].idx, p)
    ensures Scattered(c, s0, Next(c, s, Add(j, p, row, col)), j, p, n, row, col + 1)
  {
    var t, s' := c.Tile(s0.claims[j].idx), Next(c, s, Add(j, p, row, col));
    IssuedNext(c, t, n, row, col);
    TwiceSet(s0, j, p, s.claims[j].peers[p], s'.claims[j].peers[p]);
    forall r: nat, k: nat | r < c.numRecv && (r, k) in s0.o
      ensures s'.o[(r, k)] == s0.o[(r, k)] + GivenTo(c, t, n, row, col + 1, r, k) {
      GivenNext(c, t, n, row, col, r, k);
      GivesIs(c, t, row, r, col);
    }
  }

  lemma SkipCell(c: Config, s0: State, s: State, j: nat, p: nat, n: nat, row: nat, col: nat)
    requires Scattered(c, s0, s, j, p, n, row, col) && row < c.tileM && InStripe(c, n, col) && n < c.stripes
    requires !InJob(c, c.Tile(s0.claims[j].idx), n, row, col)
    ensures Scattered(c, s0, s, j, p, n, row, col + 1)
  {
    var t := c.Tile(s0.claims[j].idx);
    IssuedNext(c, t, n, row, col);
    forall r: nat, k: nat | r < c.numRecv && (r, k) in s0.o
      ensures s.o[(r, k)] == s0.o[(r, k)] + GivenTo(c, t, n, row, col + 1, r, k) {
      GivenNext(c, t, n, row, col, r, k);
      PaddingGives(c, t, n, row, col, r);
    }
  }

  lemma NextRow(c: Config, s0: State, s: State, j: nat, p: nat, n: nat, row: nat)
    requires Scattered(c, s0, s, j, p, n, row, (n + 1) * c.tileN)
    ensures Scattered(c, s0, s, j, p, n, row + 1, n * c.tileN)
  {
    var t := c.Tile(s0.claims[j].idx);
    assert IssuedTo(c, t, n, row + 1, n * c.tileN) == IssuedTo(c, t, n, row, (n + 1) * c.tileN);
  }

  lemma FirstCell(c: Config, s0: State, j: nat, p: nat, n: nat)
    requires c.Valid() && j < |s0.claims| && p < |s0.claims[j].peers| && c.Tile(s0.claims[j].idx) < c.totalTiles
    requires s0.claims[j].peers[p] == Scatter({})
    ensures Scattered(c, s0, s0, j, p, n, 0, n * c.tileN)
  {
    assert IssuedTo(c, c.Tile(s0.claims[j].idx), n, 0, n * c.tileN) == {};
    SamePeer(s0, j, p);
  }

  lemma SamePeer(s: State, j: nat, p: nat)
    requires j < |s.claims| && p < |s.claims[j].peers|
    ensures SetPeer(s, j, p, s.claims[j].peers[p]) == s.claims
  {
    assert s.claims[j].peers[p := s.claims[j].peers[p]] == s.claims[j].peers;
  }

  /** The scatter keeps the peer's turn, and when it is through the gate's guard holds. */
  lemma ScatteredRuns(c: Config, s0: State, s: State, j: nat, p: nat, n: nat, row: nat, col: nat)
    requires Scattered(c, s0, s, j, p, n, row, col) && CanRun(c, s0, j, p)
    ensures CanRun(c, s, j, p) && s.claims[j].idx == s0.claims[j].idx && |s.claims| == |s0.claims|
    ensures s.claims[j].peers[p] == Scatter(IssuedTo(c, c.Tile(s0.claims[j].idx), n, row, col))
  {
  }

  lemma AllIssued(c: Config, t: nat, n: nat)
    requires c.Valid()
    ensures forall row: nat, col: nat :: InJob(c, t, n, row, col) ==> (row, col) in IssuedTo(c, t, n, c.tileM, n * c.tileN)
  {
  }

  // ---------------------------------------------------------------------------
  // The end of the tile.
  // ---------------------------------------------------------------------------

  lemma {:induction false} BookRowsKeeps(c: Config, s: State, j: nat, p: nat, n: nat)
    requires AtBook(c, s, j, p) && n <= c.tileM && |c.recvToken| == c.Slots()
    ensures var s' := BookRows(c, s, j, p, n);
            && s'.o == s.o && s'.stripesDone == s.stripesDone && |s'.claims| == |s.claims| && s'.head == s.head
            && s'.claims[j].cluster == s.claims[j].cluster && s'.claims[j].published == s.claims[j].published
  {
    if n > 0 {
      BookRowsKeeps(c, s, j, p, n - 1);
      RowSlot(c, c.Tile(s.claims[j].idx), n - 1);
    }
  }

  lemma EndKeeps(c: Config, s: State, j: nat, p: nat)
    requires c.Valid() && j < |s.claims| && p < |s.claims[j].peers| && c.Tile(s.claims[j].idx) < c.totalTiles
    requires |s.stripesDone| == c.totalTiles && |s.remaining| == |s.done| == c.numRecv
    ensures var s', t := EndOfTile(c, s, j, p), c.Tile(s.claims[j].idx);
            && s'.o == s.o && s'.stripesDone == s.stripesDone[t := s.stripesDone[t] + 1]
            && |s'.claims| == |s.claims| && s'.head == s.head && s'.claims[j].idx == s.claims[j].idx
            && p < |s'.claims[j].peers| && Retired(s'.claims[j].peers[p])
  {
    BookRowsKeeps(c, Gated(c, s, j, p), j, p, Threads(c));
  }

  lemma {:induction false} StepsTrans(c: Config, s: State, s0: State, steps: seq<Action>, s': State)
    requires c.Valid() && Path(c, s, s0) && Steps(c, s0, steps, s')
    ensures Path(c, s, s')
    decreases |steps|
  {
    if steps != [] {
      var n := |steps| - 1;
      var mid :| Steps(c, s0, steps[..n], mid) && Enabled(c, mid, steps[n]) && s' == Next(c, mid, steps[n]);
      StepsTrans(c, s, s0, steps[..n], mid);
      PathExtend(c, s, mid, steps[n]);
    }
  }

  lemma PathTrans(c: Config, s: State, s0: State, s': State)
    requires c.Valid() && Path(c, s, s0) && Path(c, s0, s')
    ensures Path(c, s, s')
  {
    var steps :| Steps(c, s0, steps, s');
    StepsTrans(c, s, s0, steps, s');
  }

  // ---------------------------------------------------------------------------
  // The work item.
  // ---------------------------------------------------------------------------

  /** The cluster has nothing under way: its CTAs are through with every claim it has taken. */
  ghost predicate Idle(c: Config, s: State, cluster: nat)
    requires c.Valid()
  {
    cluster < c.clusters && forall i: nat :: i < |s.claims| && s.claims[i].cluster == cluster ==>
      && s.claims[i].published && s.claims[i].idx < c.TotalWork()
      && forall p: nat :: p < |s.claims[i].peers| ==> Retired(s.claims[i].peers[p])
  }

  /** Stripe n of tile t has been added to `o`, every row to its token, and counted at the tile's gate. */
  ghost predicate StripeAdded(c: Config, s: State, s': State, t: nat, n: nat)
    requires c.Valid() && t < c.totalTiles
  {
    && t < |s.stripesDone| == |s'.stripesDone| && s'.stripesDone[t] == s.stripesDone[t] + 1
    && forall r: nat, col: nat :: r < c.numRecv && col < c.Hidden() ==>
         && (r, col) in s.o && (r, col) in s'.o
         && s'.o[(r, col)] == s.o[(r, col)] + if InStripe(c, n, col) then Sum(Gives(c, t, r, col), c.tileM) else 0.0
  }

  /** The scatter of one row of the stripe, column by column; padding rows are predicated off. */
  method ScatterCells(d: Device, j: nat, p: nat, n: nat, row: nat, ghost s0: State, ghost start: State)
    requires d.c.Valid() && Scattered(d.c, s0, d.Snapshot(), j, p, n, row, n * d.c.tileN)
    requires n == d.c.Stripe(s0.claims[j].idx, p) && n < d.c.stripes && row < d.c.tileM
    requires CanRun(d.c, s0, j, p) && S.Shape(d.c, s0) && Path(d.c, start, d.Snapshot())
    modifies d
    ensures Scattered(d.c, s0, d.Snapshot(), j, p, n, row + 1, n * d.c.tileN) && Path(d.c, start, d.Snapshot())
  {
    assert (n + 1) * d.c.tileN == n * d.c.tileN + d.c.tileN;
    for col := n * d.c.tileN to (n + 1) * d.c.tileN
      invariant Scattered(d.c, s0, d.Snapshot(), j, p, n, row, col) && Path(d.c, start, d.Snapshot())
    {
      AddOrSkip(d, j, p, n, row, col, s0, start);
    }
    NextRow(d.c, s0, d.Snapshot(), j, p, n, row);
  }

  /** One predicated reduction. */
  method AddOrSkip(d: Device, j: nat, p: nat, n: nat, row: nat, col: nat, ghost s0: State, ghost start: State)
    requires d.c.Valid() && Scattered(d.c, s0, d.Snapshot(), j, p, n, row, col) && n == d.c.Stripe(s0.claims[j].idx, p)
    requires row < d.c.tileM && InStripe(d.c, n, col) && n < d.c.stripes
    requires CanRun(d.c, s0, j, p) && S.Shape(d.c, s0) && Path(d.c, start, d.Snapshot())
    modifies d
    ensures Scattered(d.c, s0, d.Snapshot(), j, p, n, row, col + 1) && Path(d.c, start, d.Snapshot())
  {
    ghost var s := d.Snapshot();
    ScatteredRuns(d.c, s0, s, j, p, n, row, col);
    if InJob(d.c, d.c.Tile(d.claims[j].idx), n, row, col) {
      S.ColumnInStripe(d.c, n, col);
      IssuedNext(d.c, d.c.Tile(d.claims[j].idx), n, row, col);
      PathExtend(d.c, start, s, Add(j, p, row, col));
      AddCell(d.c, s0, s, j, p, n, row, col);
      d.ReduceAdd(j, p, row, col);
    } else {
      SkipCell(d.c, s0, s, j, p, n, row, col);
    }
  }

  /** A published claim, worked off by one of its CTAs. */
  method ScatterAndEnd(d: Device, j: nat, p: nat, ghost start: State)
    requires d.c.Valid() && S.Shape(d.c, d.Snapshot()) && CanRun(d.c, d.Snapshot(), j, p) && j < d.c.TotalWork()
    requires d.c.Stripe(j, p) < d.c.running && d.claims[j].peers[p] == Scatter({}) && p < d.c.clusterN
    requires Path(d.c, start, d.Snapshot())
    modifies d
    ensures Path(d.c, start, d.Snapshot()) && |d.claims| == old(|d.claims|) && p < |d.claims[j].peers|
    ensures d.claims[j].idx == j && Retired(d.claims[j].peers[p])
    ensures d.c.Tile(j) < d.c.totalTiles && StripeAdded(d.c, old(d.Snapshot()), d.Snapshot(), d.c.Tile(j), d.c.Stripe(j, p))
  {
    ghost var s0 := d.Snapshot();
    S.StripeRoundTrip(d.c, j, p);
    var n := d.c.Stripe(j, p);
    FirstCell(d.c, s0, j, p, n);
    if n < d.c.stripes {
      for row := 0 to d.c.tileM
        invariant Scattered(d.c, s0, d.Snapshot(), j, p, n, row, n * d.c.tileN) && Path(d.c, start, d.Snapshot())
      {
        ScatterCells(d, j, p, n, row, s0, start);
      }
    } else {
      NoCells(d.c, s0, j, p, n);
    }
    FinishStripe(d, j, p, n, s0, start);
  }

  /** A stripe past the last column tile has no cells. */
  lemma NoCells(c: Config, s0: State, j: nat, p: nat, n: nat)
    requires Scattered(c, s0, s0, j, p, n, 0, n * c.tileN) && n >= c.stripes
    ensures IssuedTo(c, c.Tile(s0.claims[j].idx), n, c.tileM, n * c.tileN) == {}
    ensures s0.claims == SetPeer(s0, j, p, Scatter({}))
    ensures forall col: nat :: col < c.Hidden() ==> !InStripe(c, n, col)
  {
    assert IssuedTo(c, c.Tile(s0.claims[j].idx), n, 0, n * c.tileN) == {};
    Arith.MulLe(c.stripes, n, c.tileN);
  }

  method FinishStripe(d: Device, j: nat, p: nat, n: nat, ghost s0: State, ghost start: State)
    requires d.c.Valid() && S.Shape(d.c, s0) && CanRun(d.c, s0, j, p) && j < d.c.TotalWork() && p < d.c.clusterN
    requires n == d.c.Stripe(j, p) && s0.claims[j].idx == j && d.c.Tile(j) < d.c.totalTiles
    requires Path(d.c, start, d.Snapshot())
    requires n < d.c.stripes ==> Scattered(d.c, s0, d.Snapshot(), j, p, n, d.c.tileM, n * d.c.tileN)
    requires n >= d.c.stripes ==>
               && d.Snapshot() == s0 && s0.claims[j].peers[p] == Scatter({})
               && forall col: nat :: col < d.c.Hidden() ==> !InStripe(d.c, n, col)
    modifies d
    ensures Path(d.c, start, d.Snapshot()) && |d.claims| == |s0.claims| && p < |d.claims[j].peers|
    ensures d.claims[j].idx == j && Retired(d.claims[j].peers[p])
    ensures StripeAdded(d.c, s0, d.Snapshot(), d.c.Tile(j), n)
  {
    ghost var s1 := d.Snapshot();
    ReadyToEnd(d.c, s0, s1, j, p, n);
    d.End(j, p);
    PathTrans(d.c, start, s1, d.Snapshot());
    EndKeeps(d.c, s1, j, p);
  }

  lemma ReadyToEnd(c: Config, s0: State, s: State, j: nat, p: nat, n: nat)
    requires c.Valid() && S.Shape(c, s0) && CanRun(c, s0, j, p) && j < c.TotalWork() && p < c.clusterN
    requires n == c.Stripe(j, p) && s0.claims[j].idx == j && c.Tile(j) < c.totalTiles
    requires n < c.stripes ==> Scattered(c, s0, s, j, p, n, c.tileM, n * c.tileN)
    requires n >= c.stripes ==>
               && s == s0 && s0.claims[j].peers[p] == Scatter({})
               && forall col: nat :: col < c.Hidden() ==> !InStripe(c, n, col)
    ensures Enabled(c, s, Gate(j, p)) && s.claims[j].idx == j && |s.claims| == |s0.claims|
    ensures s.stripesDone == s0.stripesDone && |s.stripesDone| == c.totalTiles && |s.remaining| == |s.done| == c.numRecv
    ensures forall r: nat, col: nat :: r < c.numRecv && col < c.Hidden() ==>
              && (r, col) in s0.o && (r, col) in s.o
              && s.o[(r, col)] == s0.o[(r, col)] + if InStripe(c, n, col) then Sum(Gives(c, c.Tile(j), r, col), c.tileM) else 0.0
  {
    AllIssued(c, c.Tile(j), n);
    if n < c.stripes {
      ScatteredRuns(c, s0, s, j, p, n, c.tileM, n * c.tileN);
    }
  }

  /** The first turn of the ready spin on a claim just taken by an idle cluster. */
  method SpinAfterClaim(d: Device, cluster: nat, j: nat, ghost s: State) returns (ready: bool)
    requires d.c.Valid() && S.Shape(d.c, s) && Idle(d.c, s, cluster) && j == s.head < d.c.TotalWork()
    requires Enabled(d.c, s, ClaimNext(cluster)) && d.Snapshot() == Next(d.c, s, ClaimNext(cluster))
    requires Path(d.c, s, d.Snapshot())
    modifies d
    ensures Path(d.c, s, d.Snapshot()) && S.Shape(d.c, d.Snapshot()) && |d.claims| == j + 1 == |s.claims| + 1
    ensures d.o == s.o && d.tileNStripesDone == s.stripesDone && d.arrivalCount == s.arrival
    ensures d.c.Tile(j) < d.c.totalTiles == |s.arrival|
    ensures ready == (s.arrival[d.c.Tile(j)] == d.c.target[d.c.Tile(j)])
    ensures d.claims[j].peers == InitialPeers(d.c, j)
    ensures ready ==> forall p: nat :: p < d.c.clusterN ==> CanRun(d.c, d.Snapshot(), j, p)
  {
    ghost var s1 := d.Snapshot();
    S.ShapeClaim(d.c, s, cluster);
    S.StripeRoundTrip(d.c, j, 0);
    forall p: nat | p < d.c.clusterN ensures Count(Unretired(s1, j, p), j) == 0 {
      CountNone(Unretired(s1, j, p), j);
    }
    ready := d.SpinOnce(j);
    if ready {
      PathExtend(d.c, s, s1, Publish(j));
      S.ShapeStep(d.c, s1, Publish(j));
    }
  }

  /** What one CTA of a cluster does on its next work item. Either there was none for it, or its tile was not
    * ready yet, or its stripe is in `o` and counted and the CTA is free again; and all of it in steps of the
    * protocol, so that what holds of the reachable states holds before, between and after. */
  method WorkItem(d: Device, cluster: nat, p: nat) returns (linearIdx: nat, worked: bool)
    requires d.c.Valid() && Reachable(d.c, d.Snapshot()) && Idle(d.c, d.Snapshot(), cluster) && p < d.c.clusterN
    modifies d
    ensures Path(d.c, old(d.Snapshot()), d.Snapshot()) && Reachable(d.c, d.Snapshot())
    ensures linearIdx == old(d.consumerHead) && |d.claims| == linearIdx + 1
    ensures worked ==> linearIdx < d.c.TotalWork() && d.c.Stripe(linearIdx, p) < d.c.running
    ensures worked ==> d.c.Tile(linearIdx) < d.c.totalTiles == old(|d.arrivalCount|)
    ensures worked ==> old(d.arrivalCount)[d.c.Tile(linearIdx)] == d.c.target[d.c.Tile(linearIdx)]
    ensures worked ==> p < |d.claims[linearIdx].peers| && Retired(d.claims[linearIdx].peers[p])
    ensures worked ==> StripeAdded(d.c, old(d.Snapshot()), d.Snapshot(), d.c.Tile(linearIdx), d.c.Stripe(linearIdx, p))
    ensures !worked && linearIdx < d.c.TotalWork() && d.c.Stripe(linearIdx, p) < d.c.running ==>
              && d.c.Tile(linearIdx) < d.c.totalTiles == old(|d.arrivalCount|)
              && old(d.arrivalCount)[d.c.Tile(linearIdx)] != d.c.target[d.c.Tile(linearIdx)]
  {
    ghost var s := d.Snapshot();
    S.ReachableInv(d.c, s);
    PathRefl(d.c, s);
    PathExtend(d.c, s, s, ClaimNext(cluster));
    linearIdx := d.FetchNextWorkIdx(cluster);
    worked := false;
    if linearIdx < d.c.TotalWork() {
      S.StripeRoundTrip(d.c, linearIdx, p);
      var ready := SpinAfterClaim(d, cluster, linearIdx, s);
      if ready && d.c.Stripe(linearIdx, p) < d.c.running {
        ScatterAndEnd(d, linearIdx, p, s);
        worked := true;
      }
    }
    ReachedByPath(d.c, s, d.Snapshot());
  }

  lemma ReachedByPath(c: Config, s: State, s': State)
    requires c.Valid() && Reachable(c, s) && Path(c, s, s')
    ensures Reachable(c, s')
  {
    var steps :| Steps(c, s, steps, s');
    PathReachable(c, s, steps, s');
  }

  /** The epilogue's own sweep of the stripe, subtile by subtile and lane by lane, changes `o` just so. */
  method SweepStripe(c: Config, t: nat, n: nat, shape: ScatterStore.Tile, staging: array<real>, o: array2<real>)
    requires c.Valid() && t < c.totalTiles && n < c.stripes && shape.Valid()
    requires shape.tileM == c.tileM && shape.tileN == c.tileN && shape.stripes == c.stripes
    requires shape.recvToken == TileTokens(c, t) && shape.tRecv == c.numRecv
    requires shape.epiM * ScatterStore.N_PAD <= staging.Length && o.Length0 == c.numRecv && o.Length1 == c.Hidden()
    modifies staging, o
    ensures forall r: nat, col: nat :: r < c.numRecv && col < c.Hidden() ==>
              o[r, col] == old(o[r, col]) + if InStripe(c, n, col) then Sum(Gives(c, t, r, col), c.tileM) else 0.0
  {
    assert (n + 1) * c.tileN == n * c.tileN + c.tileN;
    ScatterStore.ScatterStripe(shape, TileAcc(c, t), n, staging, o);
  }
}
