/** Every run of kernel Y ends, what it has done when it ends, and exactly when its gate is safe. */
module KernelYCompletion {
  import opened Arith
  import opened Sums
  import opened KernelY
  import opened KernelYSafety

  // ---------------------------------------------------------------------------
  // Claims: each index once, one drained claim per cluster.
  // ---------------------------------------------------------------------------

  ghost function Drained(c: Config, s: State): nat -> bool
    requires c.Valid()
  {
    (k: nat) => exists j :: 0 <= j < |s.claims| && s.claims[j].cluster == k && s.claims[j].idx >= c.TotalWork()
  }

  ghost predicate InvClaims(c: Config, s: State)
    requires c.Valid()
  {
    && Shape(c, s)
    && Count(Drained(c, s), c.clusters) == (if |s.claims| <= c.TotalWork() then 0 else |s.claims| - c.TotalWork())
    && (forall j :: 0 <= j < |s.claims| && j < c.TotalWork() && s.claims[j].published ==>
          c.Tile(j) < c.totalTiles && s.arrival[c.Tile(j)] == c.target[c.Tile(j)])
  }

  lemma DrainedClaim(c: Config, s: State, k: nat)
    requires c.Valid() && InvClaims(c, s) && Enabled(c, s, ClaimNext(k))
    ensures Count(Drained(c, Next(c, s, ClaimNext(k))), c.clusters)
            == Count(Drained(c, s), c.clusters) + if s.head >= c.TotalWork() then 1 else 0
  {
    var s' := Next(c, s, ClaimNext(k));
    var p, q := Drained(c, s), Drained(c, s');
    forall k': nat | k' < c.clusters ensures q(k') == (p(k') || (k' == k && s.head >= c.TotalWork())) {
      if p(k') {
        var j :| 0 <= j < |s.claims| && s.claims[j].cluster == k' && s.claims[j].idx >= c.TotalWork();
        assert s'.claims[j] == s.claims[j];
      }
      if k' == k && s.head >= c.TotalWork() {
        assert s'.claims[s.head].cluster == k';
      }
    }
    if s.head >= c.TotalWork() {
      CountBump(p, q, k, c.clusters);
    } else {
      CountEq(q, p, c.clusters);
    }
  }

  lemma DrainedSame(c: Config, s: State, a: Action)
    requires c.Valid() && InvClaims(c, s) && Enabled(c, s, a) && !a.ClaimNext?
    ensures Count(Drained(c, Next(c, s, a)), c.clusters) == Count(Drained(c, s), c.clusters)
  {
    var s' := Next(c, s, a);
    assert |s'.claims| == |s.claims|;
    forall k: nat | k < c.clusters ensures Drained(c, s')(k) == Drained(c, s)(k) {
      if Drained(c, s)(k) {
        var j :| 0 <= j < |s.claims| && s.claims[j].cluster == k && s.claims[j].idx >= c.TotalWork();
        assert s'.claims[j].cluster == k && s'.claims[j].idx == s.claims[j].idx;
      }
    }
    CountEq(Drained(c, s'), Drained(c, s), c.clusters);
  }

  lemma ClaimsStep(c: Config, s: State, a: Action)
    requires c.Valid() && InvClaims(c, s) && Enabled(c, s, a)
    ensures InvClaims(c, Next(c, s, a))
  {
    var s' := Next(c, s, a);
    ShapeStep(c, s, a);
    if a.ClaimNext? {
      DrainedClaim(c, s, a.cluster);
      CountAll(Drained(c, s), c.clusters);
    } else {
      DrainedSame(c, s, a);
    }
    forall j | 0 <= j < |s'.claims| && j < c.TotalWork() && s'.claims[j].published
      ensures c.Tile(j) < c.totalTiles && s'.arrival[c.Tile(j)] == c.target[c.Tile(j)]
    {
      StripeRoundTrip(c, j, 0);
      if j < |s.claims| {
        assert WfClaim(c, j, s.claims[j]);
      }
    }
  }

  lemma {:induction false} RunClaims(c: Config, steps: seq<Action>, s: State)
    requires c.Valid() && Run(c, steps, s)
    ensures InvClaims(c, s)
    decreases |steps|
  {
    if steps == [] {
      InitInv(c);
      CountNone(Drained(c, s), c.clusters);
    } else {
      var n := |steps| - 1;
      var s0 :| Run(c, steps[..n], s0) && Enabled(c, s0, steps[n]) && s == Next(c, s0, steps[n]);
      RunClaims(c, steps[..n], s0);
      ClaimsStep(c, s0, steps[n]);
    }
  }

  // ---------------------------------------------------------------------------
  // The measure that every step decreases.
  // ---------------------------------------------------------------------------

  ghost function Todo(c: Config, t: nat, n: nat): set<(nat, nat)>
    requires c.Valid()
  {
    set row: nat, col: nat | row < c.tileM && col < (n + 1) * c.tileN && InJob(c, t, n, row, col) :: (row, col)
  }

  function RowWork(pc: RowPc): nat {
    match pc case Waiting => 2 case MustStamp => 1 case _ => 0
  }

  ghost function RowsWork(rows: seq<RowPc>): nat -> nat {
    (i: nat) => if i < |rows| then RowWork(rows[i]) else 0
  }

  ghost function PeerWork(c: Config, j: nat, p: nat, ph: Phase): nat
    requires c.Valid()
  {
    match ph
    case Scatter(issued) => |Todo(c, c.Tile(j), c.Stripe(j, p)) - issued| + 2 * c.tileM + 2
    case Book(_, rows, retired) => SumN(RowsWork(rows), |rows|) + if retired then 0 else 1
  }

  ghost function PeersWork(c: Config, j: nat, peers: seq<Phase>): nat -> nat
    requires c.Valid()
  {
    (p: nat) => if p < |peers| then PeerWork(c, j, p, peers[p]) else 0
  }

  ghost function ClaimWork(c: Config, s: State): nat -> nat
    requires c.Valid()
  {
    (j: nat) => if j < |s.claims|
      then SumN(PeersWork(c, j, s.claims[j].peers), |s.claims[j].peers|) + (if s.claims[j].published then 0 else 1)
      else 0
  }

  ghost function ArrivalGap(c: Config, s: State): nat -> nat {
    (t: nat) => if t < |s.arrival| && t < |c.target| && s.arrival[t] <= c.target[t] then c.target[t] - s.arrival[t] else 0
  }

  /** Claims still to come; work left in the claims taken and in the producers. */
  ghost function ClaimsLeft(c: Config, s: State): int
    requires c.Valid()
  {
    c.TotalWork() + c.clusters - |s.claims|
  }

  ghost function WorkLeft(c: Config, s: State): nat
    requires c.Valid()
  {
    SumN(ArrivalGap(c, s), c.totalTiles) + SumN(ClaimWork(c, s), |s.claims|)
  }

  lemma WaitingWork(n: nat, rows: seq<RowPc>, k: nat)
    requires rows == seq(n, _ => Waiting) && k <= n
    ensures SumN(RowsWork(rows), k) == 2 * k
  {
    if k > 0 {
      WaitingWork(n, rows, k - 1);
    }
  }

  lemma AddWorkFalls(c: Config, t: nat, n: nat, row: nat, col: nat, issued: set<(nat, nat)>)
    requires c.Valid() && InJob(c, t, n, row, col) && (row, col) !in issued
    ensures |Todo(c, t, n) - (issued + {(row, col)})| < |Todo(c, t, n) - issued|
  {
    var left := Todo(c, t, n) - issued;
    assert (row, col) in left;
    assert Todo(c, t, n) - (issued + {(row, col)}) == left - {(row, col)};
  }

  lemma RowWorkFalls(rows: seq<RowPc>, row: nat, pc: RowPc)
    requires row < |rows| && RowWork(pc) < RowWork(rows[row])
    ensures SumN(RowsWork(rows[row := pc]), |rows|) < SumN(RowsWork(rows), |rows|)
  {
    SumNBump(RowsWork(rows), RowsWork(rows[row := pc]), row, |rows|);
  }

  lemma PeerWorkFalls(c: Config, s: State, a: Action)
    requires c.Valid() && Shape(c, s) && Enabled(c, s, a) && PeerStep(a)
    ensures a.claim < |s.claims| && a.peer < |s.claims[a.claim].peers|
    ensures s.claims[a.claim].idx == a.claim
    ensures PeerWork(c, a.claim, a.peer, Next(c, s, a).claims[a.claim].peers[a.peer])
            < PeerWork(c, a.claim, a.peer, s.claims[a.claim].peers[a.peer])
  {
    var j, p := a.claim, a.peer;
    var ph := s.claims[j].peers[p];
    assert ph != Skip;
    PeerView(c, s, j, p);
    match a
    case Add(_, _, row, col) => AddWorkFalls(c, c.Tile(j), c.Stripe(j, p), row, col, ph.issued);
    case Gate(_, _) => WaitingWork(c.tileM, seq(c.tileM, _ => Waiting), c.tileM);
    case Dec(_, _, row) => RowWorkFalls(ph.rows, row, Next(c, s, a).claims[j].peers[p].rows[row]);
    case Stamp(_, _, row) => RowWorkFalls(ph.rows, row, Stamped);
    case Retire(_, _) =>
  }

  /** One claim of the list changes. */
  lemma ClaimListWork(c: Config, s: State, s': State, j: nat)
    requires c.Valid() && j < |s.claims| == |s'.claims|
    requires forall i :: 0 <= i < |s.claims| && i != j ==> s'.claims[i] == s.claims[i]
    ensures SumN(ClaimWork(c, s'), |s.claims|) - SumN(ClaimWork(c, s), |s.claims|) == ClaimWork(c, s')(j) - ClaimWork(c, s)(j)
  {
    SumNBump(ClaimWork(c, s), ClaimWork(c, s'), j, |s.claims|);
  }

  lemma PeerListWork(c: Config, j: nat, peers: seq<Phase>, p: nat, ph: Phase)
    requires c.Valid() && p < |peers| && PeerWork(c, j, p, ph) < PeerWork(c, j, p, peers[p])
    ensures SumN(PeersWork(c, j, peers[p := ph]), |peers|) < SumN(PeersWork(c, j, peers), |peers|)
  {
    SumNBump(PeersWork(c, j, peers), PeersWork(c, j, peers[p := ph]), p, |peers|);
  }

  lemma OnePeerChanges(c: Config, s: State, a: Action)
    requires c.Valid() && Enabled(c, s, a) && PeerStep(a)
    ensures a.claim < |s.claims| && a.peer < |s.claims[a.claim].peers|
    ensures Next(c, s, a).claims == SetPeer(s, a.claim, a.peer, Next(c, s, a).claims[a.claim].peers[a.peer])
  {
  }

  lemma SetPeerWork(c: Config, s: State, s': State, j: nat, p: nat, ph: Phase)
    requires c.Valid() && j < |s.claims| && p < |s.claims[j].peers| && s'.claims == SetPeer(s, j, p, ph)
    requires PeerWork(c, j, p, ph) < PeerWork(c, j, p, s.claims[j].peers[p])
    ensures SumN(ClaimWork(c, s'), |s.claims|) < SumN(ClaimWork(c, s), |s.claims|)
  {
    PeerListWork(c, j, s.claims[j].peers, p, ph);
    ClaimListWork(c, s, s', j);
  }

  lemma WorkFallsPeer(c: Config, s: State, a: Action)
    requires c.Valid() && Shape(c, s) && Enabled(c, s, a) && PeerStep(a)
    ensures SumN(ClaimWork(c, Next(c, s, a)), |s.claims|) < SumN(ClaimWork(c, s), |s.claims|)
  {
    PeerWorkFalls(c, s, a);
    OnePeerChanges(c, s, a);
    SetPeerWork(c, s, Next(c, s, a), a.claim, a.peer, Next(c, s, a).claims[a.claim].peers[a.peer]);
  }

  lemma WorkFalls(c: Config, s: State, a: Action)
    requires c.Valid() && Shape(c, s) && Enabled(c, s, a) && !a.ClaimNext?
    ensures |Next(c, s, a).claims| == |s.claims|
    ensures WorkLeft(c, Next(c, s, a)) < WorkLeft(c, s)
  {
    var s' := Next(c, s, a);
    if a.Arrive? {
      SumNBump(ArrivalGap(c, s), ArrivalGap(c, s'), a.tile, c.totalTiles);
      SumNEq(ClaimWork(c, s'), ClaimWork(c, s), |s.claims|);
    } else {
      SumNEq(ArrivalGap(c, s'), ArrivalGap(c, s), c.totalTiles);
      if a.Publish? {
        ClaimListWork(c, s, s', a.claim);
      } else {
        WorkFallsPeer(c, s, a);
      }
    }
  }

  /** Every step decreases the pair (claims left, work left), and claims left never goes below zero:
    * no run is infinite. */
  lemma StepDecreases(c: Config, s: State, a: Action)
    requires c.Valid() && InvClaims(c, s) && Enabled(c, s, a)
    ensures ClaimsLeft(c, Next(c, s, a)) >= 0
    ensures ClaimsLeft(c, Next(c, s, a)) < ClaimsLeft(c, s)
            || (ClaimsLeft(c, Next(c, s, a)) == ClaimsLeft(c, s) && WorkLeft(c, Next(c, s, a)) < WorkLeft(c, s))
  {
    ClaimsStep(c, s, a);
    CountAll(Drained(c, Next(c, s, a)), c.clusters);
    if !a.ClaimNext? {
      WorkFalls(c, s, a);
    }
  }

  // ---------------------------------------------------------------------------
  // Progress. The pair (fj, fp) names a peer that is held back; fj == -1 holds back none.
  // ---------------------------------------------------------------------------

  predicate HeldBack(a: Action, fj: int, fp: nat) {
    (a.Add? || a.Gate? || a.Dec? || a.Stamp? || a.Retire?) && a.claim == fj && a.peer == fp
  }

  predicate ClaimDone(c: Config, s: State, fj: int, fp: nat, j: nat)
    requires j < |s.claims|
  {
    && s.claims[j].published
    && forall p :: 0 <= p < |s.claims[j].peers| && (j != fj || p != fp) ==> Retired(s.claims[j].peers[p])
  }

  /** Nothing is left to do, the held-back peer apart. */
  ghost predicate Quiescent(c: Config, s: State, fj: int, fp: nat)
    requires c.Valid()
  {
    && (forall j :: 0 <= j < |s.claims| ==> ClaimDone(c, s, fj, fp, j))
    && (forall k: nat :: k < c.clusters ==> Drained(c, s)(k))
  }

  lemma FirstUndone(c: Config, s: State, fj: int, fp: nat) returns (j: nat)
    ensures j <= |s.claims|
    ensures forall i :: 0 <= i < j ==> ClaimDone(c, s, fj, fp, i)
    ensures j < |s.claims| ==> !ClaimDone(c, s, fj, fp, j)
  {
    j := 0;
    while j < |s.claims| && ClaimDone(c, s, fj, fp, j)
      invariant j <= |s.claims|
      invariant forall i :: 0 <= i < j ==> ClaimDone(c, s, fj, fp, i)
    {
      j := j + 1;
    }
  }

  /** Claims before the first undone one never block it. */
  lemma EarlierRetired(c: Config, s: State, fj: int, fp: nat, j: nat, p: nat)
    requires c.Valid() && Shape(c, s) && (fj == -1 || fj == c.TotalWork() - 1)
    requires j < |s.claims| && p < c.clusterN
    requires forall i :: 0 <= i < j ==> ClaimDone(c, s, fj, fp, i)
    requires !ClaimDone(c, s, fj, fp, j)
    ensures j < c.TotalWork() && s.claims[j].idx == j && |s.claims[j].peers| == c.clusterN
    ensures forall i :: 0 <= i < j ==> |s.claims[i].peers| == c.clusterN && Retired(s.claims[i].peers[p])
  {
    assert WfClaim(c, j, s.claims[j]);
    assert forall q :: 0 <= q < c.clusterN ==> WfPeer(c, j, q, s.claims[j].peers[q]);
    assert j < c.TotalWork();
    forall i | 0 <= i < j ensures |s.claims[i].peers| == c.clusterN && Retired(s.claims[i].peers[p]) {
      assert WfClaim(c, i, s.claims[i]) && ClaimDone(c, s, fj, fp, i);
      assert i != fj;
    }
  }

  lemma PublishProgress(c: Config, s: State, fj: int, fp: nat, j: nat) returns (a: Action)
    requires c.Valid() && Shape(c, s) && (fj == -1 || fj == c.TotalWork() - 1)
    requires j < |s.claims| && !s.claims[j].published
    requires forall i :: 0 <= i < j ==> ClaimDone(c, s, fj, fp, i)
    ensures Enabled(c, s, a) && !HeldBack(a, fj, fp)
  {
    EarlierRetired(c, s, fj, fp, j, 0);
    StripeRoundTrip(c, j, 0);
    var t := c.Tile(j);
    if s.arrival[t] != c.target[t] {
      a := Arrive(t, c.target[t] - s.arrival[t]);
    } else {
      a := Publish(j);
      forall p: nat | p < c.clusterN ensures Count(Unretired(s, j, p), j) < c.depth {
        EarlierRetired(c, s, fj, fp, j, p);
        CountNone(Unretired(s, j, p), j);
      }
    }
  }

  lemma PeerProgress(c: Config, s: State, fj: int, fp: nat, j: nat, p: nat) returns (a: Action)
    requires c.Valid() && Shape(c, s) && j < |s.claims| && p < |s.claims[j].peers|
    requires CanRun(c, s, j, p) && !Retired(s.claims[j].peers[p]) && (j != fj || p != fp)
    ensures Enabled(c, s, a) && !HeldBack(a, fj, fp)
  {
    PeerView(c, s, j, p);
    var ph := s.claims[j].peers[p];
    var t, n := c.Tile(j), c.Stripe(j, p);
    if ph.Scatter? {
      if row: nat, col: nat :| InJob(c, t, n, row, col) && (row, col) !in ph.issued {
        ColumnInStripe(c, n, col);
        a := Add(j, p, row, col);
      } else {
        a := Gate(j, p);
      }
    } else if row: nat :| RowStep(c, s, j, p, row) && ph.rows[row] == Waiting {
      a := Dec(j, p, row);
    } else if row: nat :| RowStep(c, s, j, p, row) && ph.rows[row] == MustStamp {
      a := Stamp(j, p, row);
    } else {
      a := Retire(j, p);
      forall row: nat | RowStep(c, s, j, p, row) ensures ph.rows[row] in {Decremented, Stamped} {
      }
    }
  }

  lemma ClaimProgress(c: Config, s: State, fj: int, fp: nat, k: nat)
    requires c.Valid() && Shape(c, s) && k < c.clusters && !Drained(c, s)(k)
    requires forall j :: 0 <= j < |s.claims| ==> ClaimDone(c, s, fj, fp, j)
    ensures Enabled(c, s, ClaimNext(k))
  {
    forall j | 0 <= j < |s.claims| && s.claims[j].cluster == k
      ensures s.claims[j].published && s.claims[j].idx < c.TotalWork()
    {
      assert ClaimDone(c, s, fj, fp, j);
    }
  }

  /** As long as something is left to do, some step is possible, whatever one late peer does. */
  lemma Progress(c: Config, s: State, fj: int, fp: nat) returns (a: Action)
    requires c.Valid() && Shape(c, s) && (fj == -1 || fj == c.TotalWork() - 1)
    requires !Quiescent(c, s, fj, fp)
    ensures Enabled(c, s, a) && !HeldBack(a, fj, fp)
  {
    var j := FirstUndone(c, s, fj, fp);
    if j == |s.claims| {
      var k: nat :| k < c.clusters && !Drained(c, s)(k);
      ClaimProgress(c, s, fj, fp, k);
      a := ClaimNext(k);
    } else if !s.claims[j].published {
      a := PublishProgress(c, s, fj, fp, j);
    } else {
      var p: nat :| p < |s.claims[j].peers| && (j != fj || p != fp) && !Retired(s.claims[j].peers[p]);
      assert WfClaim(c, j, s.claims[j]);
      EarlierRetired(c, s, fj, fp, j, p);
      a := PeerProgress(c, s, fj, fp, j, p);
    }
  }

  // ---------------------------------------------------------------------------
  // What holds when nothing is left to do.
  // ---------------------------------------------------------------------------

  lemma QuiescentClaims(c: Config, s: State, fj: int, fp: nat)
    requires c.Valid() && InvClaims(c, s) && Quiescent(c, s, fj, fp)
    ensures c.clusters > 0 ==> |s.claims| == s.head == c.TotalWork() + c.clusters
  {
    CountAll(Drained(c, s), c.clusters);
  }

  lemma QuiescentView(c: Config, s: State, fj: int, fp: nat, t: nat, n: nat)
    requires c.Valid() && InvClaims(c, s) && Quiescent(c, s, fj, fp) && c.clusters > 0
    requires t < c.totalTiles && n < c.running
    requires fj != c.ClaimOf(t, n) || fp != n % c.clusterN
    ensures Retired(ViewOf(c, s)(t, n)) && WfPhase(c, t, n, ViewOf(c, s)(t, n))
  {
    QuiescentClaims(c, s, fj, fp);
    ClaimOfRoundTrip(c, t, n);
    var j, p := c.ClaimOf(t, n), n % c.clusterN;
    assert WfClaim(c, j, s.claims[j]) && WfPeer(c, j, p, s.claims[j].peers[p]);
    assert ClaimDone(c, s, fj, fp, j);
  }

  lemma CountAllBut(p: nat -> bool, k: nat, n: nat)
    requires forall i: nat :: i < n && i != k ==> p(i)
    ensures Count(p, n) >= n - 1
    ensures k >= n ==> Count(p, n) == n
  {
    if n > 0 {
      CountAllBut(p, k, n - 1);
    }
  }

  /** Of the stripes of tile t at most fn belongs to the held-back peer. */
  ghost predicate HeldOnly(c: Config, fj: int, fp: nat, t: nat, fn: nat)
    requires c.Valid()
  {
    forall n: nat :: n < c.running && n != fn ==> fj != c.ClaimOf(t, n) || fp != n % c.clusterN
  }

  /** A finished tile has its last stripe, and every row with a thread is counted off and stamped if due. */
  lemma QuiescentTile(c: Config, s: State, fj: int, fp: nat, fn: nat, t: nat) returns (n: nat)
    requires c.Valid() && Inv(c, s) && InvClaims(c, s) && Quiescent(c, s, fj, fp) && c.clusters > 0 && t < c.totalTiles
    requires HeldOnly(c, fj, fp, t, fn)
    requires fn < c.running ==> c.running > c.stripes && !ViewOf(c, s)(t, fn).Book?
    ensures n < c.running && Last(ViewOf(c, s)(t, n)) && WfPhase(c, t, n, ViewOf(c, s)(t, n)) && ViewOf(c, s)(t, n).retired
    ensures fn >= c.running ==> s.stripesDone[t] == c.running
  {
    var v := ViewOf(c, s);
    forall n: nat | n < c.running && n != fn ensures Gated(v, t)(n) && v(t, n).retired && WfPhase(c, t, n, v(t, n)) {
      QuiescentView(c, s, fj, fp, t, n);
    }
    CountAllBut(Gated(v, t), fn, c.running);
    n :| n < c.running && Last(v(t, n));
  }

  lemma QuiescentRow(c: Config, s: State, t: nat, n: nat, row: nat)
    requires c.Valid() && Inv(c, s) && t < c.totalTiles && row < c.tileM && n < c.running
    requires Last(ViewOf(c, s)(t, n)) && WfPhase(c, t, n, ViewOf(c, s)(t, n)) && ViewOf(c, s)(t, n).retired
    ensures HasThread(c, t, row) ==> RowIn(c, ViewOf(c, s), SlotOf(c, t, row), DOWN)
    ensures !HasThread(c, t, row) ==> !RowIn(c, ViewOf(c, s), SlotOf(c, t, row), DOWN)
    ensures RowIn(c, ViewOf(c, s), SlotOf(c, t, row), CHOSEN) == RowIn(c, ViewOf(c, s), SlotOf(c, t, row), {Stamped})
  {
    var v := ViewOf(c, s);
    SlotRoundTrip(c, t, row);
    forall n': nat, pcs: set<RowPc> | n' < c.running && Mark(v(t, n'), row, pcs) ensures n' == n {
    }
    var pc := v(t, n).rows[row];
    assert forall pcs: set<RowPc> :: RowIn(c, v, SlotOf(c, t, row), pcs) == (pc in pcs) by {
      forall pcs: set<RowPc> ensures RowIn(c, v, SlotOf(c, t, row), pcs) == (pc in pcs) {
        if pc in pcs {
          assert Mark(v(t, n), row, pcs);
        }
      }
    }
  }

  // ---------------------------------------------------------------------------
  // Completion.
  // ---------------------------------------------------------------------------

  ghost function Unthreaded(c: Config, r: nat): nat -> bool
    requires c.tileM > 0
  {
    (slot: nat) => slot < |c.recvToken| && c.Owns(slot, r) && slot % c.tileM >= c.epiThreads
  }

  /** A token whose tiles are all finished: the counter keeps the rows that have no thread, and the
    * token is stamped exactly when it has slots and none of them is left. */
  lemma FinishedToken(c: Config, s: State, r: nat)
    requires c.Valid() && Inv(c, s) && r < c.numRecv
    requires forall slot: nat :: slot < c.Slots() && c.Owns(slot, r) ==>
               && (RowIn(c, ViewOf(c, s), slot, DOWN) <==> slot % c.tileM < c.epiThreads)
               && RowIn(c, ViewOf(c, s), slot, CHOSEN) == RowIn(c, ViewOf(c, s), slot, {Stamped})
    ensures s.remaining[r] == Count(Unthreaded(c, r), c.Slots())
    ensures s.done[r] == if KLocal(c, r) > 0 && s.remaining[r] == 0 then c.seqno else 0
  {
    var v := ViewOf(c, s);
    SplitCount(SlotsOwned(c, r), SlotsIn(c, v, r, DOWN), Unthreaded(c, r), c.Slots());
    CountEq(SlotsIn(c, v, r, CHOSEN), SlotsIn(c, v, r, {Stamped}), c.Slots());
  }

  lemma SplitCount(p: nat -> bool, q: nat -> bool, q': nat -> bool, n: nat)
    requires forall i: nat :: i < n ==> p(i) == (q(i) || q'(i)) && !(q(i) && q'(i))
    ensures Count(p, n) == Count(q, n) + Count(q', n)
  {
    if n > 0 {
      SplitCount(p, q, q', n - 1);
    }
  }

  lemma TileRows(c: Config, s: State, r: nat, slot: nat, n: nat)
    requires c.Valid() && Inv(c, s) && r < c.numRecv && slot < c.Slots() && c.Owns(slot, r) && n < c.running
    requires Last(ViewOf(c, s)(slot / c.tileM, n)) && ViewOf(c, s)(slot / c.tileM, n).retired
    requires WfPhase(c, slot / c.tileM, n, ViewOf(c, s)(slot / c.tileM, n))
    ensures RowIn(c, ViewOf(c, s), slot, DOWN) <==> slot % c.tileM < c.epiThreads
    ensures RowIn(c, ViewOf(c, s), slot, CHOSEN) == RowIn(c, ViewOf(c, s), slot, {Stamped})
  {
    SlotSplit(c, slot);
    QuiescentRow(c, s, slot / c.tileM, n, slot % c.tileM);
  }

  lemma QuiescentToken(c: Config, s: State, r: nat)
    requires c.Valid() && Inv(c, s) && InvClaims(c, s) && Quiescent(c, s, -1, 0) && c.clusters > 0 && r < c.numRecv
    ensures s.remaining[r] == Count(Unthreaded(c, r), c.Slots())
    ensures s.done[r] == if KLocal(c, r) > 0 && s.remaining[r] == 0 then c.seqno else 0
  {
    forall slot: nat | slot < c.Slots() && c.Owns(slot, r)
      ensures RowIn(c, ViewOf(c, s), slot, DOWN) <==> slot % c.tileM < c.epiThreads
      ensures RowIn(c, ViewOf(c, s), slot, CHOSEN) == RowIn(c, ViewOf(c, s), slot, {Stamped})
    {
      SlotSplit(c, slot);
      assert HeldOnly(c, -1, 0, slot / c.tileM, c.running);
      var n := QuiescentTile(c, s, -1, 0, c.running, slot / c.tileM);
      TileRows(c, s, r, slot, n);
    }
    FinishedToken(c, s, r);
  }

  lemma QuiescentSlot(c: Config, s: State, slot: nat, col: nat)
    requires c.Valid() && Inv(c, s) && InvClaims(c, s) && Quiescent(c, s, -1, 0) && c.clusters > 0
    requires slot < c.Slots() && col < c.Hidden()
    ensures ViewOf(c, s)(slot / c.tileM, col / c.tileN).Book?
  {
    PlaceInRange(c, slot, col);
    QuiescentView(c, s, -1, 0, slot / c.tileM, col / c.tileN);
  }

  lemma QuiescentAdded(c: Config, s: State, r: nat)
    requires c.Valid() && Inv(c, s) && InvClaims(c, s) && Quiescent(c, s, -1, 0) && c.clusters > 0
    ensures AllAdded(c, s, r)
  {
    forall slot: nat, col: nat | slot < c.Slots() && c.Owns(slot, r) && col < c.Hidden()
      ensures Added(c, ViewOf(c, s), slot, col)
    {
      QuiescentSlot(c, s, slot, col);
    }
  }

  /** No step is possible any more. */
  ghost predicate Ended(c: Config, s: State)
    requires c.Valid()
  {
    forall a :: !Enabled(c, s, a)
  }

  /** An unfinished run can always go on. */
  lemma NeverStuck(c: Config, s: State)
    requires c.Valid() && Reachable(c, s) && !Quiescent(c, s, -1, 0)
    ensures !Ended(c, s)
  {
    ReachableInv(c, s);
    var a := Progress(c, s, -1, 0);
    assert Enabled(c, s, a);
  }

  /** Where every run ends, whatever the interleaving, given one cluster or more. The counters, the
    * sums and the gate are final; a token is stamped exactly when it has slots and every one of its
    * rows has an epilogue thread. */
  lemma Completion(c: Config, s: State)
    requires c.Valid() && c.clusters > 0 && Reachable(c, s) && Ended(c, s)
    ensures s.head == |s.claims| == c.TotalWork() + c.clusters
    ensures forall j :: 0 <= j < |s.claims| ==> s.claims[j].idx == j
    ensures s.started == 1 && s.arrival == c.target
    ensures s.stripesDone == seq(c.totalTiles, _ => c.running)
    ensures |s.remaining| == |s.done| == c.numRecv
    ensures forall r: nat :: r < c.numRecv ==> s.remaining[r] == Count(Unthreaded(c, r), c.Slots())
    ensures forall r: nat :: r < c.numRecv ==>
              (s.done[r] == c.seqno <==> KLocal(c, r) > 0 && Count(Unthreaded(c, r), c.Slots()) == 0)
    ensures forall r: nat, col: nat :: r < c.numRecv && col < c.Hidden() ==>
              (r, col) in s.o && s.o[(r, col)] == FullSum(c, r, col)
  {
    ReachableInv(c, s);
    var steps :| Run(c, steps, s);
    RunClaims(c, steps, s);
    if !Quiescent(c, s, -1, 0) {
      NeverStuck(c, s);
    }
    QuiescentClaims(c, s, -1, 0);
    forall j | 0 <= j < |s.claims| ensures s.claims[j].idx == j {
      assert WfClaim(c, j, s.claims[j]);
    }
    forall t | 0 <= t < c.totalTiles ensures s.arrival[t] == c.target[t] && s.stripesDone[t] == c.running {
      assert !Enabled(c, s, Arrive(t, c.target[t] - s.arrival[t]));
      assert HeldOnly(c, -1, 0, t, c.running);
      var n := QuiescentTile(c, s, -1, 0, c.running, t);
    }
    forall r: nat | r < c.numRecv
      ensures s.remaining[r] == Count(Unthreaded(c, r), c.Slots())
      ensures s.done[r] == if KLocal(c, r) > 0 && s.remaining[r] == 0 then c.seqno else 0
    {
      QuiescentToken(c, s, r);
    }
    forall r: nat, col: nat | r < c.numRecv && col < c.Hidden()
      ensures (r, col) in s.o && s.o[(r, col)] == FullSum(c, r, col)
    {
      QuiescentAdded(c, s, r);
      AllAddedSum(c, s, r, col);
    }
  }

  /** Past the spin: whatever a CTA does, the arrivals of its tile are complete. */
  lemma WorksOnArrivedTile(c: Config, s: State, a: Action)
    requires c.Valid() && Reachable(c, s) && Enabled(c, s, a) && PeerStep(a)
    ensures c.Tile(a.claim) < c.totalTiles == |s.arrival| && s.arrival[c.Tile(a.claim)] == c.target[c.Tile(a.claim)]
  {
    var steps :| Run(c, steps, s);
    RunClaims(c, steps, s);
    ViewStep(c, s, a);
  }

  lemma OnePc(c: Config, s: State, r: nat, slot: nat)
    requires c.Valid() && Inv(c, s) && slot < c.Slots() && c.Owns(slot, r)
    ensures RowIn(c, ViewOf(c, s), slot, CHOSEN)
        == (RowIn(c, ViewOf(c, s), slot, {MustStamp}) || RowIn(c, ViewOf(c, s), slot, {Stamped}))
    ensures !(RowIn(c, ViewOf(c, s), slot, {MustStamp}) && RowIn(c, ViewOf(c, s), slot, {Stamped}))
  {
    SlotSplit(c, slot);
    var v, t, row := ViewOf(c, s), slot / c.tileM, slot % c.tileM;
    forall n: nat, n': nat, pcs: set<RowPc>, pcs': set<RowPc> |
      n < c.running && n' < c.running && Mark(v(t, n), row, pcs) && Mark(v(t, n'), row, pcs') ensures n == n' {
    }
    if n: nat :| n < c.running && Mark(v(t, n), row, CHOSEN) {
      assert Mark(v(t, n), row, {MustStamp}) || Mark(v(t, n), row, {Stamped});
    }
    if n: nat :| n < c.running && (Mark(v(t, n), row, {MustStamp}) || Mark(v(t, n), row, {Stamped})) {
      assert Mark(v(t, n), row, CHOSEN);
    }
  }

  lemma OneChosen(c: Config, s: State, r: nat)
    requires c.Valid() && Inv(c, s) && r < c.numRecv
    ensures CountIn(c, ViewOf(c, s), r, CHOSEN)
        == CountIn(c, ViewOf(c, s), r, {MustStamp}) + CountIn(c, ViewOf(c, s), r, {Stamped})
  {
    var v := ViewOf(c, s);
    var p, q, q' := SlotsIn(c, v, r, CHOSEN), SlotsIn(c, v, r, {MustStamp}), SlotsIn(c, v, r, {Stamped});
    forall i: nat | i < c.Slots() ensures p(i) == (q(i) || q'(i)) && !(q(i) && q'(i)) {
      if c.Owns(i, r) {
        OnePc(c, s, r, i);
      }
    }
    SplitCount(p, q, q', c.Slots());
  }

  lemma PendingUnstamped(c: Config, s: State, r: nat, slot: nat)
    requires c.Valid() && Inv(c, s) && r < c.numRecv && slot < c.Slots() && c.Owns(slot, r)
    requires RowIn(c, ViewOf(c, s), slot, {MustStamp})
    ensures s.done[r] == 0
  {
    OneChosen(c, s, r);
    var q := SlotsIn(c, ViewOf(c, s), r, {MustStamp});
    CountNone(q, c.Slots());
    assert q(slot);
  }

  lemma StampPending(c: Config, s: State, a: Action)
    requires c.Valid() && Shape(c, s) && Enabled(c, s, a) && a.Stamp?
    ensures s.claims[a.claim].idx == a.claim && c.Tile(a.claim) < c.totalTiles
    ensures SlotOf(c, c.Tile(a.claim), a.row) < c.Slots()
    ensures RowIn(c, ViewOf(c, s), SlotOf(c, c.Tile(a.claim), a.row), {MustStamp})
  {
    ViewStep(c, s, a);
    PeerView(c, s, a.claim, a.peer);
    var v, t, n := ViewOf(c, s), c.Tile(a.claim), c.Stripe(a.claim, a.peer);
    SlotRoundTrip(c, t, a.row);
    assert Mark(v(t, n), a.row, {MustStamp});
  }

  /** A token is stamped at most once in a run. */
  lemma StampOnce(c: Config, s: State, a: Action)
    requires c.Valid() && Reachable(c, s) && Enabled(c, s, a) && a.Stamp?
    ensures s.done[c.recvToken[SlotOf(c, c.Tile(s.claims[a.claim].idx), a.row)]] == 0
  {
    ReachableInv(c, s);
    StampPending(c, s, a);
    var slot := SlotOf(c, c.Tile(a.claim), a.row);
    PendingUnstamped(c, s, c.recvToken[slot], slot);
  }

  // ---------------------------------------------------------------------------
  // Exactly when the gate is safe.
  // ---------------------------------------------------------------------------

  ghost predicate Fresh(c: Config, s: State, fj: nat, fp: nat) {
    fj < |s.claims| && fp < |s.claims[fj].peers| ==> s.claims[fj].peers[fp] == Scatter({})
  }

  lemma FreshStep(c: Config, s: State, a: Action, fj: nat, fp: nat)
    requires c.Valid() && Shape(c, s) && Enabled(c, s, a) && !HeldBack(a, fj, fp) && Fresh(c, s, fj, fp)
    requires fj < c.TotalWork() && fp < c.clusterN && c.Stripe(fj, fp) < c.running
    ensures Fresh(c, Next(c, s, a), fj, fp)
  {
    if PeerStep(a) {
      OnePeerChanges(c, s, a);
    }
  }

  /** Run on, holding back one peer of the last tile, until nothing else is left to do. */
  lemma {:induction false} DriveOthers(c: Config, steps: seq<Action>, s: State, fj: nat, fp: nat)
    returns (steps': seq<Action>, s': State)
    requires c.Valid() && Run(c, steps, s) && fj == c.TotalWork() - 1 && fp < c.clusterN
    requires c.Stripe(fj, fp) < c.running && Fresh(c, s, fj, fp)
    ensures Run(c, steps', s') && Quiescent(c, s', fj, fp) && Fresh(c, s', fj, fp)
    decreases ClaimsLeft(c, s), WorkLeft(c, s)
  {
    RunClaims(c, steps, s);
    if Quiescent(c, s, fj, fp) {
      return steps, s;
    }
    var a := Progress(c, s, fj, fp);
    var s1 := Next(c, s, a);
    assert (steps + [a])[..|steps|] == steps;
    assert Run(c, steps + [a], s1);
    StepDecreases(c, s, a);
    FreshStep(c, s, a, fj, fp);
    steps', s' := DriveOthers(c, steps + [a], s1, fj, fp);
  }

  /** The real stripe of the last tile that shares its cluster claim with the phantom stripes. */
  lemma LateStripe(c: Config) returns (fj: nat, fp: nat)
    requires c.Valid() && c.totalTiles > 0 && c.running > c.stripes
    ensures fj == c.TotalWork() - 1 && fp < c.clusterN
    ensures c.Stripe(fj, fp) == c.stripes - 1 && c.Tile(fj) == c.totalTiles - 1
    ensures c.ClaimOf(c.totalTiles - 1, c.stripes - 1) == fj && (c.stripes - 1) % c.clusterN == fp
  {
    var n, q := c.stripes - 1, c.ClaimsPerTile();
    fj, fp := c.ClaimOf(c.totalTiles - 1, n), n % c.clusterN;
    ClaimOfRoundTrip(c, c.totalTiles - 1, n);
    CeilDiv(c.stripes, c.clusterN);
    DivBound(n, q, c.clusterN);
    assert (n / c.clusterN + 1) * c.clusterN == n / c.clusterN * c.clusterN + c.clusterN;
    if n / c.clusterN + 1 < q {
      MulLe(n / c.clusterN + 1, q - 1, c.clusterN);
    }
    assert c.totalTiles * q == (c.totalTiles - 1) * q + q;
  }

  /** The tile has a last stripe, and that CTA is through with it. */
  ghost predicate TileEnded(c: Config, v: View, t: nat)
    requires c.Valid()
  {
    exists n: nat :: n < c.running && Last(v(t, n)) && v(t, n).retired && WfPhase(c, t, n, v(t, n))
  }

  lemma EndedSlot(c: Config, s: State, r: nat, slot: nat)
    requires c.Valid() && Inv(c, s) && r < c.numRecv && slot < c.Slots() && c.Owns(slot, r)
    requires TileEnded(c, ViewOf(c, s), slot / c.tileM)
    ensures RowIn(c, ViewOf(c, s), slot, DOWN) <==> slot % c.tileM < c.epiThreads
    ensures RowIn(c, ViewOf(c, s), slot, CHOSEN) == RowIn(c, ViewOf(c, s), slot, {Stamped})
  {
    var v, t := ViewOf(c, s), slot / c.tileM;
    var n: nat :| n < c.running && Last(v(t, n)) && v(t, n).retired && WfPhase(c, t, n, v(t, n));
    TileRows(c, s, r, slot, n);
  }

  lemma EndedToken(c: Config, s: State, r: nat)
    requires c.Valid() && Inv(c, s) && r < c.numRecv && c.epiThreads >= c.tileM
    requires forall t: nat :: t < c.totalTiles ==> TileEnded(c, ViewOf(c, s), t)
    ensures s.done[r] == if KLocal(c, r) > 0 then c.seqno else 0
  {
    forall slot: nat | slot < c.Slots() && c.Owns(slot, r)
      ensures RowIn(c, ViewOf(c, s), slot, DOWN) <==> slot % c.tileM < c.epiThreads
      ensures RowIn(c, ViewOf(c, s), slot, CHOSEN) == RowIn(c, ViewOf(c, s), slot, {Stamped})
    {
      TileOfSlot(c, slot);
      EndedSlot(c, s, r, slot);
    }
    FinishedToken(c, s, r);
    NoneUnthreaded(c, r);
  }

  lemma TileOfSlot(c: Config, slot: nat)
    requires c.Valid() && slot < c.Slots()
    ensures slot / c.tileM < c.totalTiles
  {
    SlotSplit(c, slot);
  }

  lemma LateTile(c: Config, s: State, fj: nat, fp: nat, t: nat) returns (n: nat)
    requires c.Valid() && Inv(c, s) && InvClaims(c, s) && c.clusters > 0 && t < c.totalTiles
    requires c.running > c.stripes && Quiescent(c, s, fj, fp)
    requires c.ClaimOf(c.totalTiles - 1, c.stripes - 1) == fj && (c.stripes - 1) % c.clusterN == fp
    requires ViewOf(c, s)(c.totalTiles - 1, c.stripes - 1) == Scatter({})
    ensures n < c.running && Last(ViewOf(c, s)(t, n)) && ViewOf(c, s)(t, n).retired
    ensures WfPhase(c, t, n, ViewOf(c, s)(t, n))
  {
    OtherPeers(c, fj, fp, t);
    n := QuiescentTile(c, s, fj, fp, if t == c.totalTiles - 1 then c.stripes - 1 else c.running, t);
  }

  /** With one peer of a phantom configuration held back, every token is stamped all the same. */
  lemma LateToken(c: Config, s: State, fj: nat, fp: nat, r: nat)
    requires c.Valid() && Inv(c, s) && InvClaims(c, s) && c.clusters > 0 && c.totalTiles > 0
    requires c.running > c.stripes && c.epiThreads >= c.tileM && Quiescent(c, s, fj, fp) && r < c.numRecv
    requires c.ClaimOf(c.totalTiles - 1, c.stripes - 1) == fj && (c.stripes - 1) % c.clusterN == fp
    requires ViewOf(c, s)(c.totalTiles - 1, c.stripes - 1) == Scatter({})
    ensures s.done[r] == if KLocal(c, r) > 0 then c.seqno else 0
  {
    forall t: nat | t < c.totalTiles ensures TileEnded(c, ViewOf(c, s), t) {
      var n := LateTile(c, s, fj, fp, t);
    }
    EndedToken(c, s, r);
  }

  lemma FreshView(c: Config, s: State, fj: nat, fp: nat)
    requires c.Valid() && Shape(c, s) && Fresh(c, s, fj, fp) && fj < |s.claims| && c.totalTiles > 0
    requires c.ClaimOf(c.totalTiles - 1, c.stripes - 1) == fj && (c.stripes - 1) % c.clusterN == fp
    ensures ViewOf(c, s)(c.totalTiles - 1, c.stripes - 1) == Scatter({})
  {
    assert WfClaim(c, fj, s.claims[fj]);
  }

  lemma HasSlot(c: Config, r: nat, slot: nat)
    requires slot < c.Slots() && slot < |c.recvToken| && c.Owns(slot, r)
    ensures KLocal(c, r) > 0
  {
    CountNone(SlotsOwned(c, r), c.Slots());
    assert SlotsOwned(c, r)(slot);
  }

  lemma LateUnadded(c: Config, v: View, t: nat, n: nat, row: nat, col: nat)
    requires c.Valid() && t < c.totalTiles && row < c.tileM && col / c.tileN == n && v(t, n) == Scatter({})
    ensures !Added(c, v, SlotOf(c, t, row), col)
  {
    SlotRoundTrip(c, t, row);
  }

  /** With a phantom stripe the gate can open before a real stripe has added anything. */
  lemma EarlyStamp(c: Config, row: nat) returns (s: State, r: nat)
    requires c.Valid() && c.clusters > 0 && c.totalTiles > 0 && c.running > c.stripes && c.epiThreads >= c.tileM
    requires row < c.tileM && SlotOf(c, c.totalTiles - 1, row) < |c.recvToken|
    requires c.Active(SlotOf(c, c.totalTiles - 1, row))
    ensures Reachable(c, s) && r < c.numRecv && c.Owns(SlotOf(c, c.totalTiles - 1, row), r)
    ensures |s.done| == c.numRecv && s.done[r] == c.seqno
    ensures forall col: nat :: col / c.tileN == c.stripes - 1 ==>
              !Added(c, ViewOf(c, s), SlotOf(c, c.totalTiles - 1, row), col)
  {
    s := LateState(c);
    r := c.recvToken[SlotOf(c, c.totalTiles - 1, row)];
    SlotRoundTrip(c, c.totalTiles - 1, row);
    HasSlot(c, r, SlotOf(c, c.totalTiles - 1, row));
    LateColumns(c, ViewOf(c, s), c.totalTiles - 1, c.stripes - 1, row);
  }

  /** A reachable state in which every token with a slot is stamped although one real stripe of the last tile
    * has not issued a single reduction. */
  lemma LateState(c: Config) returns (s: State)
    requires c.Valid() && c.clusters > 0 && c.totalTiles > 0 && c.running > c.stripes && c.epiThreads >= c.tileM
    ensures Reachable(c, s) && |s.done| == c.numRecv
    ensures forall r: nat :: r < c.numRecv ==> s.done[r] == if KLocal(c, r) > 0 then c.seqno else 0
    ensures ViewOf(c, s)(c.totalTiles - 1, c.stripes - 1) == Scatter({})
  {
    var fj, fp := LateStripe(c);
    assert Run(c, [], Init(c));
    var steps;
    steps, s := DriveOthers(c, [], Init(c), fj, fp);
    RunInv(c, steps, s);
    RunClaims(c, steps, s);
    QuiescentClaims(c, s, fj, fp);
    FreshView(c, s, fj, fp);
    forall r: nat | r < c.numRecv ensures s.done[r] == if KLocal(c, r) > 0 then c.seqno else 0 {
      LateToken(c, s, fj, fp, r);
    }
  }

  lemma LateColumns(c: Config, v: View, t: nat, n: nat, row: nat)
    requires c.Valid() && t < c.totalTiles && row < c.tileM && v(t, n) == Scatter({})
    ensures forall col: nat :: col / c.tileN == n ==> !Added(c, v, SlotOf(c, t, row), col)
  {
    forall col: nat | col / c.tileN == n ensures !Added(c, v, SlotOf(c, t, row), col) {
      LateUnadded(c, v, t, n, row, col);
    }
  }

  lemma OtherPeers(c: Config, fj: nat, fp: nat, t: nat)
    requires c.Valid() && t < c.totalTiles && c.totalTiles > 0
    requires c.ClaimOf(c.totalTiles - 1, c.stripes - 1) == fj && (c.stripes - 1) % c.clusterN == fp
    ensures HeldOnly(c, fj, fp, t, if t == c.totalTiles - 1 then c.stripes - 1 else c.running)
  {
    forall n: nat | n < c.running && (t != c.totalTiles - 1 || n != c.stripes - 1)
      ensures fj != c.ClaimOf(t, n) || fp != n % c.clusterN
    {
      ClaimOfRoundTrip(c, t, n);
      ClaimOfRoundTrip(c, c.totalTiles - 1, c.stripes - 1);
    }
  }

  lemma NoneUnthreaded(c: Config, r: nat)
    requires c.Valid() && c.epiThreads >= c.tileM
    ensures Count(Unthreaded(c, r), c.Slots()) == 0
  {
    CountNone(Unthreaded(c, r), c.Slots());
  }

  lemma SumLt(f: nat -> real, g: nat -> real, k: nat, n: nat)
    requires k < n && f(k) < g(k)
    requires forall i: nat :: i < n ==> f(i) <= g(i)
    ensures Sum(f, n) < Sum(g, n)
  {
    if k == n - 1 {
      SumLe(f, g, n - 1);
    } else {
      SumLt(f, g, k, n - 1);
    }
  }

  lemma SumLe(f: nat -> real, g: nat -> real, n: nat)
    requires forall i: nat :: i < n ==> f(i) <= g(i)
    ensures Sum(f, n) <= Sum(g, n)
  {
  }

  /** Combine never reads a token row that is not its whole sum. */
  ghost predicate Safe(c: Config)
    requires c.Valid()
  {
    forall s: State, r: nat, col: nat ::
      Reachable(c, s) && r < c.numRecv && |s.done| == c.numRecv && s.done[r] == c.seqno && col < c.Hidden() && (r, col) in s.o
      ==> s.o[(r, col)] == FullSum(c, r, col)
  }

  lemma EarlyStampValue(c: Config, s: State, r: nat, slot: nat, col: nat)
    requires c.Valid() && Inv(c, s) && r < c.numRecv && slot < c.Slots() && c.Owns(slot, r) && col < c.Hidden()
    requires !Added(c, ViewOf(c, s), slot, col)
    requires forall slot: nat, col: nat :: c.term(slot, col) > 0.0
    ensures (r, col) in s.o && s.o[(r, col)] < FullSum(c, r, col)
  {
    SumLt(OTerm(c, ViewOf(c, s), r, col), FullTerm(c, r, col), slot, c.Slots());
  }

  lemma UnsafeWithPhantoms(c: Config, row: nat)
    requires c.Valid() && c.clusters > 0 && c.totalTiles > 0 && c.epiThreads >= c.tileM && c.running > c.stripes
    requires row < c.tileM && SlotOf(c, c.totalTiles - 1, row) < |c.recvToken|
    requires c.Active(SlotOf(c, c.totalTiles - 1, row))
    requires forall slot: nat, col: nat :: c.term(slot, col) > 0.0
    ensures !Safe(c)
  {
    var s, r := EarlyStamp(c, row);
    ReachableInv(c, s);
    var n := c.stripes - 1;
    var col := n * c.tileN;
    assert (n + 1) * c.tileN == col + c.tileN;
    ColumnInStripe(c, n, col);
    SlotRoundTrip(c, c.totalTiles - 1, row);
    EarlyStampValue(c, s, r, SlotOf(c, c.totalTiles - 1, row), col);
  }

  /** The launch is safe whatever the accumulators hold. */
  ghost predicate SafeForAll(c: Config)
    requires c.Valid()
  {
    forall term: (nat, nat) -> real :: Safe(c.(term := term))
  }

  /** For every launch with a row in its last tile, as dispatch's pools have it, and one epilogue thread per
    * row: the stamp is safe, whatever is added, exactly when the number of stripes that run is the number the
    * gate counts. */
  lemma GateSafeIff(c: Config, row: nat)
    requires c.Valid() && c.clusters > 0 && c.totalTiles > 0 && c.epiThreads >= c.tileM
    requires row < c.tileM && SlotOf(c, c.totalTiles - 1, row) < |c.recvToken|
    requires c.Active(SlotOf(c, c.totalTiles - 1, row))
    ensures SafeForAll(c) <==> c.running == c.stripes
  {
    if c.running == c.stripes {
      forall term: (nat, nat) -> real ensures Safe(c.(term := term)) {
        EqualIsSafe(c.(term := term));
      }
    } else {
      var ones: (nat, nat) -> real := (slot: nat, col: nat) => 1.0;
      UnsafeWithPhantoms(c.(term := ones), row);
    }
  }

  lemma EqualIsSafe(c: Config)
    requires c.Valid() && c.running == c.stripes
    ensures Safe(c)
  {
    forall s: State, r: nat, col: nat |
      Reachable(c, s) && r < c.numRecv && |s.done| == c.numRecv && s.done[r] == c.seqno && col < c.Hidden() && (r, col) in s.o
      ensures s.o[(r, col)] == FullSum(c, r, col)
    {
      GateSafety(c, s, r);
    }
  }

  /** When every peer of every claim runs its epilogue, that is: exactly when cluster_n divides the stripes. */
  lemma AllPeersIff(c: Config)
    requires c.Valid() && c.running == c.ClaimsPerTile() * c.clusterN
    ensures c.running == c.stripes <==> c.stripes % c.clusterN == 0
  {
    var q := c.ClaimsPerTile();
    if c.stripes % c.clusterN == 0 {
      var k := c.stripes / c.clusterN;
      assert c.stripes == k * c.clusterN;
      DivUnique(c.stripes + c.clusterN - 1, k, c.clusterN - 1, c.clusterN);
    } else if c.running == c.stripes {
      DivUnique(c.stripes, q, 0, c.clusterN);
    }
  }
}
