/** What every step of kernel Y keeps, and the gate-safety theorem built on it. */
module KernelYSafety {
  import opened Arith
  import opened Sums
  import opened KernelY

  lemma ClaimOfRoundTrip(c: Config, t: nat, n: nat)
    requires c.Valid() && t < c.totalTiles && n < c.running
    ensures c.ClaimOf(t, n) < c.TotalWork() && n % c.clusterN < c.clusterN
    ensures c.Tile(c.ClaimOf(t, n)) == t
    ensures c.Stripe(c.ClaimOf(t, n), n % c.clusterN) == n
  {
    PackInBlock(t, n, c.totalTiles, c.ClaimsPerTile(), c.clusterN);
  }

  lemma StripeRoundTrip(c: Config, j: nat, p: nat)
    requires c.Valid() && j < c.TotalWork() && p < c.clusterN
    ensures c.Tile(j) < c.totalTiles
    ensures c.ClaimOf(c.Tile(j), c.Stripe(j, p)) == j
    ensures c.Stripe(j, p) % c.clusterN == p
  {
    var q := c.ClaimsPerTile();
    CeilDiv(c.stripes, c.clusterN);
    DivBound(j, c.totalTiles, q);
    DivUnique(c.Stripe(j, p), j % q, p, c.clusterN);
  }

  lemma SlotRoundTrip(c: Config, t: nat, row: nat)
    requires c.Valid() && t < c.totalTiles && row < c.tileM
    ensures SlotOf(c, t, row) < c.Slots()
    ensures SlotOf(c, t, row) / c.tileM == t && SlotOf(c, t, row) % c.tileM == row
  {
    DivUnique(SlotOf(c, t, row), t, row, c.tileM);
    PairBound(t, row, c.totalTiles, c.tileM);
  }

  lemma SlotSplit(c: Config, slot: nat)
    requires c.Valid() && slot < c.Slots()
    ensures slot / c.tileM < c.totalTiles && slot % c.tileM < c.tileM
    ensures SlotOf(c, slot / c.tileM, slot % c.tileM) == slot
  {
    DivBound(slot, c.totalTiles, c.tileM);
  }

  lemma ColumnSplit(c: Config, col: nat)
    requires c.Valid() && col < c.Hidden()
    ensures col / c.tileN < c.stripes
    ensures col / c.tileN * c.tileN <= col < (col / c.tileN + 1) * c.tileN
  {
    DivBound(col, c.stripes, c.tileN);
    assert (col / c.tileN + 1) * c.tileN == col / c.tileN * c.tileN + c.tileN;
  }

  /** The tile of a slot and the stripe of a column are in range. */
  lemma PlaceInRange(c: Config, slot: nat, col: nat)
    requires c.Valid() && slot < c.Slots() && col < c.Hidden()
    ensures slot / c.tileM < c.totalTiles && col / c.tileN < c.stripes <= c.running
  {
    SlotSplit(c, slot);
    ColumnSplit(c, col);
  }

  lemma SlotInJob(c: Config, slot: nat, col: nat, r: nat)
    requires c.Valid() && slot < c.Slots() && col < c.Hidden() && r < c.numRecv && c.Owns(slot, r)
    ensures InJob(c, slot / c.tileM, col / c.tileN, slot % c.tileM, col)
  {
    SlotSplit(c, slot);
    ColumnSplit(c, col);
  }

  lemma ColumnInStripe(c: Config, n: nat, col: nat)
    requires c.Valid() && n < c.stripes && n * c.tileN <= col < (n + 1) * c.tileN
    ensures col < c.Hidden() && col / c.tileN == n
  {
    assert (n + 1) * c.tileN == n * c.tileN + c.tileN;
    DivUnique(col, n, col - n * c.tileN, c.tileN);
    PairBound(n, col - n * c.tileN, c.stripes, c.tileN);
  }

  // ---------------------------------------------------------------------------
  // The phase of every (tile, stripe), read off the claim that covers it.
  // ---------------------------------------------------------------------------

  ghost function PhaseAt(c: Config, s: State, t: nat, n: nat): Phase
    requires c.Valid()
  {
    var j, p := c.ClaimOf(t, n), n % c.clusterN;
    if j < |s.claims| && p < |s.claims[j].peers| then s.claims[j].peers[p] else Scatter({})
  }

  /** Row `row` of tile t holds a token and has a bookkeeping thread of its own. */
  predicate HasThread(c: Config, t: nat, row: nat) {
    row < c.epiThreads && SlotOf(c, t, row) < |c.recvToken| && c.Active(SlotOf(c, t, row))
  }

  predicate Settled(pc: RowPc) {
    pc == Decremented || pc == Stamped
  }

  ghost predicate WfPhase(c: Config, t: nat, n: nat, ph: Phase)
    requires c.Valid()
  {
    match ph
    case Scatter(issued) =>
      forall row, col :: (row, col) in issued ==> InJob(c, t, n, row, col)
    case Book(last, rows, retired) =>
      && |rows| == c.tileM
      && (!last ==> forall row :: 0 <= row < c.tileM ==> rows[row] == Waiting)
      && (last && retired ==> forall row :: 0 <= row < c.tileM && HasThread(c, t, row) ==> Settled(rows[row]))
      && forall row :: 0 <= row < c.tileM && rows[row] != Waiting ==> HasThread(c, t, row)
  }

  ghost predicate WfPeer(c: Config, j: nat, p: nat, ph: Phase)
    requires c.Valid()
  {
    if j < c.TotalWork() && c.Stripe(j, p) < c.running then WfPhase(c, c.Tile(j), c.Stripe(j, p), ph) else ph == Skip
  }

  ghost predicate WfClaim(c: Config, j: nat, cl: Claim)
    requires c.Valid()
  {
    && cl.idx == j && cl.cluster < c.clusters && |cl.peers| == c.clusterN
    && (forall p :: 0 <= p < c.clusterN ==> WfPeer(c, j, p, cl.peers[p]))
    && (j >= c.TotalWork() ==> cl.published)
    && (!cl.published ==> forall p :: 0 <= p < c.clusterN ==> cl.peers[p] in {Scatter({}), Skip})
  }

  ghost predicate Shape(c: Config, s: State)
    requires c.Valid()
  {
    && |s.claims| == s.head && (forall j :: 0 <= j < s.head ==> WfClaim(c, j, s.claims[j]))
    && s.started == (if s.head == 0 then 0 else 1)
    && |s.arrival| == |s.stripesDone| == c.totalTiles
    && (forall t :: 0 <= t < c.totalTiles ==> s.arrival[t] <= c.target[t])
    && |s.remaining| == |s.done| == c.numRecv
    && (forall r, col :: 0 <= r < c.numRecv && 0 <= col < c.Hidden() ==> (r, col) in s.o)
  }

  /** Giving one peer of one claim a well-formed phase keeps every claim well formed. */
  lemma WfSetPeer(c: Config, s: State, j: nat, p: nat, ph: Phase)
    requires c.Valid() && Shape(c, s) && j < s.head && p < c.clusterN && s.claims[j].published
    requires WfPeer(c, j, p, ph)
    ensures forall i :: 0 <= i < s.head ==> WfClaim(c, i, SetPeer(s, j, p, ph)[i])
  {
    assert WfClaim(c, j, s.claims[j]);
    var peers := s.claims[j].peers[p := ph];
    forall p' | 0 <= p' < c.clusterN ensures WfPeer(c, j, p', peers[p']) {
    }
  }

  lemma ShapeClaim(c: Config, s: State, k: nat)
    requires c.Valid() && Shape(c, s) && Enabled(c, s, ClaimNext(k))
    ensures Shape(c, Next(c, s, ClaimNext(k)))
  {
    var j := s.head;
    var peers := InitialPeers(c, j);
    forall p | 0 <= p < c.clusterN ensures WfPeer(c, j, p, peers[p]) {
    }
  }

  lemma ShapePeerStep(c: Config, s: State, a: Action)
    requires c.Valid() && Shape(c, s) && Enabled(c, s, a)
    requires a.Add? || a.Gate? || a.Dec? || a.Stamp? || a.Retire?
    ensures Shape(c, Next(c, s, a))
  {
    var j, p := a.claim, a.peer;
    assert WfClaim(c, j, s.claims[j]);
    assert WfPeer(c, j, p, s.claims[j].peers[p]);
    WfSetPeer(c, s, j, p, Next(c, s, a).claims[j].peers[p]);
  }

  lemma ShapeStep(c: Config, s: State, a: Action)
    requires c.Valid() && Shape(c, s) && Enabled(c, s, a)
    ensures Shape(c, Next(c, s, a))
  {
    match a
    case Arrive(_, _) =>
    case ClaimNext(k) => ShapeClaim(c, s, k);
    case Publish(j) => assert WfClaim(c, j, s.claims[j]);
    case _ => ShapePeerStep(c, s, a);
  }

  // ---------------------------------------------------------------------------
  // Steps seen through the view (tile, stripe) -> phase: at most one entry changes.
  // ---------------------------------------------------------------------------

  type View = (nat, nat) -> Phase

  ghost function ViewOf(c: Config, s: State): View
    requires c.Valid()
  {
    (t: nat, n: nat) => PhaseAt(c, s, t, n)
  }

  ghost predicate SameView(c: Config, v: View, v': View) {
    forall t: nat, n: nat :: t < c.totalTiles && n < c.running ==> v'(t, n) == v(t, n)
  }

  ghost predicate ViewUpdate(c: Config, v: View, v': View, t0: nat, n0: nat, ph: Phase) {
    && t0 < c.totalTiles && n0 < c.running && v'(t0, n0) == ph
    && forall t: nat, n: nat :: t < c.totalTiles && n < c.running && (t != t0 || n != n0) ==> v'(t, n) == v(t, n)
  }

  ghost predicate PeerStep(a: Action) {
    a.Add? || a.Gate? || a.Dec? || a.Stamp? || a.Retire?
  }

  lemma ViewKept(c: Config, s: State, a: Action)
    requires c.Valid() && Shape(c, s) && Enabled(c, s, a) && !PeerStep(a)
    ensures SameView(c, ViewOf(c, s), ViewOf(c, Next(c, s, a)))
  {
    var s' := Next(c, s, a);
    forall t: nat, n: nat | t < c.totalTiles && n < c.running
      ensures PhaseAt(c, s', t, n) == PhaseAt(c, s, t, n)
    {
      ClaimOfRoundTrip(c, t, n);
      if a.Publish? {
        assert WfClaim(c, a.claim, s.claims[a.claim]);
      }
    }
  }

  /** The (tile, stripe) a peer works on, and the phase it is in. */
  lemma PeerView(c: Config, s: State, j: nat, p: nat)
    requires c.Valid() && Shape(c, s) && CanRun(c, s, j, p) && s.claims[j].peers[p] != Skip
    ensures j < c.TotalWork() && p < c.clusterN && s.claims[j].idx == j
    ensures c.Tile(j) < c.totalTiles && c.Stripe(j, p) < c.running
    ensures ViewOf(c, s)(c.Tile(j), c.Stripe(j, p)) == s.claims[j].peers[p]
    ensures WfPhase(c, c.Tile(j), c.Stripe(j, p), s.claims[j].peers[p])
  {
    assert WfClaim(c, j, s.claims[j]) && WfPeer(c, j, p, s.claims[j].peers[p]);
    StripeRoundTrip(c, j, p);
  }

  lemma ViewStep(c: Config, s: State, a: Action)
    requires c.Valid() && Shape(c, s) && Enabled(c, s, a) && PeerStep(a)
    ensures s.claims[a.claim].peers[a.peer] != Skip && CanRun(c, s, a.claim, a.peer)
    ensures a.claim < c.TotalWork()
    ensures ViewUpdate(c, ViewOf(c, s), ViewOf(c, Next(c, s, a)), c.Tile(a.claim), c.Stripe(a.claim, a.peer),
                       Next(c, s, a).claims[a.claim].peers[a.peer])
  {
    var j, p := a.claim, a.peer;
    var s' := Next(c, s, a);
    PeerView(c, s, j, p);
    StripeRoundTrip(c, j, p);
    forall t: nat, n: nat | t < c.totalTiles && n < c.running && (t != c.Tile(j) || n != c.Stripe(j, p))
      ensures PhaseAt(c, s', t, n) == PhaseAt(c, s, t, n)
    {
      ClaimOfRoundTrip(c, t, n);
    }
  }

  // ---------------------------------------------------------------------------
  // The weighted sum in `o`.
  // ---------------------------------------------------------------------------

  /** The reduction of (slot, col) has been issued. */
  ghost predicate Added(c: Config, v: View, slot: nat, col: nat)
    requires c.Valid()
  {
    var ph := v(slot / c.tileM, col / c.tileN);
    ph.Book? || (slot % c.tileM, col) in ph.issued
  }

  ghost function OTerm(c: Config, v: View, r: nat, col: nat): nat -> real
    requires c.Valid()
  {
    (slot: nat) => if slot < |c.recvToken| && c.Owns(slot, r) && Added(c, v, slot, col) then c.term(slot, col) else 0.0
  }

  ghost predicate InvSum(c: Config, v: View, o: map<(nat, nat), real>)
    requires c.Valid()
  {
    forall r: nat, col: nat :: r < c.numRecv && col < c.Hidden() && (r, col) in o
      ==> o[(r, col)] == Sum(OTerm(c, v, r, col), c.Slots())
  }

  /** A term reads the phase of its own tile and stripe only. */
  lemma TermFrame(c: Config, v: View, v': View, r: nat, col: nat, slot: nat)
    requires c.Valid() && v'(slot / c.tileM, col / c.tileN) == v(slot / c.tileM, col / c.tileN)
    ensures OTerm(c, v', r, col)(slot) == OTerm(c, v, r, col)(slot)
  {
    assert Added(c, v', slot, col) == Added(c, v, slot, col);
  }

  lemma SameTerm(c: Config, v: View, v': View, r: nat, col: nat, slot: nat)
    requires c.Valid() && SameView(c, v, v') && slot < c.Slots() && col < c.Hidden()
    ensures OTerm(c, v', r, col)(slot) == OTerm(c, v, r, col)(slot)
  {
    PlaceInRange(c, slot, col);
    TermFrame(c, v, v', r, col, slot);
  }

  lemma SumSame(c: Config, v: View, v': View, o: map<(nat, nat), real>)
    requires c.Valid() && SameView(c, v, v') && InvSum(c, v, o)
    ensures InvSum(c, v', o)
  {
    forall r: nat, col: nat | r < c.numRecv && col < c.Hidden() && (r, col) in o
      ensures o[(r, col)] == Sum(OTerm(c, v', r, col), c.Slots())
    {
      var f, g := OTerm(c, v, r, col), OTerm(c, v', r, col);
      forall slot: nat | slot < c.Slots() ensures f(slot) == g(slot) {
        SameTerm(c, v, v', r, col, slot);
      }
      SumEq(f, g, c.Slots());
    }
  }

  lemma AddHere(c: Config, v: View, v': View, issued: set<(nat, nat)>, x: (nat, nat), r: nat, col: nat, slot: nat)
    requires c.Valid() && slot < |c.recvToken| && x !in issued
    requires v(slot / c.tileM, col / c.tileN) == Scatter(issued)
    requires v'(slot / c.tileM, col / c.tileN) == Scatter(issued + {x})
    ensures OTerm(c, v', r, col)(slot) == OTerm(c, v, r, col)(slot)
      + if (slot % c.tileM, col) == x && c.Owns(slot, r) then c.term(slot, col) else 0.0
  {
    assert Added(c, v, slot, col) == ((slot % c.tileM, col) in issued);
    assert Added(c, v', slot, col) == ((slot % c.tileM, col) in issued + {x});
  }

  /** Where the row and column of a job lie in the flat pool. */
  lemma JobPlace(c: Config, t0: nat, n0: nat, row: nat, col0: nat, slot: nat, col: nat)
    requires c.Valid() && InJob(c, t0, n0, row, col0) && slot < c.Slots() && col < c.Hidden()
    ensures slot < |c.recvToken| && t0 < c.totalTiles && n0 < c.running
    ensures slot == SlotOf(c, t0, row) <==> slot / c.tileM == t0 && slot % c.tileM == row
    ensures col == col0 ==> col / c.tileN == n0
  {
    SlotSplit(c, slot);
    ColumnSplit(c, col);
    SlotRoundTrip(c, t0, row);
    ColumnInStripe(c, n0, col0);
  }

  /** One more reduction changes the one term it belongs to. */
  lemma AddTerm(c: Config, v: View, v': View, t0: nat, n0: nat, row: nat, col0: nat, r: nat, col: nat, slot: nat)
    requires c.Valid() && slot < c.Slots() && col < c.Hidden()
    requires v(t0, n0).Scatter? && (row, col0) !in v(t0, n0).issued
    requires ViewUpdate(c, v, v', t0, n0, Scatter(v(t0, n0).issued + {(row, col0)}))
    ensures OTerm(c, v', r, col)(slot) == OTerm(c, v, r, col)(slot)
      + if slot / c.tileM == t0 && slot % c.tileM == row && col / c.tileN == n0 && col == col0 && c.Owns(slot, r)
        then c.term(slot, col) else 0.0
  {
    PlaceInRange(c, slot, col);
    if slot / c.tileM != t0 || col / c.tileN != n0 {
      TermFrame(c, v, v', r, col, slot);
    } else {
      AddHere(c, v, v', v(t0, n0).issued, (row, col0), r, col, slot);
    }
  }

  lemma SumAdd(c: Config, v: View, v': View, t0: nat, n0: nat, row: nat, col0: nat, o: map<(nat, nat), real>)
    requires c.Valid() && InvSum(c, v, o) && InJob(c, t0, n0, row, col0)
    requires v(t0, n0).Scatter? && (row, col0) !in v(t0, n0).issued
    requires ViewUpdate(c, v, v', t0, n0, Scatter(v(t0, n0).issued + {(row, col0)}))
    requires (c.recvToken[SlotOf(c, t0, row)], col0) in o
    ensures InvSum(c, v', o[(c.recvToken[SlotOf(c, t0, row)], col0) :=
                            o[(c.recvToken[SlotOf(c, t0, row)], col0)] + c.term(SlotOf(c, t0, row), col0)])
  {
    var slot0 := SlotOf(c, t0, row);
    SlotRoundTrip(c, t0, row);
    var r0 := c.recvToken[slot0];
    var o' := o[(r0, col0) := o[(r0, col0)] + c.term(slot0, col0)];
    forall r: nat, col: nat | r < c.numRecv && col < c.Hidden() && (r, col) in o'
      ensures o'[(r, col)] == Sum(OTerm(c, v', r, col), c.Slots())
    {
      var f, g := OTerm(c, v, r, col), OTerm(c, v', r, col);
      forall slot: nat | slot < c.Slots()
        ensures g(slot) == f(slot) + if slot == slot0 && col == col0 && c.Owns(slot, r) then c.term(slot, col) else 0.0
      {
        JobPlace(c, t0, n0, row, col0, slot, col);
        AddTerm(c, v, v', t0, n0, row, col0, r, col, slot);
      }
      SumBump(f, g, slot0, c.Slots());
    }
  }

  /** A phase change that issues nothing new leaves every term as it is. */
  lemma OtherTerm(c: Config, v: View, v': View, t0: nat, n0: nat, ph: Phase, r: nat, col: nat, slot: nat)
    requires c.Valid() && ViewUpdate(c, v, v', t0, n0, ph) && ph.Book? && slot < c.Slots() && col < c.Hidden()
    requires r < c.numRecv
    requires v(t0, n0).Scatter? ==>
               forall row: nat, col: nat :: InJob(c, t0, n0, row, col) ==> (row, col) in v(t0, n0).issued
    ensures OTerm(c, v', r, col)(slot) == OTerm(c, v, r, col)(slot)
  {
    PlaceInRange(c, slot, col);
    if slot / c.tileM != t0 || col / c.tileN != n0 {
      TermFrame(c, v, v', r, col, slot);
    } else if c.Owns(slot, r) {
      SlotInJob(c, slot, col, r);
      BothAdded(c, v, v', slot, col, slot % c.tileM);
    }
  }

  lemma BothAdded(c: Config, v: View, v': View, slot: nat, col: nat, row: nat)
    requires c.Valid() && row == slot % c.tileM && v'(slot / c.tileM, col / c.tileN).Book?
    requires v(slot / c.tileM, col / c.tileN).Scatter? ==> (row, col) in v(slot / c.tileM, col / c.tileN).issued
    ensures Added(c, v, slot, col) && Added(c, v', slot, col)
  {
  }

  lemma SumOther(c: Config, v: View, v': View, t0: nat, n0: nat, ph: Phase, o: map<(nat, nat), real>)
    requires c.Valid() && InvSum(c, v, o) && ViewUpdate(c, v, v', t0, n0, ph) && ph.Book?
    requires v(t0, n0).Scatter? ==>
               forall row: nat, col: nat :: InJob(c, t0, n0, row, col) ==> (row, col) in v(t0, n0).issued
    ensures InvSum(c, v', o)
  {
    forall r: nat, col: nat | r < c.numRecv && col < c.Hidden() && (r, col) in o
      ensures o[(r, col)] == Sum(OTerm(c, v', r, col), c.Slots())
    {
      var f, g := OTerm(c, v, r, col), OTerm(c, v', r, col);
      forall slot: nat | slot < c.Slots() ensures f(slot) == g(slot) {
        OtherTerm(c, v, v', t0, n0, ph, r, col, slot);
      }
      SumEq(f, g, c.Slots());
    }
  }

  // ---------------------------------------------------------------------------
  // The stripe gate.
  // ---------------------------------------------------------------------------

  ghost function Gated(v: View, t: nat): nat -> bool {
    (n: nat) => v(t, n).Book?
  }

  ghost predicate InvGate(c: Config, v: View, stripesDone: seq<nat>) {
    && |stripesDone| == c.totalTiles
    && forall t: nat :: t < c.totalTiles ==> stripesDone[t] == Count(Gated(v, t), c.running)
  }

  predicate Last(ph: Phase) { ph.Book? && ph.last }

  /** A last stripe exists exactly when the gate has reached its count, and it is unique. */
  ghost predicate InvLast(c: Config, v: View, stripesDone: seq<nat>) {
    && |stripesDone| == c.totalTiles
    && (forall t: nat, n: nat :: t < c.totalTiles && n < c.running && Last(v(t, n)) ==> stripesDone[t] >= c.stripes)
    && (forall t: nat :: t < c.totalTiles && stripesDone[t] >= c.stripes ==> exists n: nat :: n < c.running && Last(v(t, n)))
    && (forall t: nat, n: nat, n': nat ::
          t < c.totalTiles && n < c.running && n' < c.running && Last(v(t, n)) && Last(v(t, n')) ==> n == n')
  }

  lemma GateSame(c: Config, v: View, v': View, stripesDone: seq<nat>)
    requires InvGate(c, v, stripesDone) && InvLast(c, v, stripesDone)
    requires forall t: nat, n: nat :: t < c.totalTiles && n < c.running ==>
               v'(t, n).Book? == v(t, n).Book? && Last(v'(t, n)) == Last(v(t, n))
    ensures InvGate(c, v', stripesDone) && InvLast(c, v', stripesDone)
  {
    forall t: nat | t < c.totalTiles ensures stripesDone[t] == Count(Gated(v', t), c.running) {
      CountEq(Gated(v', t), Gated(v, t), c.running);
    }
    forall t: nat | t < c.totalTiles && stripesDone[t] >= c.stripes
      ensures exists n: nat :: n < c.running && Last(v'(t, n))
    {
      var n: nat :| n < c.running && Last(v(t, n));
      assert Last(v'(t, n));
    }
  }

  lemma GateOpen(c: Config, v: View, v': View, stripesDone: seq<nat>, t0: nat, n0: nat, ph: Phase)
    requires InvGate(c, v, stripesDone) && InvLast(c, v, stripesDone) && ViewUpdate(c, v, v', t0, n0, ph)
    requires v(t0, n0).Scatter? && ph.Book? && ph.last == (stripesDone[t0] == c.stripes - 1)
    ensures InvGate(c, v', stripesDone[t0 := stripesDone[t0] + 1])
    ensures InvLast(c, v', stripesDone[t0 := stripesDone[t0] + 1])
  {
    var done' := stripesDone[t0 := stripesDone[t0] + 1];
    forall t: nat | t < c.totalTiles ensures done'[t] == Count(Gated(v', t), c.running) {
      if t == t0 {
        CountBump(Gated(v, t), Gated(v', t), n0, c.running);
      } else {
        CountEq(Gated(v', t), Gated(v, t), c.running);
      }
    }
    forall t: nat | t < c.totalTiles && done'[t] >= c.stripes
      ensures exists n: nat :: n < c.running && Last(v'(t, n))
    {
      if t == t0 && ph.last {
        assert Last(v'(t, n0));
      } else {
        var n: nat :| n < c.running && Last(v(t, n));
        assert Last(v'(t, n));
      }
    }
  }

  // ---------------------------------------------------------------------------
  // The rows of the last stripe and the per-token counters.
  // ---------------------------------------------------------------------------

  predicate Mark(ph: Phase, row: nat, pcs: set<RowPc>) {
    Last(ph) && row < |ph.rows| && ph.rows[row] in pcs
  }

  /** Some stripe of tile t keeps row `row` and has it at one of pcs. */
  ghost predicate Marked(c: Config, v: View, t: nat, row: nat, pcs: set<RowPc>) {
    exists n: nat :: n < c.running && Mark(v(t, n), row, pcs)
  }

  /** The bookkeeping of a slot is the one kept by the last stripe of its tile. */
  ghost predicate RowIn(c: Config, v: View, slot: nat, pcs: set<RowPc>)
    requires c.tileM > 0
  {
    Marked(c, v, slot / c.tileM, slot % c.tileM, pcs)
  }

  const DOWN: set<RowPc> := {Decremented, MustStamp, Stamped}
  const CHOSEN: set<RowPc> := {MustStamp, Stamped}

  ghost function SlotsIn(c: Config, v: View, r: nat, pcs: set<RowPc>): nat -> bool
    requires c.tileM > 0
  {
    (slot: nat) => slot < |c.recvToken| && c.Owns(slot, r) && RowIn(c, v, slot, pcs)
  }

  ghost function CountIn(c: Config, v: View, r: nat, pcs: set<RowPc>): nat
    requires c.tileM > 0
  {
    Count(SlotsIn(c, v, r, pcs), c.Slots())
  }

  ghost predicate InvTokens(c: Config, v: View, remaining: seq<int>, done: seq<int>)
    requires c.tileM > 0
  {
    && |remaining| == |done| == c.numRecv
    && (forall r: nat :: r < c.numRecv ==> remaining[r] == KLocal(c, r) - CountIn(c, v, r, DOWN))
    && (forall r: nat :: r < c.numRecv ==>
          CountIn(c, v, r, CHOSEN) == if KLocal(c, r) > 0 && remaining[r] == 0 then 1 else 0)
    && (forall r: nat :: r < c.numRecv ==> done[r] == if CountIn(c, v, r, {Stamped}) > 0 then c.seqno else 0)
  }

  lemma RowInSame(c: Config, v: View, v': View, slot: nat, pcs: set<RowPc>)
    requires c.Valid() && slot < c.Slots()
    requires forall t: nat, n: nat, row: nat :: t < c.totalTiles && n < c.running && row < c.tileM ==>
               Mark(v'(t, n), row, pcs) == Mark(v(t, n), row, pcs)
    ensures RowIn(c, v', slot, pcs) == RowIn(c, v, slot, pcs)
  {
    SlotSplit(c, slot);
    var t, row := slot / c.tileM, slot % c.tileM;
    assert forall n: nat :: n < c.running ==> Mark(v'(t, n), row, pcs) == Mark(v(t, n), row, pcs);
  }

  ghost predicate SameMarks(c: Config, v: View, v': View, pcs: set<RowPc>) {
    forall t: nat, n: nat, row: nat :: t < c.totalTiles && n < c.running && row < c.tileM ==>
      Mark(v'(t, n), row, pcs) == Mark(v(t, n), row, pcs)
  }

  lemma CountInSame(c: Config, v: View, v': View, r: nat, pcs: set<RowPc>)
    requires c.Valid() && SameMarks(c, v, v', pcs)
    ensures CountIn(c, v', r, pcs) == CountIn(c, v, r, pcs)
  {
    var p, q := SlotsIn(c, v', r, pcs), SlotsIn(c, v, r, pcs);
    forall slot: nat | slot < c.Slots() ensures p(slot) == q(slot) {
      RowInSame(c, v, v', slot, pcs);
    }
    CountEq(p, q, c.Slots());
  }

  lemma TokensSame(c: Config, v: View, v': View, remaining: seq<int>, done: seq<int>)
    requires c.Valid() && InvTokens(c, v, remaining, done)
    requires SameMarks(c, v, v', DOWN) && SameMarks(c, v, v', CHOSEN) && SameMarks(c, v, v', {Stamped})
    ensures InvTokens(c, v', remaining, done)
  {
    forall r: nat | r < c.numRecv
      ensures CountIn(c, v', r, DOWN) == CountIn(c, v, r, DOWN)
      ensures CountIn(c, v', r, CHOSEN) == CountIn(c, v, r, CHOSEN)
      ensures CountIn(c, v', r, {Stamped}) == CountIn(c, v, r, {Stamped})
    {
      CountInSame(c, v, v', r, DOWN);
      CountInSame(c, v, v', r, CHOSEN);
      CountInSame(c, v, v', r, {Stamped});
    }
  }

  /** The step of one row's thread: its slot moves to pc, every other slot stays. */
  ghost predicate RowMove(c: Config, v: View, v': View, t0: nat, n0: nat, row0: nat, pc: RowPc)
    requires c.Valid()
  {
    && Last(v(t0, n0)) && row0 < |v(t0, n0).rows| && |v(t0, n0).rows| == c.tileM
    && ViewUpdate(c, v, v', t0, n0, v(t0, n0).(rows := v(t0, n0).rows[row0 := pc]))
    && forall n: nat :: n < c.running && Last(v(t0, n)) ==> n == n0
  }

  lemma RowInMove(c: Config, v: View, v': View, t0: nat, n0: nat, row0: nat, pc: RowPc, slot: nat, pcs: set<RowPc>)
    requires c.Valid() && slot < c.Slots() && RowMove(c, v, v', t0, n0, row0, pc)
    ensures slot == SlotOf(c, t0, row0) ==> RowIn(c, v', slot, pcs) == (pc in pcs)
    ensures slot == SlotOf(c, t0, row0) ==> RowIn(c, v, slot, pcs) == (v(t0, n0).rows[row0] in pcs)
    ensures slot != SlotOf(c, t0, row0) ==> RowIn(c, v', slot, pcs) == RowIn(c, v, slot, pcs)
  {
    SlotWhere(c, t0, row0, slot);
    MarkMove(c, v, v', t0, n0, row0, pc, slot / c.tileM, slot % c.tileM, pcs);
  }

  lemma SlotWhere(c: Config, t0: nat, row0: nat, slot: nat)
    requires c.Valid() && t0 < c.totalTiles && row0 < c.tileM && slot < c.Slots()
    ensures slot / c.tileM < c.totalTiles && slot % c.tileM < c.tileM
    ensures slot == SlotOf(c, t0, row0) <==> slot / c.tileM == t0 && slot % c.tileM == row0
  {
    SlotSplit(c, slot);
    SlotRoundTrip(c, t0, row0);
  }

  lemma MarkMove(c: Config, v: View, v': View, t0: nat, n0: nat, row0: nat, pc: RowPc, t: nat, row: nat, pcs: set<RowPc>)
    requires c.Valid() && RowMove(c, v, v', t0, n0, row0, pc) && t < c.totalTiles && row < c.tileM
    ensures t == t0 && row == row0 ==> Marked(c, v', t, row, pcs) == (pc in pcs)
    ensures t == t0 && row == row0 ==> Marked(c, v, t, row, pcs) == (v(t0, n0).rows[row0] in pcs)
    ensures t != t0 || row != row0 ==> Marked(c, v', t, row, pcs) == Marked(c, v, t, row, pcs)
  {
    if t == t0 && row == row0 {
      assert Mark(v'(t, n0), row, pcs) == (pc in pcs);
      assert Mark(v(t, n0), row, pcs) == (v(t0, n0).rows[row0] in pcs);
      assert forall n: nat :: n < c.running && n != n0 ==> !Mark(v'(t, n), row, pcs) && !Mark(v(t, n), row, pcs);
    } else {
      assert forall n: nat :: n < c.running ==> Mark(v'(t, n), row, pcs) == Mark(v(t, n), row, pcs);
    }
  }

  /** A row step changes the count of its own token by one or not at all. */
  lemma CountInMove(c: Config, v: View, v': View, t0: nat, n0: nat, row0: nat, pc: RowPc, r: nat, pcs: set<RowPc>)
    requires c.Valid() && RowMove(c, v, v', t0, n0, row0, pc)
    ensures SlotOf(c, t0, row0) < |c.recvToken|
    ensures CountIn(c, v', r, pcs) - CountIn(c, v, r, pcs) ==
            if !c.Owns(SlotOf(c, t0, row0), r) then 0
            else (if pc in pcs then 1 else 0) - (if v(t0, n0).rows[row0] in pcs then 1 else 0)
  {
    var slot0 := SlotOf(c, t0, row0);
    SlotRoundTrip(c, t0, row0);
    var p, q := SlotsIn(c, v, r, pcs), SlotsIn(c, v', r, pcs);
    forall slot: nat | slot < c.Slots()
      ensures slot != slot0 ==> p(slot) == q(slot)
      ensures slot == slot0 ==> p(slot) == (c.Owns(slot, r) && v(t0, n0).rows[row0] in pcs)
      ensures slot == slot0 ==> q(slot) == (c.Owns(slot, r) && pc in pcs)
    {
      RowInMove(c, v, v', t0, n0, row0, pc, slot, pcs);
    }
    SumNBump(Indicator(p), Indicator(q), slot0, c.Slots());
  }

  /** A token with a row still waiting has something left to count. */
  lemma RemainingPositive(c: Config, v: View, slot: nat, r: nat)
    requires c.Valid() && slot < c.Slots() && c.Owns(slot, r) && !RowIn(c, v, slot, DOWN)
    ensures CountIn(c, v, r, DOWN) < KLocal(c, r)
  {
    CountLe(SlotsIn(c, v, r, DOWN), SlotsOwned(c, r), c.Slots());
    assert SlotsOwned(c, r)(slot) && !SlotsIn(c, v, r, DOWN)(slot);
  }

  lemma DecCounts(c: Config, v: View, v': View, t0: nat, n0: nat, row0: nat, pc: RowPc, r: nat)
    requires c.Valid() && RowMove(c, v, v', t0, n0, row0, pc) && v(t0, n0).rows[row0] == Waiting
    requires pc == MustStamp || pc == Decremented
    ensures SlotOf(c, t0, row0) < |c.recvToken|
    ensures CountIn(c, v', r, DOWN) == CountIn(c, v, r, DOWN) + if c.Owns(SlotOf(c, t0, row0), r) then 1 else 0
    ensures CountIn(c, v', r, CHOSEN) ==
            CountIn(c, v, r, CHOSEN) + if c.Owns(SlotOf(c, t0, row0), r) && pc == MustStamp then 1 else 0
    ensures CountIn(c, v', r, {Stamped}) == CountIn(c, v, r, {Stamped})
  {
    CountInMove(c, v, v', t0, n0, row0, pc, r, DOWN);
    CountInMove(c, v, v', t0, n0, row0, pc, r, CHOSEN);
    CountInMove(c, v, v', t0, n0, row0, pc, r, {Stamped});
  }

  lemma DecPositive(c: Config, v: View, v': View, t0: nat, n0: nat, row0: nat, pc: RowPc, r0: nat)
    requires c.Valid() && RowMove(c, v, v', t0, n0, row0, pc) && v(t0, n0).rows[row0] == Waiting
    requires SlotOf(c, t0, row0) < c.Slots() && c.Owns(SlotOf(c, t0, row0), r0)
    ensures CountIn(c, v, r0, DOWN) < KLocal(c, r0)
  {
    RowInMove(c, v, v', t0, n0, row0, pc, SlotOf(c, t0, row0), DOWN);
    RemainingPositive(c, v, SlotOf(c, t0, row0), r0);
  }

  lemma TokensDec(c: Config, v: View, v': View, remaining: seq<int>, done: seq<int>, t0: nat, n0: nat, row0: nat, r0: nat)
    requires c.Valid() && InvTokens(c, v, remaining, done) && r0 < c.numRecv
    requires RowMove(c, v, v', t0, n0, row0, if remaining[r0] == 1 then MustStamp else Decremented)
    requires v(t0, n0).rows[row0] == Waiting && SlotOf(c, t0, row0) < c.Slots() && c.Owns(SlotOf(c, t0, row0), r0)
    ensures InvTokens(c, v', remaining[r0 := remaining[r0] - 1], done)
  {
    var pc := if remaining[r0] == 1 then MustStamp else Decremented;
    DecPositive(c, v, v', t0, n0, row0, pc, r0);
    var remaining' := remaining[r0 := remaining[r0] - 1];
    forall r: nat | r < c.numRecv
      ensures remaining'[r] == KLocal(c, r) - CountIn(c, v', r, DOWN)
      ensures CountIn(c, v', r, CHOSEN) == if KLocal(c, r) > 0 && remaining'[r] == 0 then 1 else 0
      ensures CountIn(c, v', r, {Stamped}) == CountIn(c, v, r, {Stamped})
    {
      DecCounts(c, v, v', t0, n0, row0, pc, r);
    }
  }

  lemma TokensStamp(c: Config, v: View, v': View, remaining: seq<int>, done: seq<int>, t0: nat, n0: nat, row0: nat, r0: nat)
    requires c.Valid() && InvTokens(c, v, remaining, done) && r0 < c.numRecv
    requires RowMove(c, v, v', t0, n0, row0, Stamped)
    requires v(t0, n0).rows[row0] == MustStamp && SlotOf(c, t0, row0) < c.Slots() && c.Owns(SlotOf(c, t0, row0), r0)
    ensures InvTokens(c, v', remaining, done[r0 := c.seqno])
  {
    forall r: nat | r < c.numRecv
      ensures CountIn(c, v', r, DOWN) == CountIn(c, v, r, DOWN)
      ensures CountIn(c, v', r, CHOSEN) == CountIn(c, v, r, CHOSEN)
      ensures CountIn(c, v', r, {Stamped}) == CountIn(c, v, r, {Stamped}) + if r == r0 then 1 else 0
    {
      CountInMove(c, v, v', t0, n0, row0, Stamped, r, DOWN);
      CountInMove(c, v, v', t0, n0, row0, Stamped, r, CHOSEN);
      CountInMove(c, v, v', t0, n0, row0, Stamped, r, {Stamped});
    }
  }

  // ---------------------------------------------------------------------------
  // The invariant over every run.
  // ---------------------------------------------------------------------------

  ghost predicate Inv(c: Config, s: State)
    requires c.Valid()
  {
    var v := ViewOf(c, s);
    Shape(c, s) && InvSum(c, v, s.o) && InvGate(c, v, s.stripesDone) && InvLast(c, v, s.stripesDone)
    && InvTokens(c, v, s.remaining, s.done)
  }

  /** A view in which no CTA has done anything. */
  ghost predicate Untouched(c: Config, v: View) {
    forall t: nat, n: nat :: t < c.totalTiles && n < c.running ==> v(t, n) == Scatter({})
  }

  lemma InitSum(c: Config, v: View, o: map<(nat, nat), real>)
    requires c.Valid() && Untouched(c, v) && forall x :: x in o ==> o[x] == 0.0
    ensures InvSum(c, v, o)
  {
    forall r: nat, col: nat | r < c.numRecv && col < c.Hidden() && (r, col) in o
      ensures o[(r, col)] == Sum(OTerm(c, v, r, col), c.Slots())
    {
      var f := OTerm(c, v, r, col);
      forall slot: nat | slot < c.Slots() ensures f(slot) == 0.0 {
        PlaceInRange(c, slot, col);
        NothingAdded(c, v, slot, col);
      }
      ZeroSum(f, c.Slots());
    }
  }

  lemma InitGate(c: Config, v: View)
    requires c.Valid() && Untouched(c, v)
    ensures InvGate(c, v, seq(c.totalTiles, _ => 0)) && InvLast(c, v, seq(c.totalTiles, _ => 0))
  {
    forall t: nat | t < c.totalTiles ensures Count(Gated(v, t), c.running) == 0 {
      CountNone(Gated(v, t), c.running);
    }
  }

  lemma InitTokens(c: Config, v: View)
    requires c.Valid() && Untouched(c, v)
    ensures InvTokens(c, v, seq(c.numRecv, r requires 0 <= r < c.numRecv => KLocal(c, r)), seq(c.numRecv, _ => 0))
  {
    forall r: nat, pcs: set<RowPc> | r < c.numRecv ensures CountIn(c, v, r, pcs) == 0 {
      var p := SlotsIn(c, v, r, pcs);
      forall slot: nat | slot < c.Slots() ensures !p(slot) {
        SlotSplit(c, slot);
      }
      CountNone(p, c.Slots());
    }
  }

  lemma InitInv(c: Config)
    requires c.Valid()
    ensures Inv(c, Init(c))
  {
    var s := Init(c);
    var v := ViewOf(c, s);
    InitSum(c, v, s.o);
    InitGate(c, v);
    InitTokens(c, v);
  }

  lemma ZeroSum(f: nat -> real, n: nat)
    requires forall i: nat :: i < n ==> f(i) == 0.0
    ensures Sum(f, n) == 0.0
  {
  }

  lemma NothingAdded(c: Config, v: View, slot: nat, col: nat)
    requires c.Valid() && v(slot / c.tileM, col / c.tileN) == Scatter({})
    ensures !Added(c, v, slot, col)
  {
  }

  lemma InvQuiet(c: Config, s: State, a: Action)
    requires c.Valid() && Inv(c, s) && Enabled(c, s, a) && !PeerStep(a)
    ensures Inv(c, Next(c, s, a))
  {
    var v, v' := ViewOf(c, s), ViewOf(c, Next(c, s, a));
    ShapeStep(c, s, a);
    ViewKept(c, s, a);
    SumSame(c, v, v', s.o);
    GateSame(c, v, v', s.stripesDone);
    TokensSame(c, v, v', s.remaining, s.done);
  }

  lemma AddKeeps(c: Config, s: State, a: Action)
    requires c.Valid() && Inv(c, s) && Enabled(c, s, a) && a.Add?
    ensures InvTokens(c, ViewOf(c, Next(c, s, a)), s.remaining, s.done)
    ensures InvGate(c, ViewOf(c, Next(c, s, a)), s.stripesDone) && InvLast(c, ViewOf(c, Next(c, s, a)), s.stripesDone)
  {
    var v, v', t0, n0 := ViewOf(c, s), ViewOf(c, Next(c, s, a)), c.Tile(a.claim), c.Stripe(a.claim, a.peer);
    ViewStep(c, s, a);
    PeerView(c, s, a.claim, a.peer);
    ScatterKeeps(c, v, v', t0, n0, v'(t0, n0), s.stripesDone);
    TokensSame(c, v, v', s.remaining, s.done);
  }

  /** A CTA that goes on scattering changes nothing in the gate or in the rows' bookkeeping. */
  lemma ScatterKeeps(c: Config, v: View, v': View, t0: nat, n0: nat, ph: Phase, stripesDone: seq<nat>)
    requires ViewUpdate(c, v, v', t0, n0, ph) && v(t0, n0).Scatter? && ph.Scatter?
    requires InvGate(c, v, stripesDone) && InvLast(c, v, stripesDone)
    ensures InvGate(c, v', stripesDone) && InvLast(c, v', stripesDone)
    ensures SameMarks(c, v, v', DOWN) && SameMarks(c, v, v', CHOSEN) && SameMarks(c, v, v', {Stamped})
  {
    GateSame(c, v, v', stripesDone);
  }

  lemma AddSum(c: Config, s: State, a: Action)
    requires c.Valid() && Inv(c, s) && Enabled(c, s, a) && a.Add?
    ensures InvSum(c, ViewOf(c, Next(c, s, a)), Next(c, s, a).o)
  {
    var v, v', t0, n0 := ViewOf(c, s), ViewOf(c, Next(c, s, a)), c.Tile(a.claim), c.Stripe(a.claim, a.peer);
    ViewStep(c, s, a);
    PeerView(c, s, a.claim, a.peer);
    SumAdd(c, v, v', t0, n0, a.row, a.col, s.o);
  }

  lemma InvAdd(c: Config, s: State, a: Action)
    requires c.Valid() && Inv(c, s) && Enabled(c, s, a) && a.Add?
    ensures Inv(c, Next(c, s, a))
  {
    ShapeStep(c, s, a);
    AddKeeps(c, s, a);
    AddSum(c, s, a);
  }

  lemma InvGateStep(c: Config, s: State, a: Action)
    requires c.Valid() && Inv(c, s) && Enabled(c, s, a) && a.Gate?
    ensures Inv(c, Next(c, s, a))
  {
    var s' := Next(c, s, a);
    var v, v', t0, n0 := ViewOf(c, s), ViewOf(c, s'), c.Tile(a.claim), c.Stripe(a.claim, a.peer);
    ShapeStep(c, s, a);
    ViewStep(c, s, a);
    PeerView(c, s, a.claim, a.peer);
    var ph := v'(t0, n0);
    GateMarks(c, v, v', t0, n0, ph, DOWN);
    GateMarks(c, v, v', t0, n0, ph, CHOSEN);
    GateMarks(c, v, v', t0, n0, ph, {Stamped});
    GateParts(c, s, v, v', t0, n0, ph);
  }

  lemma GateMarks(c: Config, v: View, v': View, t0: nat, n0: nat, ph: Phase, pcs: set<RowPc>)
    requires ViewUpdate(c, v, v', t0, n0, ph) && v(t0, n0).Scatter? && ph.Book? && Waiting !in pcs
    requires forall row :: 0 <= row < |ph.rows| ==> ph.rows[row] == Waiting
    ensures SameMarks(c, v, v', pcs)
  {
  }

  lemma GateParts(c: Config, s: State, v: View, v': View, t0: nat, n0: nat, ph: Phase)
    requires c.Valid() && InvSum(c, v, s.o) && InvGate(c, v, s.stripesDone) && InvLast(c, v, s.stripesDone)
    requires InvTokens(c, v, s.remaining, s.done)
    requires ViewUpdate(c, v, v', t0, n0, ph) && v(t0, n0).Scatter? && ph.Book?
    requires ph.last == (s.stripesDone[t0] == c.stripes - 1)
    requires SameMarks(c, v, v', DOWN) && SameMarks(c, v, v', CHOSEN) && SameMarks(c, v, v', {Stamped})
    requires forall row: nat, col: nat :: InJob(c, t0, n0, row, col) ==> (row, col) in v(t0, n0).issued
    ensures InvSum(c, v', s.o) && InvTokens(c, v', s.remaining, s.done)
    ensures InvGate(c, v', s.stripesDone[t0 := s.stripesDone[t0] + 1])
    ensures InvLast(c, v', s.stripesDone[t0 := s.stripesDone[t0] + 1])
  {
    SumOther(c, v, v', t0, n0, ph, s.o);
    GateOpen(c, v, v', s.stripesDone, t0, n0, ph);
    TokensSame(c, v, v', s.remaining, s.done);
  }

  /** A bookkeeping step of a CTA leaves the sums and the gate as they are. */
  lemma RowKeeps(c: Config, s: State, a: Action)
    requires c.Valid() && Inv(c, s) && Enabled(c, s, a) && (a.Dec? || a.Stamp? || a.Retire?)
    ensures Shape(c, Next(c, s, a)) && InvSum(c, ViewOf(c, Next(c, s, a)), s.o)
    ensures InvGate(c, ViewOf(c, Next(c, s, a)), s.stripesDone) && InvLast(c, ViewOf(c, Next(c, s, a)), s.stripesDone)
  {
    var v, v', t0, n0 := ViewOf(c, s), ViewOf(c, Next(c, s, a)), c.Tile(a.claim), c.Stripe(a.claim, a.peer);
    ShapeStep(c, s, a);
    ViewStep(c, s, a);
    PeerView(c, s, a.claim, a.peer);
    SumOther(c, v, v', t0, n0, v'(t0, n0), s.o);
    GateSame(c, v, v', s.stripesDone);
  }

  lemma RetireTokens(c: Config, s: State, a: Action)
    requires c.Valid() && Inv(c, s) && Enabled(c, s, a) && a.Retire?
    ensures InvTokens(c, ViewOf(c, Next(c, s, a)), s.remaining, s.done)
  {
    ViewStep(c, s, a);
    PeerView(c, s, a.claim, a.peer);
    TokensSame(c, ViewOf(c, s), ViewOf(c, Next(c, s, a)), s.remaining, s.done);
  }

  lemma CountTokens(c: Config, s: State, a: Action)
    requires c.Valid() && Inv(c, s) && Enabled(c, s, a) && (a.Dec? || a.Stamp?)
    ensures InvTokens(c, ViewOf(c, Next(c, s, a)), Next(c, s, a).remaining, Next(c, s, a).done)
  {
    var v, v', t0, n0 := ViewOf(c, s), ViewOf(c, Next(c, s, a)), c.Tile(a.claim), c.Stripe(a.claim, a.peer);
    ViewStep(c, s, a);
    PeerView(c, s, a.claim, a.peer);
    var r0 := c.recvToken[SlotOf(c, t0, a.row)];
    if a.Dec? {
      TokensDec(c, v, v', s.remaining, s.done, t0, n0, a.row, r0);
    } else {
      TokensStamp(c, v, v', s.remaining, s.done, t0, n0, a.row, r0);
    }
  }

  lemma InvRow(c: Config, s: State, a: Action)
    requires c.Valid() && Inv(c, s) && Enabled(c, s, a) && (a.Dec? || a.Stamp? || a.Retire?)
    ensures Inv(c, Next(c, s, a))
  {
    RowKeeps(c, s, a);
    if a.Retire? {
      RetireTokens(c, s, a);
    } else {
      CountTokens(c, s, a);
    }
  }

  lemma InvStep(c: Config, s: State, a: Action)
    requires c.Valid() && Inv(c, s) && Enabled(c, s, a)
    ensures Inv(c, Next(c, s, a))
  {
    if !PeerStep(a) {
      InvQuiet(c, s, a);
    } else if a.Add? {
      InvAdd(c, s, a);
    } else if a.Gate? {
      InvGateStep(c, s, a);
    } else {
      InvRow(c, s, a);
    }
  }

  lemma {:induction false} RunInv(c: Config, steps: seq<Action>, s: State)
    requires c.Valid() && Run(c, steps, s)
    ensures Inv(c, s)
    decreases |steps|
  {
    if steps == [] {
      InitInv(c);
    } else {
      var n := |steps| - 1;
      var s0 :| Run(c, steps[..n], s0) && Enabled(c, s0, steps[n]) && s == Next(c, s0, steps[n]);
      RunInv(c, steps[..n], s0);
      InvStep(c, s0, steps[n]);
    }
  }

  lemma ReachableInv(c: Config, s: State)
    requires c.Valid() && Reachable(c, s)
    ensures Inv(c, s)
  {
    var steps :| Run(c, steps, s);
    RunInv(c, steps, s);
  }

  // ---------------------------------------------------------------------------
  // Gate safety: a stamped token is fully summed.
  // ---------------------------------------------------------------------------

  ghost function FullTerm(c: Config, r: nat, col: nat): nat -> real {
    (slot: nat) => if slot < |c.recvToken| && c.Owns(slot, r) then c.term(slot, col) else 0.0
  }

  /** The weighted sum over every slot of token r. */
  ghost function FullSum(c: Config, r: nat, col: nat): real {
    Sum(FullTerm(c, r, col), c.Slots())
  }

  /** Every reduction of every slot and column of token r has been issued. */
  ghost predicate AllAdded(c: Config, s: State, r: nat)
    requires c.Valid()
  {
    forall slot: nat, col: nat :: slot < c.Slots() && c.Owns(slot, r) && col < c.Hidden()
      ==> Added(c, ViewOf(c, s), slot, col)
  }

  lemma AllAddedSum(c: Config, s: State, r: nat, col: nat)
    requires c.Valid() && Inv(c, s) && r < c.numRecv && col < c.Hidden() && AllAdded(c, s, r)
    ensures (r, col) in s.o && s.o[(r, col)] == FullSum(c, r, col)
  {
    SumEq(OTerm(c, ViewOf(c, s), r, col), FullTerm(c, r, col), c.Slots());
  }

  /** With as many running stripes as the gate counts, a last stripe means that all of them are done. */
  lemma LastMeansAll(c: Config, v: View, stripesDone: seq<nat>, t: nat, n: nat, n': nat)
    requires c.Valid() && c.running == c.stripes && InvGate(c, v, stripesDone) && InvLast(c, v, stripesDone)
    requires t < c.totalTiles && n < c.running && n' < c.running && Last(v(t, n))
    ensures v(t, n').Book?
  {
    CountAll(Gated(v, t), c.running);
    assert Gated(v, t)(n');
  }

  /** A stamped token has every one of its slots counted off. */
  lemma StampedMeansDown(c: Config, s: State, r: nat, slot: nat)
    requires c.Valid() && Inv(c, s) && r < c.numRecv && s.done[r] == c.seqno
    requires slot < c.Slots() && c.Owns(slot, r)
    ensures RowIn(c, ViewOf(c, s), slot, DOWN)
  {
    var v := ViewOf(c, s);
    CountLe(SlotsIn(c, v, r, {Stamped}), SlotsIn(c, v, r, CHOSEN), c.Slots());
    assert s.remaining[r] == 0;
    CountLe(SlotsIn(c, v, r, DOWN), SlotsOwned(c, r), c.Slots());
    assert SlotsOwned(c, r)(slot);
    assert SlotsIn(c, v, r, DOWN)(slot);
  }

  lemma DownIsAdded(c: Config, v: View, stripesDone: seq<nat>, slot: nat, col: nat)
    requires c.Valid() && c.running == c.stripes && InvGate(c, v, stripesDone) && InvLast(c, v, stripesDone)
    requires slot < c.Slots() && col < c.Hidden() && RowIn(c, v, slot, DOWN)
    ensures Added(c, v, slot, col)
  {
    var t, row, n := slot / c.tileM, slot % c.tileM, col / c.tileN;
    PlaceInRange(c, slot, col);
    RowDownAll(c, v, stripesDone, t, row, n);
    BookIsAdded(c, v, slot, col);
  }

  lemma BookIsAdded(c: Config, v: View, slot: nat, col: nat)
    requires c.Valid() && v(slot / c.tileM, col / c.tileN).Book?
    ensures Added(c, v, slot, col)
  {
  }

  lemma RowDownAll(c: Config, v: View, stripesDone: seq<nat>, t: nat, row: nat, n': nat)
    requires c.Valid() && c.running == c.stripes && InvGate(c, v, stripesDone) && InvLast(c, v, stripesDone)
    requires t < c.totalTiles && n' < c.running && Marked(c, v, t, row, DOWN)
    ensures v(t, n').Book?
  {
    var n: nat :| n < c.running && Mark(v(t, n), row, DOWN);
    LastMeansAll(c, v, stripesDone, t, n, n');
  }

  lemma StampedIsAdded(c: Config, s: State, r: nat)
    requires c.Valid() && Inv(c, s) && c.running == c.stripes && r < c.numRecv && s.done[r] == c.seqno
    ensures AllAdded(c, s, r)
  {
    forall slot: nat, col: nat | slot < c.Slots() && c.Owns(slot, r) && col < c.Hidden()
      ensures Added(c, ViewOf(c, s), slot, col)
    {
      StampedMeansDown(c, s, r, slot);
      DownIsAdded(c, ViewOf(c, s), s.stripesDone, slot, col);
    }
  }

  /** In every state of every interleaving, a token that combine may read holds its whole sum. */
  lemma GateSafety(c: Config, s: State, r: nat)
    requires c.Valid() && c.running == c.stripes && Reachable(c, s)
    requires r < c.numRecv
    ensures |s.done| == c.numRecv
    ensures s.done[r] == c.seqno ==>
              forall col: nat :: col < c.Hidden() ==> (r, col) in s.o && s.o[(r, col)] == FullSum(c, r, col)
  {
    ReachableInv(c, s);
    if s.done[r] == c.seqno {
      StampedIsAdded(c, s, r);
      forall col: nat | col < c.Hidden() ensures (r, col) in s.o && s.o[(r, col)] == FullSum(c, r, col) {
        AllAddedSum(c, s, r, col);
      }
    }
  }
}
