/** The device code of kernel Y on its own memory. Each method is what one warp or CTA executes when it
  * is not interrupted; its contract says which steps of the step system that is. */
module KernelYDevice {
  import A = Arith
  import opened Sums
  import opened KernelY

  /** s' is reached from s by performing `steps`. */
  ghost predicate Steps(c: Config, s: State, steps: seq<Action>, s': State)
    requires c.Valid()
    decreases |steps|
  {
    if steps == [] then s' == s
    else
      var n := |steps| - 1;
      exists s0 :: Steps(c, s, steps[..n], s0) && Enabled(c, s0, steps[n]) && s' == Next(c, s0, steps[n])
  }

  ghost predicate Path(c: Config, s: State, s': State)
    requires c.Valid()
  {
    exists steps :: Steps(c, s, steps, s')
  }

  lemma PathExtend(c: Config, s: State, s0: State, a: Action)
    requires c.Valid() && Path(c, s, s0) && Enabled(c, s0, a)
    ensures Path(c, s, Next(c, s0, a))
  {
    var steps :| Steps(c, s, steps, s0);
    assert (steps + [a])[..|steps|] == steps;
    assert Steps(c, s, steps + [a], Next(c, s0, a));
  }

  lemma PathRefl(c: Config, s: State)
    requires c.Valid()
    ensures Path(c, s, s)
  {
    assert Steps(c, s, [], s);
  }

  /** Code that follows a path of the step system stays among the reachable states, so everything proved
    * of those holds after it too. */
  lemma {:induction false} PathReachable(c: Config, s: State, steps: seq<Action>, s': State)
    requires c.Valid() && Reachable(c, s) && Steps(c, s, steps, s')
    ensures Reachable(c, s')
    decreases |steps|
  {
    if steps != [] {
      var n := |steps| - 1;
      var s0 :| Steps(c, s, steps[..n], s0) && Enabled(c, s0, steps[n]) && s' == Next(c, s0, steps[n]);
      PathReachable(c, s, steps[..n], s0);
      var before :| Run(c, before, s0);
      assert (before + [steps[n]])[..|before|] == before;
      assert Run(c, before + [steps[n]], s');
    }
  }

  // ---------------------------------------------------------------------------
  // What the end of a tile does to the memory, uninterrupted.
  // ---------------------------------------------------------------------------

  /** Peer p of claim j is in the bookkeeping of its tile and the per-token counters have their size. */
  predicate AtBook(c: Config, s: State, j: nat, p: nat) {
    && c.Valid() && j < |s.claims| && p < |s.claims[j].peers| && c.Tile(s.claims[j].idx) < c.totalTiles
    && s.claims[j].peers[p].Book? && |s.claims[j].peers[p].rows| == c.tileM
    && |s.remaining| == |s.done| == c.numRecv
  }

  lemma RowSlot(c: Config, t: nat, row: nat)
    requires c.Valid() && t < c.totalTiles && row < c.tileM
    ensures SlotOf(c, t, row) < |c.recvToken|
  {
    A.PairBound(t, row, c.totalTiles, c.tileM);
  }

  /** The row has been counted off its token, and the token stamped if it was the last one. */
  function Counted(c: Config, s: State, j: nat, p: nat, row: nat): (s': State)
    requires AtBook(c, s, j, p) && row < c.tileM
    requires SlotOf(c, c.Tile(s.claims[j].idx), row) < |c.recvToken|
    requires c.Active(SlotOf(c, c.Tile(s.claims[j].idx), row))
    ensures AtBook(c, s', j, p)
  {
    var r := c.recvToken[SlotOf(c, c.Tile(s.claims[j].idx), row)];
    var stamp := s.remaining[r] == 1;
    var ph := s.claims[j].peers[p];
    s.(claims := SetPeer(s, j, p, ph.(rows := ph.rows[row := if stamp then Stamped else Decremented])),
       remaining := s.remaining[r := s.remaining[r] - 1],
       done := if stamp then s.done[r := c.seqno] else s.done)
  }

  lemma CountedPath(c: Config, s0: State, s: State, j: nat, p: nat, row: nat)
    requires AtBook(c, s, j, p) && Enabled(c, s, Dec(j, p, row)) && Path(c, s0, s)
    ensures Path(c, s0, Counted(c, s, j, p, row))
  {
    PathExtend(c, s0, s, Dec(j, p, row));
    var s1 := Next(c, s, Dec(j, p, row));
    var ph, ph1 := s.claims[j].peers[p], s1.claims[j].peers[p];
    if ph1.rows[row] == MustStamp {
      assert Enabled(c, s1, Stamp(j, p, row));
      PathExtend(c, s0, s1, Stamp(j, p, row));
      assert ph1.(rows := ph1.rows[row := Stamped]) == ph.(rows := ph.rows[row := Stamped]);
      TwiceSet(s, j, p, ph1, ph.(rows := ph.rows[row := Stamped]));
    }
  }

  lemma TwiceSet(s: State, j: nat, p: nat, ph: Phase, ph': Phase)
    requires j < |s.claims| && p < |s.claims[j].peers|
    ensures SetPeer(s.(claims := SetPeer(s, j, p, ph)), j, p, ph') == SetPeer(s, j, p, ph')
  {
    assert s.claims[j].peers[p := ph][p := ph'] == s.claims[j].peers[p := ph'];
  }

  /** Rows below n that carry a token have been counted. */
  function BookRows(c: Config, s: State, j: nat, p: nat, n: nat): (s': State)
    requires AtBook(c, s, j, p) && n <= c.tileM && |c.recvToken| == c.Slots()
    ensures AtBook(c, s', j, p)
    ensures s'.claims[j].idx == s.claims[j].idx
  {
    if n == 0 then s
    else
      var s1 := BookRows(c, s, j, p, n - 1);
      RowSlot(c, c.Tile(s.claims[j].idx), n - 1);
      if c.Active(SlotOf(c, c.Tile(s.claims[j].idx), n - 1)) then Counted(c, s1, j, p, n - 1) else s1
  }

  /** The peer may still work through its rows: those from n on are untouched, those before are over. */
  ghost predicate Booking(c: Config, s: State, j: nat, p: nat, n: nat)
    requires AtBook(c, s, j, p)
  {
    && CanRun(c, s, j, p) && s.claims[j].peers[p].last && !s.claims[j].peers[p].retired
    && (forall row: nat :: n <= row < c.tileM ==> s.claims[j].peers[p].rows[row] == Waiting)
    && (forall row: nat :: row < n && RowStep(c, s, j, p, row)
                           ==> s.claims[j].peers[p].rows[row] in {Decremented, Stamped})
  }

  lemma CountedBooking(c: Config, s: State, j: nat, p: nat, row: nat)
    requires AtBook(c, s, j, p) && row < c.tileM && Booking(c, s, j, p, row)
    requires SlotOf(c, c.Tile(s.claims[j].idx), row) < |c.recvToken|
    requires c.Active(SlotOf(c, c.Tile(s.claims[j].idx), row))
    ensures Booking(c, Counted(c, s, j, p, row), j, p, row + 1)
  {
    var s' := Counted(c, s, j, p, row);
    forall row': nat | row' < row && RowStep(c, s', j, p, row')
      ensures s'.claims[j].peers[p].rows[row'] in {Decremented, Stamped} {
      assert RowStep(c, s, j, p, row');
    }
  }

  lemma {:induction false} BookRowsPath(c: Config, s0: State, s: State, j: nat, p: nat, n: nat)
    requires AtBook(c, s, j, p) && n <= c.tileM && n <= c.epiThreads && Booking(c, s, j, p, 0) && Path(c, s0, s)
    ensures Path(c, s0, BookRows(c, s, j, p, n)) && Booking(c, BookRows(c, s, j, p, n), j, p, n)
  {
    if n > 0 {
      BookRowsPath(c, s0, s, j, p, n - 1);
      RowSlot(c, c.Tile(s.claims[j].idx), n - 1);
      BookNext(c, s0, BookRows(c, s, j, p, n - 1), j, p, n - 1);
    }
  }

  lemma BookNext(c: Config, s0: State, s: State, j: nat, p: nat, n: nat)
    requires AtBook(c, s, j, p) && n < c.tileM && n < c.epiThreads && Booking(c, s, j, p, n) && Path(c, s0, s)
    requires SlotOf(c, c.Tile(s.claims[j].idx), n) < |c.recvToken|
    ensures var next := if c.Active(SlotOf(c, c.Tile(s.claims[j].idx), n)) then Counted(c, s, j, p, n) else s;
            Path(c, s0, next) && Booking(c, next, j, p, n + 1)
  {
    if c.Active(SlotOf(c, c.Tile(s.claims[j].idx), n)) {
      CountedPath(c, s0, s, j, p, n);
      CountedBooking(c, s, j, p, n);
    }
  }

  function Threads(c: Config): nat {
    if c.epiThreads < c.tileM then c.epiThreads else c.tileM
  }

  function Gated(c: Config, s: State, j: nat, p: nat): (s': State)
    requires c.Valid() && j < |s.claims| && p < |s.claims[j].peers| && c.Tile(s.claims[j].idx) < c.totalTiles
    requires |s.stripesDone| == c.totalTiles && |s.remaining| == |s.done| == c.numRecv
    ensures AtBook(c, s', j, p)
  {
    var t := c.Tile(s.claims[j].idx);
    s.(claims := SetPeer(s, j, p, Book(s.stripesDone[t] == c.stripes - 1, seq(c.tileM, _ => Waiting), false)),
       stripesDone := s.stripesDone[t := s.stripesDone[t] + 1])
  }

  function EndOfTile(c: Config, s: State, j: nat, p: nat): State
    requires c.Valid() && j < |s.claims| && p < |s.claims[j].peers| && c.Tile(s.claims[j].idx) < c.totalTiles
    requires |s.stripesDone| == c.totalTiles && |s.remaining| == |s.done| == c.numRecv
  {
    var s1 := Gated(c, s, j, p);
    var s2 := if s1.claims[j].peers[p].last then BookRows(c, s1, j, p, Threads(c)) else s1;
    s2.(claims := SetPeer(s2, j, p, s2.claims[j].peers[p].(retired := true)))
  }

  /** The uninterrupted end of a tile is a path of the step system: one gate, the rows in order, the end. */
  lemma EndPath(c: Config, s: State, j: nat, p: nat)
    requires c.Valid() && Enabled(c, s, Gate(j, p)) && c.Tile(s.claims[j].idx) < c.totalTiles
    requires |s.stripesDone| == c.totalTiles && |s.remaining| == |s.done| == c.numRecv
    ensures Path(c, s, EndOfTile(c, s, j, p))
  {
    PathRefl(c, s);
    PathExtend(c, s, s, Gate(j, p));
    var s1 := Gated(c, s, j, p);
    assert s1 == Next(c, s, Gate(j, p));
    var n := Threads(c);
    var s2 := if s1.claims[j].peers[p].last then BookRows(c, s1, j, p, n) else s1;
    if s1.claims[j].peers[p].last {
      BookRowsPath(c, s, s1, j, p, n);
    }
    assert Enabled(c, s2, Retire(j, p));
    PathExtend(c, s, s2, Retire(j, p));
  }

  class Device {
    const c: Config
    var consumerHead: nat
    var startedFlag: nat
    var arrivalCount: seq<nat>
    var claims: seq<Claim>           // what the warps of the clusters hold, claim by claim
    var o: map<(nat, nat), real>
    var tileNStripesDone: seq<nat>
    var kLocalRemaining: seq<int>
    var yDonePerToken: seq<int>

    function Snapshot(): State
      reads this
    {
      State(consumerHead, startedFlag, arrivalCount, claims, o, tileNStripesDone, kLocalRemaining, yDonePerToken)
    }

    /** The counters as the host wrapper and dispatch leave them before the launch. */
    constructor (c: Config, remaining: seq<int>)
      requires c.Valid()
      requires |remaining| == c.numRecv && forall r: nat :: r < c.numRecv ==> remaining[r] == KLocal(c, r)
      ensures this.c == c && Snapshot() == Init(c)
    {
      this.c := c;
      consumerHead, startedFlag := 0, 0;
      arrivalCount := seq(c.totalTiles, _ => 0);
      claims := [];
      o := map r, col | 0 <= r < c.numRecv && 0 <= col < c.Hidden() :: (r, col) := 0.0;
      tileNStripesDone := seq(c.totalTiles, _ => 0);
      kLocalRemaining := remaining;
      yDonePerToken := seq(c.numRecv, _ => 0);
    }

    /** The scheduler warp of a cluster takes the next linear index; the taker of index 0 raises the flag. */
    method FetchNextWorkIdx(cluster: nat) returns (linearIdx: nat)
      requires c.Valid() && Enabled(c, Snapshot(), ClaimNext(cluster))
      modifies this
      ensures linearIdx == old(consumerHead)
      ensures Snapshot() == Next(c, old(Snapshot()), ClaimNext(cluster))
    {
      linearIdx := consumerHead;
      consumerHead := consumerHead + 1;
      if linearIdx == 0 {
        startedFlag := startedFlag + 1;
      }
      claims := claims + [Claim(cluster, linearIdx, linearIdx >= c.TotalWork(), InitialPeers(c, linearIdx))];
    }

    /** One turn of the ready spin: the claim is published when the count equals the target. */
    method SpinOnce(j: nat) returns (ready: bool)
      requires c.Valid() && j < |claims| && !claims[j].published && claims[j].idx < c.TotalWork()
      requires c.Tile(claims[j].idx) < |arrivalCount| == c.totalTiles
      requires forall p: nat :: p < c.clusterN ==> Count(Unretired(Snapshot(), j, p), j) < c.depth
      modifies this`claims
      ensures ready == (old(arrivalCount)[c.Tile(old(claims)[j].idx)] == c.target[c.Tile(old(claims)[j].idx)])
      ensures if ready then Enabled(c, old(Snapshot()), Publish(j)) && Snapshot() == Next(c, old(Snapshot()), Publish(j))
              else Snapshot() == old(Snapshot())
    {
      var t := c.Tile(claims[j].idx);
      ready := arrivalCount[t] == c.target[t];
      if ready {
        claims := claims[j := claims[j].(published := true)];
      }
    }

    /** One predicated reduction of the scatter epilogue. */
    method ReduceAdd(j: nat, p: nat, row: nat, col: nat)
      requires c.Valid() && Enabled(c, Snapshot(), Add(j, p, row, col))
      modifies this
      ensures Snapshot() == Next(c, old(Snapshot()), Add(j, p, row, col))
    {
      var slot := SlotOf(c, c.Tile(claims[j].idx), row);
      var r := c.recvToken[slot];
      o := o[(r, col) := o[(r, col)] + c.term(slot, col)];
      var ph := Scatter(claims[j].peers[p].issued + {(row, col)});
      claims := claims[j := claims[j].(peers := claims[j].peers[p := ph])];
    }

    /** The end of a tile for one CTA: the gate, and for the last stripe the rows and the stamps. */
    method End(j: nat, p: nat)
      requires c.Valid() && Enabled(c, Snapshot(), Gate(j, p)) && c.Tile(claims[j].idx) < c.totalTiles
      requires |tileNStripesDone| == c.totalTiles && |kLocalRemaining| == |yDonePerToken| == c.numRecv
      modifies this
      ensures Snapshot() == EndOfTile(c, old(Snapshot()), j, p)
      ensures Path(c, old(Snapshot()), Snapshot())
    {
      EndPath(c, Snapshot(), j, p);
      var t := c.Tile(claims[j].idx);
      var prevStripes := tileNStripesDone[t];
      tileNStripesDone := tileNStripesDone[t := prevStripes + 1];
      var isLast := prevStripes == c.stripes - 1;
      claims := claims[j := claims[j].(peers := claims[j].peers[p := Book(isLast, seq(c.tileM, _ => Waiting), false)])];
      ghost var s1 := Snapshot();
      assert s1 == Gated(c, old(Snapshot()), j, p);
      if isLast {
        BookTile(j, p, t);
      }
      claims := claims[j := claims[j].(peers := claims[j].peers[p := claims[j].peers[p].(retired := true)])];
    }

    /** The epilogue threads of the last stripe, one row each. */
    method BookTile(j: nat, p: nat, t: nat)
      requires AtBook(c, Snapshot(), j, p) && t == c.Tile(claims[j].idx)
      modifies this
      ensures Snapshot() == BookRows(c, old(Snapshot()), j, p, Threads(c))
    {
      ghost var s1 := Snapshot();
      var tidx := 0;
      while tidx < c.tileM && tidx < c.epiThreads
        invariant tidx <= Threads(c)
        invariant Snapshot() == BookRows(c, s1, j, p, tidx)
      {
        RowSlot(c, t, tidx);
        var r := c.recvToken[t * c.tileM + tidx];
        if r >= 0 && r < c.numRecv {
          CountRow(j, p, tidx);
        }
        tidx := tidx + 1;
      }
    }

    /** The thread of one row: the decrement, and the stamp when the counter was 1. */
    method CountRow(j: nat, p: nat, tidx: nat)
      requires AtBook(c, Snapshot(), j, p) && tidx < c.tileM
      requires SlotOf(c, c.Tile(claims[j].idx), tidx) < |c.recvToken|
      requires c.Active(SlotOf(c, c.Tile(claims[j].idx), tidx))
      modifies this
      ensures Snapshot() == Counted(c, old(Snapshot()), j, p, tidx)
    {
      var r := c.recvToken[SlotOf(c, c.Tile(claims[j].idx), tidx)];
      var prev := kLocalRemaining[r];
      kLocalRemaining := kLocalRemaining[r := prev - 1];
      if prev == 1 {
        yDonePerToken := yDonePerToken[r := c.seqno];
      }
      var ph := claims[j].peers[p];
      claims := claims[j := claims[j].(peers := claims[j].peers[p :=
        ph.(rows := ph.rows[tidx := if prev == 1 then Stamped else Decremented])])];
    }
  }
}
