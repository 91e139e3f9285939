/** Kernel Y as a step system over shared device memory.
  *
  * Persistent clusters claim linear work indices from one counter, wait for the tile of the claim
  * to arrive, and every CTA of the cluster then scatters one N-stripe of that tile into `o`, joins
  * the per-tile stripe gate, and, when it is the last stripe, counts its rows off the per-token
  * counters and stamps the tokens that reach zero. Every atomic of every CTA is a step of its own,
  * so a run is an arbitrary interleaving; atomics are sequentially consistent. */
module KernelY {
  import opened Sums

  datatype Config = Config(
    tileM: nat,
    totalTiles: nat,
    tileN: nat,
    stripes: nat,          // the num_pid_n the stripe gate compares with
    clusterN: nat,
    running: nat,          // stripe indices per tile whose CTA runs the epilogue, phantom peers included
    epiThreads: nat,       // threads of the epilogue, one row each in the bookkeeping
    clusters: nat,
    depth: nat,            // how many tiles a scheduler warp may publish ahead of its CTAs
    recvToken: seq<int>,   // pool slot -> receive token, -1 = padding
    numRecv: nat,
    target: seq<nat>,      // arrivals that complete a tile
    seqno: int,            // combine_seq
    term: (nat, nat) -> real  // weighted accumulator of (slot, column)
  ) {
    /** Cluster claims per tile: the scheduler's own num_pid_n. */
    function ClaimsPerTile(): nat
      requires clusterN > 0
    {
      (stripes + clusterN - 1) / clusterN
    }

    function TotalWork(): nat
      requires clusterN > 0
    {
      totalTiles * ClaimsPerTile()
    }

    function Slots(): nat { totalTiles * tileM }

    function Hidden(): nat { stripes * tileN }

    predicate Valid() {
      && tileM > 0 && tileN > 0 && stripes > 0 && clusterN > 0 && depth > 0
      && stripes <= running <= ClaimsPerTile() * clusterN
      && |recvToken| == Slots()
      && |target| == totalTiles
      && seqno > 0
    }

    /** The slot holds a token row; padding rows and out-of-range ids are predicated off. */
    predicate Active(slot: nat)
      requires slot < |recvToken|
    {
      0 <= recvToken[slot] < numRecv
    }

    function Tile(idx: nat): nat
      requires clusterN > 0 && stripes > 0
    {
      idx / ClaimsPerTile()
    }

    function Stripe(idx: nat, p: nat): nat
      requires clusterN > 0 && stripes > 0
    {
      idx % ClaimsPerTile() * clusterN + p
    }

    /** The claim that covers stripe n of tile t. */
    function ClaimOf(t: nat, n: nat): nat
      requires clusterN > 0
    {
      t * ClaimsPerTile() + n / clusterN
    }

    predicate Owns(slot: nat, r: nat)
      requires slot < |recvToken|
    {
      recvToken[slot] == r
    }
  }

  // A row of the last stripe's tile: its thread decrements the token's counter, and the thread that
  // brings it to zero still has to store the stamp.
  datatype RowPc = Waiting | Decremented | MustStamp | Stamped

  datatype Phase =
    | Scatter(issued: set<(nat, nat)>)  // (row, column) reductions issued so far
    | Book(last: bool, rows: seq<RowPc>, retired: bool)

  datatype Claim = Claim(cluster: nat, idx: nat, published: bool, peers: seq<Phase>)

  datatype State = State(
    head: nat,
    started: nat,
    arrival: seq<nat>,
    claims: seq<Claim>,
    o: map<(nat, nat), real>,
    stripesDone: seq<nat>,
    remaining: seq<int>,
    done: seq<int>
  )

  datatype Action =
    | Arrive(tile: nat, delta: nat)
    | ClaimNext(cluster: nat)
    | Publish(claim: nat)
    | Add(claim: nat, peer: nat, row: nat, col: nat)
    | Gate(claim: nat, peer: nat)
    | Dec(claim: nat, peer: nat, row: nat)
    | Stamp(claim: nat, peer: nat, row: nat)
    | Retire(claim: nat, peer: nat)

  const Skip: Phase := Book(false, [], true)

  function InitialPeers(c: Config, idx: nat): (ps: seq<Phase>)
    requires c.Valid()
    ensures |ps| == c.clusterN
  {
    seq(c.clusterN, p requires 0 <= p < c.clusterN =>
      if idx < c.TotalWork() && c.Stripe(idx, p) < c.running then Scatter({}) else Skip)
  }

  /** Column col of row `row` belongs to stripe n of tile t and its row is not padding. */
  predicate InJob(c: Config, t: nat, n: nat, row: nat, col: nat)
    requires c.Valid()
  {
    && t < c.totalTiles && row < c.tileM && n < c.stripes
    && n * c.tileN <= col < (n + 1) * c.tileN
    && SlotOf(c, t, row) < |c.recvToken| && c.Active(SlotOf(c, t, row))
  }

  function SlotOf(c: Config, t: nat, row: nat): nat {
    t * c.tileM + row
  }

  ghost function SlotsOwned(c: Config, r: nat): nat -> bool {
    (slot: nat) => slot < |c.recvToken| && c.Owns(slot, r)
  }

  ghost function KLocal(c: Config, r: nat): nat {
    Count(SlotsOwned(c, r), c.Slots())
  }

  ghost function Init(c: Config): State
    requires c.Valid()
  {
    State(0, 0, seq(c.totalTiles, _ => 0), [],
          map r, col | 0 <= r < c.numRecv && 0 <= col < c.Hidden() :: (r, col) := 0.0,
          seq(c.totalTiles, _ => 0),
          seq(c.numRecv, r requires 0 <= r < c.numRecv => KLocal(c, r)),
          seq(c.numRecv, _ => 0))
  }

  predicate Retired(ph: Phase) { ph.Book? && ph.retired }

  /** CTAs work through the published claims of their cluster in order. */
  predicate CanRun(c: Config, s: State, j: nat, p: nat)
  {
    && j < |s.claims| && p < |s.claims[j].peers| && s.claims[j].published
    && forall i :: 0 <= i < j && s.claims[i].cluster == s.claims[j].cluster && p < |s.claims[i].peers|
                   ==> Retired(s.claims[i].peers[p])
  }

  ghost function Unretired(s: State, j: nat, p: nat): nat -> bool
    requires j < |s.claims|
  {
    (i: nat) => i < |s.claims| && s.claims[i].cluster == s.claims[j].cluster
                && p < |s.claims[i].peers| && !Retired(s.claims[i].peers[p])
  }

  ghost predicate Enabled(c: Config, s: State, a: Action)
    requires c.Valid()
  {
    match a
    case Arrive(t, d) =>
      t < c.totalTiles && t < |s.arrival| && d > 0 && s.arrival[t] + d <= c.target[t]
    case ClaimNext(k) =>
      k < c.clusters && forall j :: 0 <= j < |s.claims| && s.claims[j].cluster == k
                                    ==> s.claims[j].published && s.claims[j].idx < c.TotalWork()
    case Publish(j) =>
      && j < |s.claims| && !s.claims[j].published && s.claims[j].idx < c.TotalWork()
      && c.Tile(s.claims[j].idx) < |s.arrival| && c.Tile(s.claims[j].idx) < |c.target|
      && s.arrival[c.Tile(s.claims[j].idx)] == c.target[c.Tile(s.claims[j].idx)]
      && forall p: nat :: p < c.clusterN ==> Count(Unretired(s, j, p), j) < c.depth
    case Add(j, p, row, col) =>
      && CanRun(c, s, j, p) && s.claims[j].peers[p].Scatter?
      && InJob(c, c.Tile(s.claims[j].idx), c.Stripe(s.claims[j].idx, p), row, col)
      && (row, col) !in s.claims[j].peers[p].issued
      && (c.recvToken[SlotOf(c, c.Tile(s.claims[j].idx), row)], col) in s.o
    case Gate(j, p) =>
      && CanRun(c, s, j, p) && s.claims[j].peers[p].Scatter?
      && c.Tile(s.claims[j].idx) < |s.stripesDone|
      && forall row: nat, col: nat ::
           InJob(c, c.Tile(s.claims[j].idx), c.Stripe(s.claims[j].idx, p), row, col)
           ==> (row, col) in s.claims[j].peers[p].issued
    case Dec(j, p, row) =>
      && RowStep(c, s, j, p, row)
      && s.claims[j].peers[p].rows[row] == Waiting
      && c.recvToken[SlotOf(c, c.Tile(s.claims[j].idx), row)] < |s.remaining|
    case Stamp(j, p, row) =>
      && RowStep(c, s, j, p, row)
      && s.claims[j].peers[p].rows[row] == MustStamp
      && c.recvToken[SlotOf(c, c.Tile(s.claims[j].idx), row)] < |s.done|
    case Retire(j, p) =>
      && CanRun(c, s, j, p) && s.claims[j].peers[p].Book? && !s.claims[j].peers[p].retired
      && forall row: nat :: RowStep(c, s, j, p, row) ==> s.claims[j].peers[p].rows[row] in {Decremented, Stamped}
  }

  /** Row `row` has a thread of its own in the bookkeeping of a last stripe. */
  predicate RowStep(c: Config, s: State, j: nat, p: nat, row: nat)
    requires c.Valid()
  {
    && CanRun(c, s, j, p) && s.claims[j].peers[p].Book? && s.claims[j].peers[p].last
    && row < c.tileM && row < c.epiThreads && row < |s.claims[j].peers[p].rows|
    && SlotOf(c, c.Tile(s.claims[j].idx), row) < |c.recvToken|
    && c.Active(SlotOf(c, c.Tile(s.claims[j].idx), row))
  }

  function SetPeer(s: State, j: nat, p: nat, ph: Phase): seq<Claim>
    requires j < |s.claims| && p < |s.claims[j].peers|
  {
    s.claims[j := s.claims[j].(peers := s.claims[j].peers[p := ph])]
  }

  ghost function Next(c: Config, s: State, a: Action): State
    requires c.Valid() && Enabled(c, s, a)
  {
    match a
    case Arrive(t, d) =>
      s.(arrival := s.arrival[t := s.arrival[t] + d])
    case ClaimNext(k) =>
      s.(head := s.head + 1,
         started := if s.head == 0 then s.started + 1 else s.started,
         claims := s.claims + [Claim(k, s.head, s.head >= c.TotalWork(), InitialPeers(c, s.head))])
    case Publish(j) =>
      s.(claims := s.claims[j := s.claims[j].(published := true)])
    case Add(j, p, row, col) =>
      var slot := SlotOf(c, c.Tile(s.claims[j].idx), row);
      var r := c.recvToken[slot];
      s.(claims := SetPeer(s, j, p, Scatter(s.claims[j].peers[p].issued + {(row, col)})),
         o := s.o[(r, col) := s.o[(r, col)] + c.term(slot, col)])
    case Gate(j, p) =>
      var t := c.Tile(s.claims[j].idx);
      var last := s.stripesDone[t] == c.stripes - 1;
      s.(claims := SetPeer(s, j, p, Book(last, seq(c.tileM, _ => Waiting), false)),
         stripesDone := s.stripesDone[t := s.stripesDone[t] + 1])
    case Dec(j, p, row) =>
      var r := c.recvToken[SlotOf(c, c.Tile(s.claims[j].idx), row)];
      var ph := s.claims[j].peers[p];
      var pc := if s.remaining[r] == 1 then MustStamp else Decremented;
      s.(claims := SetPeer(s, j, p, ph.(rows := ph.rows[row := pc])),
         remaining := s.remaining[r := s.remaining[r] - 1])
    case Stamp(j, p, row) =>
      var r := c.recvToken[SlotOf(c, c.Tile(s.claims[j].idx), row)];
      var ph := s.claims[j].peers[p];
      s.(claims := SetPeer(s, j, p, ph.(rows := ph.rows[row := Stamped])),
         done := s.done[r := c.seqno])
    case Retire(j, p) =>
      s.(claims := SetPeer(s, j, p, s.claims[j].peers[p].(retired := true)))
  }

  /** s is the outcome of performing `steps` one after the other from the initial state. */
  ghost predicate Run(c: Config, steps: seq<Action>, s: State)
    requires c.Valid()
    decreases |steps|
  {
    if steps == [] then s == Init(c)
    else
      var n := |steps| - 1;
      exists s0 :: Run(c, steps[..n], s0) && Enabled(c, s0, steps[n]) && s == Next(c, s0, steps[n])
  }

  ghost predicate Reachable(c: Config, s: State)
    requires c.Valid()
  {
    exists steps :: Run(c, steps, s)
  }
}
