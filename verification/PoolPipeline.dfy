/** The meaning of the pool layout. Every rank's kernels work slot by slot, each with the expert of the slot's
  * tile, and scatter the weighted rows into the rank's receive tokens; combine adds a token's rows from every
  * rank that received it. The outcome is the token-major mixture, and so is that of the expert-by-expert
  * reference. */
module PoolPipeline {
  import opened Arith
  import opened Sums
  import opened DispatchPool
  import opened DispatchDelivery
  import D = ExpertDropout
  import KernelY
  import KernelYSafety
  import PoolLayout
  import TileScheduler
  import Words

  datatype Option<T> = Some(value: T) | None

  /** Expert dropout of a forward pass: its probability and the seed that every rank drew. */
  datatype Dropout = Dropout(p: real, seeds: nat -> int)

  /** All ranks together. An id below zero is a dropped (token, k); the others name a global expert. */
  datatype World = World(
    ranks: nat,
    localExperts: nat,
    tokens: nat,
    topk: nat,
    topkIdx: (nat, nat) -> int,
    weight: (nat, nat) -> real,
    rows: seq<seq<real>>,            // x, a row per token
    hidden: nat,
    inner: nat,
    w1: (nat, nat, nat) -> real,     // (expert, gate or up column, h): gates at even columns, ups at odd ones
    w2: (nat, nat, nat) -> real,     // (expert, output column, i)
    silu: real -> real,
    dropout: Option<Dropout>,
    mask: (nat, nat) -> nat -> real, // the reference's dropout factors: (rank, pool row), column
    slotOf: (nat, nat) -> nat        // recv_token_to_slots of the rank that serves the pair
  ) {
    ghost predicate Valid() {
      && localExperts > 0 && |rows| == tokens && inner <= Words.W
      && forall n: nat, k: nat :: n < tokens && k < topk ==> topkIdx(n, k) < ranks * localExperts
    }

    /** local_topk: the rank's own expert for the pair, -1 if there is none. */
    function LocalTopk(rank: nat, n: nat, k: nat): int {
      var e := topkIdx(n, k) - rank * localExperts;
      if topkIdx(n, k) >= 0 && 0 <= e < localExperts then e else -1
    }

    function RowTerm(row: seq<real>, e: nat, j: nat): nat -> real {
      (h: nat) => if h < |row| then row[h] * w1(e, j, h) else 0.0
    }

    /** Column j of row @ W1[e].T. */
    function Pre(row: seq<real>, e: nat, j: nat): real { Sum(RowTerm(row, e, j), hidden) }

    /** The gated activation of a row in expert e, with a dropout mask over its columns. */
    function Act(row: seq<real>, e: nat, factor: nat -> real): nat -> real {
      (i: nat) => silu(Pre(row, e, 2 * i)) * Pre(row, e, 2 * i + 1) * factor(i)
    }

    function Through(e: nat, col: nat, act: nat -> real): nat -> real {
      (i: nat) => w2(e, col, i) * act(i)
    }

    /** Column col of act @ W2[e].T. */
    function Out(e: nat, col: nat, act: nat -> real): real { Sum(Through(e, col, act), inner) }

    /** Column col of expert e on a row. */
    function Expert(row: seq<real>, e: nat, factor: nat -> real, col: nat): real { Out(e, col, Act(row, e, factor)) }

    function Row(n: nat): seq<real> { if n < |rows| then rows[n] else [] }

    function Term(col: nat, n: nat, k: nat): real
      requires topkIdx(n, k) >= 0 && localExperts > 0
    {
      weight(n, k) * Expert(Row(n), topkIdx(n, k), mask(topkIdx(n, k) / localExperts, slotOf(n, k)), col)
    }
  }

  // ---------------------------------------------------------------------------
  // The token-major mixture.
  // ---------------------------------------------------------------------------

  ghost function Kept(w: World, n: nat): nat -> bool {
    (k: nat) => w.topkIdx(n, k) >= 0
  }

  ghost function TermAt(w: World, col: nat, n: nat): nat -> real {
    (k: nat) => if w.topkIdx(n, k) >= 0 && w.localExperts > 0 then w.Term(col, n, k) else 0.0
  }

  /** Column col of token n: the weighted sum over its k. */
  ghost function TokenMajor(w: World, col: nat, n: nat): real {
    Sum(Masked(Kept(w, n), TermAt(w, col, n)), w.topk)
  }

  ghost function OnRank(w: World, rank: nat, n: nat): nat -> bool {
    (k: nat) => w.LocalTopk(rank, n, k) >= 0
  }

  /** A rank's part of it. */
  ghost function RankPart(w: World, col: nat, rank: nat, n: nat): real {
    Sum(Masked(OnRank(w, rank, n), TermAt(w, col, n)), w.topk)
  }

  ghost function RankParts(w: World, col: nat, n: nat): nat -> real {
    (rank: nat) => RankPart(w, col, rank, n)
  }

  /** The pairs served by the ranks below r. */
  ghost function BelowRank(w: World, r: nat, n: nat): nat -> bool {
    (k: nat) => 0 <= w.topkIdx(n, k) < r * w.localExperts
  }

  /** Every kept pair is served by exactly one rank, so the ranks' parts add up to the mixture. */
  lemma {:induction false} PartsBelow(w: World, col: nat, n: nat, r: nat)
    requires w.localExperts > 0
    ensures Sum(RankParts(w, col, n), r) == Sum(Masked(BelowRank(w, r, n), TermAt(w, col, n)), w.topk)
  {
    if r == 0 {
      SumZero(Masked(BelowRank(w, r, n), TermAt(w, col, n)), w.topk);
    } else {
      PartsBelow(w, col, n, r - 1);
      assert r * w.localExperts == (r - 1) * w.localExperts + w.localExperts;
      MulNonNeg(r - 1, w.localExperts);
      SumSplit(BelowRank(w, r - 1, n), OnRank(w, r - 1, n), BelowRank(w, r, n), TermAt(w, col, n), w.topk);
    }
  }

  lemma PartsAddUp(w: World, col: nat, n: nat)
    requires w.Valid() && n < w.tokens
    ensures Sum(RankParts(w, col, n), w.ranks) == TokenMajor(w, col, n)
  {
    PartsBelow(w, col, n, w.ranks);
    SumEq(Masked(BelowRank(w, w.ranks, n), TermAt(w, col, n)), Masked(Kept(w, n), TermAt(w, col, n)), w.topk);
  }

  // ---------------------------------------------------------------------------
  // The pool-major rank.
  // ---------------------------------------------------------------------------

  /** What one rank received and what dispatch and its kernels made of it. Everything below the payload is
    * indexed by slots. */
  datatype Rank = Rank(
    routing: Routing,
    src: seq<nat>,                // source token of every received token
    payload: Payload,
    pool: seq<seq<real>>,
    poolWeight: seq<real>,
    kSlot: seq<int>,
    toSlots: seq<seq<int>>,       // recv_token_to_slots
    prm: TileScheduler.Params,    // the kernels' tile scheduler
    mask: nat -> nat -> real,     // kernel A's dropout factors: pool row, column
    postact: nat -> nat -> real,  // kernel A's output: slot, column
    y: KernelY.Config             // kernel Y's launch
  )

  /** The contract of the transport: a rank receives each token with a local pair once, with its row, its
    * weights and its local ids. */
  ghost predicate ReceivesFor(w: World, rank: nat, x: Rank) {
    && x.routing.Valid() && x.routing.topk == w.topk && x.routing.numExperts == w.localExperts
    && |x.src| == |x.routing.tokens| && x.payload.Of(x.routing)
    && (forall g: nat :: g < |x.src| ==> x.src[g] < w.tokens && x.payload.rows[g] == w.Row(x.src[g]))
    && (forall g: nat, g': nat :: g < |x.src| && g' < |x.src| && x.src[g] == x.src[g'] ==> g == g')
    && (forall g: nat, k: nat :: g < |x.src| && k < w.topk ==>
          x.routing.tokens[g][k] == w.LocalTopk(rank, x.src[g], k) && x.payload.Weight(g, k) == w.weight(x.src[g], k))
    && (forall n: nat, k: nat :: n < w.tokens && k < w.topk && w.LocalTopk(rank, n, k) >= 0 ==> n in x.src)
  }

  /** The outputs of dispatch as DispatchDelivery.DeliverAll and PoolLayout.BlockOffsets leave them, within the
    * 32-bit slots of the kernels, and handed to the kernels. */
  ghost predicate Dispatched(x: Rank)
    requires x.routing.Valid()
  {
    && x.y.Valid() && x.y.tileM == x.routing.tileM && x.y.totalTiles == x.routing.Pool().TotalTiles()
    && x.y.numRecv == |x.routing.tokens| && x.y.Slots() <= Words.W
    && Delivered(x.routing, x.y.recvToken, x.kSlot)
    && Backed(x.routing, x.payload, x.pool, x.poolWeight, x.toSlots)
    && x.prm.Valid() && PoolLayout.OffsetsTo(x.routing.Pool(), x.prm.blockOffset, x.routing.numExperts + 1)
  }

  /** The reference looks the dropout rows up in the dispatched slots. */
  ghost predicate LooksUp(w: World, x: Rank)
    requires x.routing.Valid() && |x.src| == |x.routing.tokens|
  {
    forall g: nat, k: nat :: x.routing.Pair(g, k) && x.routing.recvId[g] < |x.toSlots| && k < |x.toSlots[x.routing.recvId[g]]| ==>
      w.slotOf(x.src[g], k) == x.toSlots[x.routing.recvId[g]][k]
  }

  /** Both sides draw their factors from the rank's seed: the reference by the host mirror, the kernel by the
    * device hash. */
  ghost predicate DropsAs(w: World, rank: nat, x: Rank) {
    match w.dropout
    case None => forall slot: nat, i: nat :: w.mask(rank, slot)(i) == x.mask(slot)(i) == 1.0
    case Some(d) =>
      && 0.0 <= d.p < 1.0
      && (forall slot: nat, i: nat :: w.mask(rank, slot)(i) == D.RefMask(D.MURMUR, d.seeds(rank), d.p)(slot, i))
      && (forall slot: nat, i: nat :: x.mask(slot)(i) == D.DrawFor(D.MURMUR, d.seeds(rank), d.p).Mask()(slot, i))
  }

  /** Kernel A, slot by slot: the pool's row through the gate-up weights of the expert whose block range the
    * slot's tile is in, gated and masked with the slot's own row number. */
  ghost predicate ComputesA(w: World, rank: nat, x: Rank)
    requires w.Valid() && x.y.tileM > 0
  {
    forall slot: nat, e: nat, i: nat :: slot < |x.pool| && i < w.inner && x.prm.Owner(e, slot / x.y.tileM) ==>
      x.postact(slot)(i) == w.Act(x.pool[slot], rank * w.localExperts + e, x.mask(slot))(i)
  }

  /** Kernel Y, slot by slot: the activation through W2 of the tile's expert, times the slot's weight. */
  ghost predicate ComputesY(w: World, rank: nat, x: Rank)
    requires w.Valid() && x.y.tileM > 0
  {
    forall slot: nat, e: nat, col: nat :: slot < |x.poolWeight| && x.prm.Owner(e, slot / x.y.tileM) ==>
      x.y.term(slot, col) == w.Out(rank * w.localExperts + e, col, x.postact(slot)) * x.poolWeight[slot]
  }

  /** A rank's pool, made by dispatch and worked on by the kernels. */
  ghost predicate ComputesFor(w: World, rank: nat, x: Rank)
    requires w.Valid() && x.routing.Valid() && |x.src| == |x.routing.tokens|
  {
    Dispatched(x) && LooksUp(w, x) && DropsAs(w, rank, x) && ComputesA(w, rank, x) && ComputesY(w, rank, x)
  }

  // ---------------------------------------------------------------------------
  // The slot of a pair computes the pair.
  // ---------------------------------------------------------------------------

  /** The scheduler's block offsets put an expert's row into the expert's tiles. */
  lemma RowOwner(l: PoolLayout.Layout, prm: TileScheduler.Params, e: nat, slot: nat, tileM: nat)
    requires l.Valid() && e < |l.rows| && l.RealOf(e, slot) && 0 < tileM == l.tileM
    requires PoolLayout.OffsetsTo(l, prm.blockOffset, |l.rows| + 1)
    ensures prm.Owner(e, slot / tileM)
  {
    PoolLayout.TileOfReal(l, e, slot);
    OwnerByOffsets(l, prm, e, slot / tileM);
  }

  lemma OwnerByOffsets(l: PoolLayout.Layout, prm: TileScheduler.Params, e: nat, t: nat)
    requires l.Valid() && PoolLayout.OffsetsTo(l, prm.blockOffset, |l.rows| + 1) && l.InExpert(e, t)
    ensures prm.Owner(e, t)
  {
  }

  /** And it holds the pair's row and weight, and is the slot the reference looks up. */
  lemma PairBacked(w: World, rank: nat, x: Rank, g: nat, k: nat)
    requires w.Valid() && ReceivesFor(w, rank, x) && ComputesFor(w, rank, x) && x.routing.Pair(g, k)
    ensures var slot := x.routing.Slot(g, k);
            && slot < |x.pool| == |x.poolWeight| && x.pool[slot] == w.Row(x.src[g])
            && x.poolWeight[slot] == w.weight(x.src[g], k) && w.slotOf(x.src[g], k) == slot
  {
    assert (g, k) in AllPairs(x.routing);
    assert SlotRow(x.routing, g, x.toSlots[x.routing.recvId[g]]);
  }

  lemma PairExpert(w: World, rank: nat, x: Rank, g: nat, k: nat)
    requires w.Valid() && ReceivesFor(w, rank, x) && x.routing.Pair(g, k)
    ensures w.topkIdx(x.src[g], k) == rank * w.localExperts + x.routing.tokens[g][k]
    ensures w.topkIdx(x.src[g], k) / w.localExperts == rank
  {
    DivUnique(w.topkIdx(x.src[g], k), rank, x.routing.tokens[g][k], w.localExperts);
  }

  ghost predicate SameMask(w: World, rank: nat, x: Rank, slot: nat) {
    forall i: nat :: i < w.inner ==> x.mask(slot)(i) == w.mask(rank, slot)(i)
  }

  /** Mirror and device agree on every factor of a pool row. */
  lemma MasksAgree(w: World, rank: nat, x: Rank, slot: nat)
    requires DropsAs(w, rank, x) && slot < Words.W && w.inner <= Words.W
    ensures SameMask(w, rank, x, slot)
  {
    forall i: nat | i < w.inner ensures x.mask(slot)(i) == w.mask(rank, slot)(i) {
      if w.dropout.Some? {
        D.MurmurValid();
        D.MirrorIsMask(D.MURMUR, w.dropout.value.seeds(rank), w.dropout.value.p, slot, i);
      }
    }
  }

  /** Activations that kernel A computed with an equal mask give the expert's output. */
  lemma OutIsExpert(w: World, e: nat, row: seq<real>, mask: nat -> real, mask': nat -> real, act: nat -> real, col: nat)
    requires forall i: nat :: i < w.inner ==> act(i) == w.Act(row, e, mask)(i) && mask(i) == mask'(i)
    ensures w.Out(e, col, act) == w.Expert(row, e, mask', col)
  {
    forall i: nat | i < w.inner ensures w.Act(row, e, mask)(i) == w.Act(row, e, mask')(i) {
      SameProduct(w.silu(w.Pre(row, e, 2 * i)) * w.Pre(row, e, 2 * i + 1), mask(i), mask'(i));
    }
    ThroughSame(w, e, col, act, w.Act(row, e, mask'));
  }

  lemma SameProduct(a: real, b: real, c: real)
    requires b == c
    ensures a * b == a * c
  {
  }

  lemma ThroughSame(w: World, e: nat, col: nat, act: nat -> real, act': nat -> real)
    requires forall i: nat :: i < w.inner ==> act(i) == act'(i)
    ensures w.Out(e, col, act) == w.Out(e, col, act')
  {
    var f, f' := w.Through(e, col, act), w.Through(e, col, act');
    forall i: nat | i < w.inner ensures f(i) == f'(i) {
      SameProduct(w.w2(e, col, i), act(i), act'(i));
    }
    SumEq(f, f', w.inner);
  }

  /** Kernels A and Y on one slot of a tile of expert e. */
  lemma SlotAccumulates(w: World, rank: nat, x: Rank, slot: nat, e: nat, expert: nat, col: nat)
    requires w.Valid() && x.y.tileM > 0 && ComputesA(w, rank, x) && ComputesY(w, rank, x)
    requires slot < |x.pool| && slot < |x.poolWeight| && slot < Words.W && x.prm.Owner(e, slot / x.y.tileM)
    requires expert == rank * w.localExperts + e && SameMask(w, rank, x, slot)
    ensures x.y.term(slot, col) == w.Out(expert, col, x.postact(slot)) * x.poolWeight[slot]
    ensures w.Out(expert, col, x.postact(slot)) == w.Expert(x.pool[slot], expert, w.mask(rank, slot), col)
  {
    OutIsExpert(w, expert, x.pool[slot], x.mask(slot), w.mask(rank, slot), x.postact(slot), col);
  }

  /** Slot `slot` is that of pair (n, k) of rank's local expert e, with all that belongs to the pair. */
  ghost predicate PairIn(w: World, rank: nat, x: Rank, n: nat, k: nat, slot: nat, e: nat)
    requires w.Valid() && x.y.tileM > 0
  {
    && slot < |x.pool| && slot < |x.poolWeight| && slot < Words.W && x.prm.Owner(e, slot / x.y.tileM)
    && x.pool[slot] == w.Row(n) && x.poolWeight[slot] == w.weight(n, k) && w.slotOf(n, k) == slot
    && w.topkIdx(n, k) == rank * w.localExperts + e && w.topkIdx(n, k) / w.localExperts == rank
    && SameMask(w, rank, x, slot)
  }

  lemma PairHere(w: World, rank: nat, x: Rank, g: nat, k: nat)
    requires w.Valid() && ReceivesFor(w, rank, x) && ComputesFor(w, rank, x) && x.routing.Pair(g, k)
    ensures PairIn(w, rank, x, x.src[g], k, x.routing.Slot(g, k), x.routing.tokens[g][k])
  {
    SlotInExpert(x.routing, g, k);
    RowOwner(x.routing.Pool(), x.prm, x.routing.tokens[g][k], x.routing.Slot(g, k), x.y.tileM);
    PairBacked(w, rank, x, g, k);
    PairExpert(w, rank, x, g, k);
    MasksAgree(w, rank, x, x.routing.Slot(g, k));
  }

  lemma PairTerm(w: World, rank: nat, x: Rank, n: nat, k: nat, slot: nat, e: nat, col: nat)
    requires w.Valid() && x.y.tileM > 0 && ComputesA(w, rank, x) && ComputesY(w, rank, x)
    requires PairIn(w, rank, x, n, k, slot, e)
    ensures x.y.term(slot, col) == TermAt(w, col, n)(k)
  {
    SlotAccumulates(w, rank, x, slot, e, w.topkIdx(n, k), col);
    TermIs(w, rank, slot, col, n, k, w.Out(w.topkIdx(n, k), col, x.postact(slot)), x.poolWeight[slot]);
  }

  lemma TermIs(w: World, rank: nat, slot: nat, col: nat, n: nat, k: nat, y: real, weight: real)
    requires w.Valid() && w.topkIdx(n, k) >= 0 && w.topkIdx(n, k) / w.localExperts == rank && w.slotOf(n, k) == slot
    requires y == w.Expert(w.Row(n), w.topkIdx(n, k), w.mask(rank, slot), col) && weight == w.weight(n, k)
    ensures TermAt(w, col, n)(k) == y * weight
  {
  }

  /** What the kernels accumulate at a pair's slot is the pair's weighted expert, dropout included. */
  lemma SlotComputesPair(w: World, rank: nat, x: Rank, g: nat, k: nat, col: nat)
    requires w.Valid() && ReceivesFor(w, rank, x) && ComputesFor(w, rank, x) && x.routing.Pair(g, k)
    ensures x.y.term(x.routing.Slot(g, k), col) == TermAt(w, col, x.src[g])(k)
  {
    PairHere(w, rank, x, g, k);
    PairTerm(w, rank, x, x.src[g], k, x.routing.Slot(g, k), x.routing.tokens[g][k], col);
  }

  ghost function SlotTerm(c: KernelY.Config, col: nat): nat -> real {
    (slot: nat) => c.term(slot, col)
  }

  /** Scattering a rank's slots gives every received token that rank's part of the mixture. */
  lemma ScatterIsRankPart(w: World, rank: nat, x: Rank, col: nat, g: nat)
    requires w.Valid() && ReceivesFor(w, rank, x) && ComputesFor(w, rank, x) && g < |x.src|
    ensures KernelYSafety.FullSum(x.y, x.routing.recvId[g], col) == RankPart(w, col, rank, x.src[g])
  {
    var r, c := x.routing, x.y;
    var p, q := PairOf(r, g), KernelY.SlotsOwned(c, r.recvId[g]);
    var a, b := TermAt(w, col, x.src[g]), SlotTerm(c, col);
    TokenSlots(r, c, x.kSlot, g);
    forall k: nat | k < r.topk && p(k) ensures a(k) == b(SlotAt(r, g)(k)) {
      SlotComputesPair(w, rank, x, g, k, col);
    }
    SumBijection(p, r.topk, q, c.Slots(), SlotAt(r, g), KAt(x.kSlot), a, b);
    SumEq(Masked(q, b), KernelYSafety.FullTerm(c, r.recvId[g], col), c.Slots());
    SumEq(Masked(p, a), Masked(OnRank(w, rank, x.src[g]), a), r.topk);
  }

  lemma NotReceived(w: World, rank: nat, x: Rank, col: nat, n: nat)
    requires ReceivesFor(w, rank, x) && n < w.tokens && n !in x.src
    ensures RankPart(w, col, rank, n) == 0.0
  {
    SumZero(Masked(OnRank(w, rank, n), TermAt(w, col, n)), w.topk);
  }

  // ---------------------------------------------------------------------------
  // Combine.
  // ---------------------------------------------------------------------------

  /** The receive index of token n on a rank that has it. */
  ghost function RecvIndex(x: Rank, n: nat): (g: nat)
    requires n in x.src
    ensures g < |x.src| && x.src[g] == n
  {
    var g: nat :| g < |x.src| && x.src[g] == n;
    g
  }

  /** What a rank sends back for token n from the state s of its kernel Y. */
  ghost function Contribution(x: Rank, s: KernelY.State, col: nat, n: nat): real {
    if n in x.src && |x.routing.recvId| == |x.src| && (x.routing.recvId[RecvIndex(x, n)], col) in s.o
    then s.o[(x.routing.recvId[RecvIndex(x, n)], col)] else 0.0
  }

  ghost function Contributions(xs: seq<Rank>, states: seq<KernelY.State>, col: nat, n: nat): nat -> real
    requires |xs| == |states|
  {
    (rank: nat) => if rank < |xs| then Contribution(xs[rank], states[rank], col, n) else 0.0
  }

  /** The combine sender may read token n on this rank: the token is stamped. */
  ghost predicate MaySend(x: Rank, s: KernelY.State, n: nat) {
    n in x.src && |x.routing.recvId| == |x.src| ==>
      x.routing.recvId[RecvIndex(x, n)] < |s.done| && s.done[x.routing.recvId[RecvIndex(x, n)]] == x.y.seqno
  }

  lemma ContributionIsPart(w: World, rank: nat, x: Rank, s: KernelY.State, col: nat, n: nat)
    requires w.Valid() && ReceivesFor(w, rank, x) && ComputesFor(w, rank, x) && n < w.tokens && col < x.y.Hidden()
    requires x.y.running == x.y.stripes && KernelY.Reachable(x.y, s) && MaySend(x, s, n)
    ensures Contribution(x, s, col, n) == RankPart(w, col, rank, n)
  {
    if n in x.src {
      var g := RecvIndex(x, n);
      KernelYSafety.GateSafety(x.y, s, x.routing.recvId[g]);
      ScatterIsRankPart(w, rank, x, col, g);
    } else {
      NotReceived(w, rank, x, col, n);
    }
  }

  ghost predicate AllRanks(w: World, xs: seq<Rank>)
    requires w.Valid()
  {
    |xs| == w.ranks && forall rank: nat :: rank < w.ranks ==> ReceivesFor(w, rank, xs[rank]) && ComputesFor(w, rank, xs[rank])
  }

  /** The layer's output for a token is the token-major mixture: whatever interleaving every rank's kernel Y
    * is in when combine reads the token, as long as combine's own gate let it read. */
  lemma CombineIsMixture(w: World, xs: seq<Rank>, states: seq<KernelY.State>, col: nat, n: nat)
    requires w.Valid() && AllRanks(w, xs) && |states| == w.ranks && n < w.tokens
    requires forall rank: nat :: rank < w.ranks ==>
               && col < xs[rank].y.Hidden() && xs[rank].y.running == xs[rank].y.stripes
               && KernelY.Reachable(xs[rank].y, states[rank]) && MaySend(xs[rank], states[rank], n)
    ensures Sum(Contributions(xs, states, col, n), w.ranks) == TokenMajor(w, col, n)
  {
    var f, g := Contributions(xs, states, col, n), RankParts(w, col, n);
    forall rank: nat | rank < w.ranks ensures f(rank) == g(rank) {
      ContributionIsPart(w, rank, xs[rank], states[rank], col, n);
    }
    SumEq(f, g, w.ranks);
    PartsAddUp(w, col, n);
  }

  // ---------------------------------------------------------------------------
  // The reference: expert by expert over all tokens, then a sum over ranks.
  // ---------------------------------------------------------------------------

  /** Pairs whose local expert is below e. */
  ghost function ExpertsBelow(w: World, rank: nat, e: int, n: nat): nat -> bool {
    (k: nat) => 0 <= w.LocalTopk(rank, n, k) < e
  }

  ghost function ExpertIs(w: World, rank: nat, e: int, n: nat): nat -> bool {
    (k: nat) => w.LocalTopk(rank, n, k) == e
  }

  ghost function DoneExperts(w: World, col: nat, rank: nat, e: int, n: nat): real {
    Sum(Masked(ExpertsBelow(w, rank, e, n), TermAt(w, col, n)), w.topk)
  }

  ghost function DonePairs(w: World, col: nat, rank: nat, e: int, n: nat, k: nat): real {
    DoneExperts(w, col, rank, e, n) + Sum(Masked(ExpertIs(w, rank, e, n), TermAt(w, col, n)), k)
  }

  lemma ExpertDone(w: World, col: nat, rank: nat, e: nat, n: nat)
    ensures DonePairs(w, col, rank, e, n, w.topk) == DoneExperts(w, col, rank, e + 1, n)
  {
    SumSplit(ExpertsBelow(w, rank, e, n), ExpertIs(w, rank, e, n), ExpertsBelow(w, rank, e + 1, n),
             TermAt(w, col, n), w.topk);
  }

  /** One expert of the reference: every token routed to it gets that expert's weighted row. */
  method AddExpert(w: World, col: nat, rank: nat, e: nat, out: array<real>)
    requires w.Valid() && out.Length == w.tokens
    requires forall n: nat :: n < w.tokens ==> out[n] == DoneExperts(w, col, rank, e, n)
    modifies out
    ensures forall n: nat :: n < w.tokens ==> out[n] == DoneExperts(w, col, rank, e + 1, n)
  {
    for token := 0 to w.tokens
      invariant forall n: nat :: n < w.tokens ==> out[n] == DoneExperts(w, col, rank, if n < token then e + 1 else e, n)
    {
      var acc := out[token];
      for k := 0 to w.topk
        invariant acc == DonePairs(w, col, rank, e, token, k)
      {
        if w.LocalTopk(rank, token, k) == e {
          acc := acc + w.Term(col, token, k);
        }
      }
      ExpertDone(w, col, rank, e, token);
      out[token] := acc;
    }
  }

  /** A rank's reference output before the all-reduce. */
  method MoeRank(w: World, col: nat, rank: nat) returns (out: array<real>)
    requires w.Valid()
    ensures fresh(out) && out.Length == w.tokens
    ensures forall n: nat :: n < w.tokens ==> out[n] == RankPart(w, col, rank, n)
  {
    out := new real[w.tokens](_ => 0.0);
    forall n: nat | n < w.tokens ensures DoneExperts(w, col, rank, 0, n) == 0.0 {
      SumZero(Masked(ExpertsBelow(w, rank, 0, n), TermAt(w, col, n)), w.topk);
    }
    for e := 0 to w.localExperts
      invariant forall n: nat :: n < w.tokens ==> out[n] == DoneExperts(w, col, rank, e, n)
    {
      AddExpert(w, col, rank, e, out);
    }
    forall n: nat | n < w.tokens ensures DoneExperts(w, col, rank, w.localExperts, n) == RankPart(w, col, rank, n) {
      SumEq(Masked(ExpertsBelow(w, rank, w.localExperts, n), TermAt(w, col, n)),
            Masked(OnRank(w, rank, n), TermAt(w, col, n)), w.topk);
    }
  }

  /** One rank's share of the all-reduce. */
  method AddRank(w: World, col: nat, rank: nat, part: array<real>, out: array<real>)
    requires part != out && part.Length == w.tokens && out.Length == w.tokens
    requires forall n: nat :: n < w.tokens ==> part[n] == RankPart(w, col, rank, n)
    requires forall n: nat :: n < w.tokens ==> out[n] == Sum(RankParts(w, col, n), rank)
    modifies out
    ensures forall n: nat :: n < w.tokens ==> out[n] == Sum(RankParts(w, col, n), rank + 1)
  {
    for token := 0 to w.tokens
      invariant forall n: nat :: n < token ==> out[n] == Sum(RankParts(w, col, n), rank + 1)
      invariant forall n: nat :: token <= n < w.tokens ==> out[n] == Sum(RankParts(w, col, n), rank)
    {
      out[token] := out[token] + part[token];
    }
  }

  /** The reference layer: the ranks' outputs added up. Its value for every token is the token-major mixture,
    * hence what the pool pipeline and combine produce. */
  method Moe(w: World, col: nat) returns (out: array<real>)
    requires w.Valid()
    ensures fresh(out) && out.Length == w.tokens
    ensures forall n: nat :: n < w.tokens ==> out[n] == TokenMajor(w, col, n)
  {
    out := new real[w.tokens](_ => 0.0);
    for rank := 0 to w.ranks
      invariant forall n: nat :: n < w.tokens ==> out[n] == Sum(RankParts(w, col, n), rank)
    {
      var part := MoeRank(w, col, rank);
      AddRank(w, col, rank, part, out);
    }
    forall n: nat | n < w.tokens ensures Sum(RankParts(w, col, n), w.ranks) == TokenMajor(w, col, n) {
      PartsAddUp(w, col, n);
    }
  }
}
