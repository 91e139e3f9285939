/** What every call of the orchestrator runs, whatever the interleaving: which kernels, what becomes of the
  * weight gradients and of the compressed pool, and how far ranks can be apart. */
module OrchestratorCalls {
  import opened Orchestrator
  import opened OrchestratorRuns
  import opened OrchestratorOrder

  // ---------------------------------------------------------------------------
  // The kernels of a call.
  // ---------------------------------------------------------------------------

  /** Which kernels a call has: by its direction, by whether the rank has tokens, and by checkpoint level. */
  predicate Has(direction: Direction, busy: bool, level: nat, k: Kind) {
    match k
    case CallerWork => true
    case PreMemset | Metadata | CopyPrefix | FillTiles | PostMemsets | DispatchMain | Combine => direction == Forward
    case KernelA | KernelY => direction == Forward && busy
    case Compress => direction == Forward && level == 2
    case ZeroScratch | Prepare | ZeroArrivals | DispatchGrads | CombineGrads => direction == Backward
    case KernelYBwd | KernelABwd | WeightGrads => direction == Backward && busy
    case Reexpand => direction == Backward && busy && level == 2
    case Recompute => direction == Backward && busy && level >= 1
    case ZeroWeightGrads => direction == Backward && !busy
  }

  predicate CallHas(job: Job, rank: nat, i: nat, k: Kind)
    requires i < |job.calls|
  {
    Has(job.calls[i], !job.empty(rank, i), job.level(rank, i), k)
  }

  lemma ForwardHas(job: Job, rank: nat, i: nat, k: Kind)
    requires i < |job.calls| && job.calls[i] == Forward
    ensures IsKernel(job, rank, i, k) <==> CallHas(job, rank, i, k)
  {
  }

  lemma BackwardHas(job: Job, rank: nat, i: nat, k: Kind)
    requires i < |job.calls| && job.calls[i] == Backward
    ensures IsKernel(job, rank, i, k) <==> CallHas(job, rank, i, k)
  {
  }

  /** A call launches each of its kernels once, and no other. */
  lemma LaunchesExactly(job: Job, rank: nat, i: nat, k: Kind)
    requires i < |job.calls|
    ensures IsKernel(job, rank, i, k) <==> CallHas(job, rank, i, k)
    ensures forall t: nat :: OpAt(job, rank, i, t).Op? && OpAt(job, rank, i, t).act == Kernel(k) ==> t == StageOf(k)
  {
    if job.calls[i] == Forward {
      ForwardHas(job, rank, i, k);
    } else {
      BackwardHas(job, rank, i, k);
    }
    forall t: nat | OpAt(job, rank, i, t).Op? && OpAt(job, rank, i, t).act == Kernel(k) ensures t == StageOf(k) {
      PollOnHost(job, rank, i, t);
    }
  }

  /** The kernel has run in call i. */
  ghost predicate HasRun(job: Job, s: State, rank: nat, i: nat, k: Kind) {
    exists t: nat :: OpAt(job, rank, i, t).Op? && OpAt(job, rank, i, t).act == Kernel(k) && s.phase(rank, i, t) >= FINISHED
  }

  /** When everything is over, exactly these kernels have run in every call of every rank. */
  lemma FinishedCallRan(job: Job, s: State, rank: nat, i: nat, k: Kind)
    requires AllDone(job, s) && rank < job.ranks && i < |job.calls|
    ensures HasRun(job, s, rank, i, k) <==> CallHas(job, rank, i, k)
  {
    LaunchesExactly(job, rank, i, k);
    if CallHas(job, rank, i, k) {
      assert Key(i, StageOf(k)) < |job.calls| * STAGES;
      assert Done(job, s, rank, i, StageOf(k));
    }
  }

  // ---------------------------------------------------------------------------
  // The weight gradients.
  // ---------------------------------------------------------------------------

  datatype Gradients = Unset | Computed | Zeroed

  /** What the operations before stage t of a call leave in the weight gradients. Everything that writes them is
    * on one stream, so it runs in this order. */
  function GradientsAt(job: Job, rank: nat, i: nat, t: nat): Gradients {
    if t == 0 then Unset
    else if !OpAt(job, rank, i, t - 1).Op? then GradientsAt(job, rank, i, t - 1)
    else match OpAt(job, rank, i, t - 1).act
      case Kernel(WeightGrads) => Computed
      case Kernel(ZeroWeightGrads) => Zeroed
      case _ => GradientsAt(job, rank, i, t - 1)
  }

  predicate WritesGradients(job: Job, rank: nat, i: nat, t: nat) {
    OpAt(job, rank, i, t).Op? && OpAt(job, rank, i, t).act in {Kernel(WeightGrads), Kernel(ZeroWeightGrads)}
  }

  lemma {:induction false} GradientsKept(job: Job, rank: nat, i: nat, from: nat, t: nat)
    requires from <= t && forall u: nat :: from <= u < t ==> !WritesGradients(job, rank, i, u)
    ensures GradientsAt(job, rank, i, t) == GradientsAt(job, rank, i, from)
  {
    if from < t {
      GradientsKept(job, rank, i, from, t - 1);
      assert !WritesGradients(job, rank, i, t - 1);
    }
  }

  /** The kernel that decides them. */
  function GradientWriter(job: Job, rank: nat, i: nat): Kind {
    if job.empty(rank, i) then ZeroWeightGrads else WeightGrads
  }

  /** A backward call writes the weight gradients exactly once: computed on a rank with tokens, and zeros on an
    * empty rank. */
  lemma GradientsWrittenOnce(job: Job, rank: nat, i: nat)
    requires i < |job.calls| && job.calls[i] == Backward
    ensures forall t: nat :: WritesGradients(job, rank, i, t) <==> t == StageOf(GradientWriter(job, rank, i))
    ensures GradientsAt(job, rank, i, STAGES) == if job.empty(rank, i) then Zeroed else Computed
  {
    var t := StageOf(GradientWriter(job, rank, i));
    forall u: nat ensures WritesGradients(job, rank, i, u) <==> u == t {
      LaunchesExactly(job, rank, i, WeightGrads);
      LaunchesExactly(job, rank, i, ZeroWeightGrads);
    }
    GradientsKept(job, rank, i, t + 1, STAGES);
    assert WritesGradients(job, rank, i, t);
  }

  /** Once the caller is past the call's last wait, the one writer has finished: the caller reads its result. */
  lemma GradientsFinal(job: Job, s: State, rank: nat, i: nat)
    requires InBackward(job, s, rank, i) && s.phase(rank, i, 18) >= FINISHED
    ensures IsKernel(job, rank, i, GradientWriter(job, rank, i)) && IsFinished(s, rank, i, GradientWriter(job, rank, i))
  {
    ReachableInv(job, s);
    var k := GradientWriter(job, rank, i);
    LaunchesExactly(job, rank, i, k);
    assert Settled(job, s, rank, i, 18);
    assert OnStream(job, rank, i, StageOf(k), Compute);
  }

  // ---------------------------------------------------------------------------
  // The compressed pool.
  // ---------------------------------------------------------------------------

  /** A backward call at the level of its forward call expands the pool again exactly if it was compressed and
    * there are tokens to expand. */
  lemma CompressedIsReexpanded(job: Job, rank: nat, i: nat, j: nat)
    requires i < |job.calls| && job.calls[i] == Forward && j < |job.calls| && job.calls[j] == Backward
    requires job.level(rank, i) == job.level(rank, j)
    ensures IsKernel(job, rank, j, Reexpand) <==> IsKernel(job, rank, i, Compress) && !job.empty(rank, j)
    ensures IsKernel(job, rank, j, Reexpand) ==> IsKernel(job, rank, j, Recompute)
  {
    LaunchesExactly(job, rank, i, Compress);
    LaunchesExactly(job, rank, j, Reexpand);
    LaunchesExactly(job, rank, j, Recompute);
  }

  /** It expands from the finished compression. */
  lemma ReexpandOrder(job: Job, s: State, rank: nat, i: nat, j: nat)
    requires InForward(job, s, rank, i) && InBackward(job, s, rank, j) && i < j && job.level(rank, i) == job.level(rank, j)
    requires IsKernel(job, rank, j, Reexpand) && HasBegun(s, rank, j, Reexpand)
    ensures IsFinished(s, rank, i, Compress)
  {
    CompressedIsReexpanded(job, rank, i, j);
    CompressIsOnStream(job, rank, i);
    LayerBarrier(job, s, rank, i, StageOf(Compress), j, StageOf(Reexpand));
  }

  lemma CompressIsOnStream(job: Job, rank: nat, i: nat)
    requires IsKernel(job, rank, i, Compress)
    ensures OpAt(job, rank, i, StageOf(Compress)).stream != Host
  {
    PollOnHost(job, rank, i, StageOf(Compress));
  }

  /** And before the weight gradients read the pool; RecomputeOrder says so of the recomputation. */
  lemma ReexpandBeforeGradients(job: Job, s: State, rank: nat, j: nat)
    requires InBackward(job, s, rank, j) && HasBegun(s, rank, j, WeightGrads) && job.level(rank, j) == 2
    ensures IsFinished(s, rank, j, Reexpand)
  {
    ReachableInv(job, s);
    assert Settled(job, s, rank, j, StageOf(WeightGrads));
    Fifo(job, s, rank, j, StageOf(Reexpand), j, StageOf(WeightGrads));
  }

  // ---------------------------------------------------------------------------
  // Before the first row moves.
  // ---------------------------------------------------------------------------

  /** The host sizes the slab and the tile metadata from final counts. */
  lemma CountsOrder(job: Job, s: State, rank: nat, i: nat)
    requires InForward(job, s, rank, i)
    ensures s.pc(rank) > Key(i, 6) ==> IsFinished(s, rank, i, Metadata)
    ensures HasBegun(s, rank, i, FillTiles) ==> s.pc(rank) > Key(i, 6)
  {
    ReachableInv(job, s);
    assert Settled(job, s, rank, i, 6);
    assert Settled(job, s, rank, i, StageOf(FillTiles));
  }

  /** Dispatch finds its input, the exchanged counts, the filled tile metadata and the filled slab. */
  lemma DispatchOrder(job: Job, s: State, rank: nat, i: nat)
    requires InForward(job, s, rank, i) && HasBegun(s, rank, i, DispatchMain)
    ensures IsFinished(s, rank, i, CallerWork) && IsFinished(s, rank, i, PreMemset) && IsFinished(s, rank, i, Metadata)
    ensures IsFinished(s, rank, i, CopyPrefix) && IsFinished(s, rank, i, FillTiles) && IsFinished(s, rank, i, PostMemsets)
  {
    ReachableInv(job, s);
    var t := StageOf(DispatchMain);
    assert Settled(job, s, rank, i, t);
    Fifo(job, s, rank, i, StageOf(Metadata), i, t);
    Fifo(job, s, rank, i, StageOf(CopyPrefix), i, t);
    Fifo(job, s, rank, i, StageOf(FillTiles), i, t);
    Fifo(job, s, rank, i, StageOf(PostMemsets), i, t);
    MetadataFirst(job, s, rank, i);
  }

  lemma MetadataFirst(job: Job, s: State, rank: nat, i: nat)
    requires InForward(job, s, rank, i) && HasBegun(s, rank, i, Metadata)
    ensures IsFinished(s, rank, i, CallerWork) && IsFinished(s, rank, i, PreMemset)
  {
    ReachableInv(job, s);
    assert Settled(job, s, rank, i, StageOf(Metadata));
    Joined(job, s, rank, i, StageOf(CallerWork), i, 1, i, StageOf(Metadata));
    Fifo(job, s, rank, i, StageOf(PreMemset), i, StageOf(Metadata));
  }

  /** dispatch_grads finds the output gradient and zeroed arrival counts. */
  lemma DispatchGradsOrder(job: Job, s: State, rank: nat, i: nat)
    requires InBackward(job, s, rank, i) && HasBegun(s, rank, i, DispatchGrads)
    ensures IsFinished(s, rank, i, CallerWork) && IsFinished(s, rank, i, ZeroArrivals)
  {
    ReachableInv(job, s);
    assert Settled(job, s, rank, i, StageOf(DispatchGrads));
    Joined(job, s, rank, i, StageOf(CallerWork), i, 1, i, StageOf(DispatchGrads));
    Fifo(job, s, rank, i, StageOf(ZeroArrivals), i, StageOf(DispatchGrads));
  }

  // ---------------------------------------------------------------------------
  // Between ranks.
  // ---------------------------------------------------------------------------

  /** The exchange that ends a call. */
  function LastExchange(d: Direction): Kind { if d == Forward then Combine else CombineGrads }

  /** An exchange is complete on one rank only when every rank is in it. */
  lemma ExchangeMeets(job: Job, s: State, rank: nat, other: nat, i: nat, k: Kind)
    requires Reachable(job, s) && rank < job.ranks && other < job.ranks && i < |job.calls|
    requires k in {Metadata, DispatchMain, Combine, DispatchGrads, CombineGrads}
    requires IsKernel(job, rank, i, k) && IsSignalled(s, rank, i, k)
    ensures IsKernel(job, other, i, k) && HasBegun(s, other, i, k)
  {
    ReachableInv(job, s);
    LaunchesExactly(job, rank, i, k);
    LaunchesExactly(job, other, i, k);
    assert Settled(job, s, rank, i, StageOf(k));
  }

  lemma LastExchangeIs(job: Job, rank: nat, i: nat)
    requires i < |job.calls|
    ensures var k := LastExchange(job.calls[i]);
            && IsKernel(job, rank, i, k) && StageOf(k) < STAGES && OpAt(job, rank, i, StageOf(k)).stream == Comm
            && k in {Combine, CombineGrads}
  {
  }

  /** When a rank has begun anything of a call, every rank is in the last exchange of the call before, or past
    * it. */
  lemma OthersInLastExchange(job: Job, s: State, rank: nat, i: nat, t: nat, other: nat)
    requires Reachable(job, s) && rank < job.ranks && other < job.ranks && 0 < i < |job.calls|
    requires OpAt(job, rank, i, t).Op? && OpAt(job, rank, i, t).act.Kernel? && s.phase(rank, i, t) >= STARTED
    ensures HasBegun(s, other, i - 1, LastExchange(job.calls[i - 1]))
  {
    var k := LastExchange(job.calls[i - 1]);
    LastExchangeIs(job, rank, i - 1);
    LayerBarrier(job, s, rank, i - 1, StageOf(k), i, t);
    ExchangeMeets(job, s, rank, other, i - 1, k);
  }

  /** So every rank has finished every call before that one on every stream: what ranks write into one another's
    * buffers for call i cannot meet anything older than call i - 1. */
  lemma RanksWithinOneCall(job: Job, s: State, rank: nat, i: nat, t: nat, other: nat, j: nat, u: nat)
    requires Reachable(job, s) && rank < job.ranks && other < job.ranks && 0 < i < |job.calls|
    requires OpAt(job, rank, i, t).Op? && OpAt(job, rank, i, t).act.Kernel? && s.phase(rank, i, t) >= STARTED
    requires j < i - 1 && u < STAGES && OpAt(job, other, j, u).Op? && OpAt(job, other, j, u).stream != Host
    ensures s.phase(other, j, u) >= FINISHED
  {
    var k := LastExchange(job.calls[i - 1]);
    OthersInLastExchange(job, s, rank, i, t, other);
    LastExchangeIs(job, other, i - 1);
    LayerBarrier(job, s, other, j, u, i - 1, StageOf(k));
  }
}
