/** Which operations the orchestrator's streams, waits, flags and spins order, in every reachable state: each
  * read comes after the writes it needs, and memory is given back after its last use. */
module OrchestratorOrder {
  import opened Sums
  import opened Orchestrator
  import opened OrchestratorRuns

  ghost predicate HasBegun(s: State, rank: nat, i: nat, k: Kind) {
    s.phase(rank, i, StageOf(k)) >= STARTED
  }

  ghost predicate IsSignalled(s: State, rank: nat, i: nat, k: Kind) {
    s.phase(rank, i, StageOf(k)) >= SIGNALLED
  }

  ghost predicate IsFinished(s: State, rank: nat, i: nat, k: Kind) {
    s.phase(rank, i, StageOf(k)) >= FINISHED
  }

  // ---------------------------------------------------------------------------
  // How one operation's start orders another's end.
  // ---------------------------------------------------------------------------

  /** On one stream, everything enqueued before has finished. */
  lemma Fifo(job: Job, s: State, rank: nat, j: nat, u: nat, i: nat, t: nat)
    requires Inv(job, s) && rank < job.ranks && s.phase(rank, i, t) >= STARTED && t < STAGES && u < STAGES
    requires OpAt(job, rank, i, t).Op? && OpAt(job, rank, i, t).stream != Host
    requires OnStream(job, rank, j, u, OpAt(job, rank, i, t).stream) && Key(j, u) < Key(i, t)
    ensures s.phase(rank, j, u) >= FINISHED
  {
    assert Settled(job, s, rank, i, t);
  }

  /** Behind a wait for another stream, everything enqueued there before the wait's point has finished. */
  lemma Joined(job: Job, s: State, rank: nat, j: nat, u: nat, i: nat, w: nat, i': nat, t: nat)
    requires Inv(job, s) && rank < job.ranks && s.phase(rank, i', t) >= STARTED && t < STAGES && u < STAGES && w < STAGES
    requires OpAt(job, rank, i', t).Op? && OpAt(job, rank, i', t).stream != Host
    requires OnStream(job, rank, i, w, OpAt(job, rank, i', t).stream) && Key(i, w) < Key(i', t)
    requires OpAt(job, rank, i, w).act.WaitStream?
    requires OnStream(job, rank, j, u, OpAt(job, rank, i, w).act.of)
    requires Key(j, u) < Key(i, OpAt(job, rank, i, w).act.before)
    ensures s.phase(rank, j, u) >= FINISHED
  {
    Fifo(job, s, rank, i, w, i', t);
    assert Settled(job, s, rank, i, w);
  }

  lemma {:induction false} NoLaterStarted(p: nat -> bool, i: nat, n: nat)
    requires i <= n && forall j: nat :: i <= j < n ==> !p(j)
    ensures Count(p, n) == Count(p, i)
  {
    if i < n {
      NoLaterStarted(p, i, n - 1);
    }
  }

  lemma {:induction false} StartedWithinIssued(job: Job, s: State, rank: nat, k: Kind, n: nat)
    requires n <= |job.calls| && k in {DispatchMain, DispatchGrads, KernelY, KernelABwd}
    ensures Count(HasStarted(job, s, rank, k), n) <= Issued(job, rank, k, n)
  {
    if n > 0 {
      StartedWithinIssued(job, s, rank, k, n - 1);
      LaunchIsKernel(job, rank, k, n - 1);
    }
  }

  /** A flag wait for the k-th launch is passed only after the k-th launch itself has begun, because its
    * launches share a stream and none was skipped without its wait. */
  lemma FlagMeansStarted(job: Job, s: State, rank: nat, i: nat, t: nat)
    requires Reachable(job, s) && rank < job.ranks && t < STAGES && s.phase(rank, i, t) >= FINISHED
    requires OpAt(job, rank, i, t).Op? && OpAt(job, rank, i, t).act.WaitFlag?
    ensures HasBegun(s, rank, i, OpAt(job, rank, i, t).act.producer)
  {
    ReachableInv(job, s);
    FlagWaitShape(job, rank, i, t);
    var k := OpAt(job, rank, i, t).act.producer;
    var p := HasStarted(job, s, rank, k);
    assert Settled(job, s, rank, i, t);
    LaunchIsKernel(job, rank, k, i);
    forall j: nat | i <= j < |job.calls| && p(j) ensures HasBegun(s, rank, i, k) {
      if i < j {
        ProducerStream(job, rank, k, i, j);
        Fifo(job, s, rank, i, StageOf(k), j, StageOf(k));
      }
    }
    StartedWithinIssued(job, s, rank, k, i);
    if !HasBegun(s, rank, i, k) {
      NoLaterStarted(p, i, |job.calls|);
    }
  }

  lemma EarlierLaunch(job: Job, s: State, rank: nat, k: Kind, j: nat, i: nat)
    requires Inv(job, s) && rank < job.ranks && k in {DispatchMain, DispatchGrads, KernelY, KernelABwd}
    requires j <= i < |job.calls| && Launches(job, rank, k, j) && Launches(job, rank, k, i) && HasBegun(s, rank, i, k)
    ensures HasStarted(job, s, rank, k)(j)
  {
    LaunchIsKernel(job, rank, k, i);
    LaunchIsKernel(job, rank, k, j);
    if j < i {
      ProducerStream(job, rank, k, j, i);
      Fifo(job, s, rank, j, StageOf(k), i, StageOf(k));
    }
  }

  /** And it opens there: as soon as the k-th launch has begun, whatever is left of it, the wait may be passed. */
  lemma FlagOpensAtStart(job: Job, s: State, rank: nat, i: nat, t: nat)
    requires Reachable(job, s) && rank < job.ranks && t < STAGES
    requires OpAt(job, rank, i, t).Op? && OpAt(job, rank, i, t).act.WaitFlag?
    requires HasBegun(s, rank, i, OpAt(job, rank, i, t).act.producer)
    ensures WaitOver(job, s, rank, i, OpAt(job, rank, i, t).act)
  {
    ReachableInv(job, s);
    FlagWaitShape(job, rank, i, t);
    var k := OpAt(job, rank, i, t).act.producer;
    forall j: nat | j < i + 1 && Launches(job, rank, k, j) ensures HasStarted(job, s, rank, k)(j) {
      EarlierLaunch(job, s, rank, k, j, i);
    }
    IssuedStarted(job, s, rank, k, i + 1);
    CountGrows(HasStarted(job, s, rank, k), i + 1, |job.calls|);
  }

  lemma ProducerStream(job: Job, rank: nat, k: Kind, i: nat, j: nat)
    requires k in {DispatchMain, DispatchGrads, KernelY, KernelABwd} && IsKernel(job, rank, i, k) && IsKernel(job, rank, j, k)
    ensures OpAt(job, rank, i, StageOf(k)).stream == OpAt(job, rank, j, StageOf(k)).stream != Host && StageOf(k) < STAGES
  {
  }

  // ---------------------------------------------------------------------------
  // From call to call: a layer is a barrier.
  // ---------------------------------------------------------------------------

  lemma LayerEnds(job: Job, s: State, rank: nat, j: nat, u: nat, i: nat)
    requires Inv(job, s) && rank < job.ranks && j < i && u < STAGES && OpAt(job, rank, j, u).Op?
    requires OpAt(job, rank, j, u).stream != Host && i < |job.calls| && s.phase(rank, i, 0) >= STARTED
    ensures s.phase(rank, j, u) >= FINISHED
  {
    var st := OpAt(job, rank, j, u).stream;
    if st == Caller {
      Fifo(job, s, rank, j, u, i, 0);
    } else {
      var forward := job.calls[j] == Forward;
      var w := if st == Comm then (if forward then 19 else 17) else (if forward then 20 else 18);
      Joined(job, s, rank, j, u, j, w, i, 0);
    }
  }

  /** When anything a layer enqueues on any stream has begun, every operation of every earlier layer of the
    * rank has finished. So memory freed at the end of a layer (the scatter target `o`, the backward scratch,
    * a released pool) is reused only after its last use on every stream, and what a layer left for a later
    * one (`preact_a`, `pool`, `x_recv`, the handle) is complete. */
  lemma LayerBarrier(job: Job, s: State, rank: nat, j: nat, u: nat, i: nat, t: nat)
    requires Reachable(job, s) && rank < job.ranks && j < i && u < STAGES && OpAt(job, rank, j, u).Op?
    requires OpAt(job, rank, j, u).stream != Host
    requires OpAt(job, rank, i, t).Op? && OpAt(job, rank, i, t).act.Kernel? && s.phase(rank, i, t) >= STARTED
    ensures s.phase(rank, j, u) >= FINISHED
  {
    ReachableInv(job, s);
    StageBound(job, rank, i, t);
    if t > 0 {
      assert OpAt(job, rank, i, 0).stream == Caller;
      if OpAt(job, rank, i, t).stream == Caller {
        Fifo(job, s, rank, i, 0, i, t);
      } else {
        var w := if OpAt(job, rank, i, t).stream == Comm then 1 else 2;
        Joined(job, s, rank, i, 0, i, w, i, t);
      }
    }
    LayerEnds(job, s, rank, j, u, i);
  }

  // ---------------------------------------------------------------------------
  // Inside a forward layer.
  // ---------------------------------------------------------------------------

  ghost predicate InForward(job: Job, s: State, rank: nat, i: nat) {
    Reachable(job, s) && rank < job.ranks && i < |job.calls| && job.calls[i] == Forward
  }

  /** Kernel A runs on filled tile metadata and zeroed counters, with dispatch already on the device; past its
    * spins every pool row has arrived. */
  lemma KernelAOrder(job: Job, s: State, rank: nat, i: nat)
    requires InForward(job, s, rank, i) && HasBegun(s, rank, i, KernelA)
    ensures IsFinished(s, rank, i, FillTiles) && IsFinished(s, rank, i, PostMemsets) && HasBegun(s, rank, i, DispatchMain)
    ensures IsFinished(s, rank, i, CallerWork)
    ensures IsSignalled(s, rank, i, KernelA) ==> IsSignalled(s, rank, i, DispatchMain)
  {
    ReachableInv(job, s);
    assert Settled(job, s, rank, i, StageOf(KernelA));
    Joined(job, s, rank, i, StageOf(FillTiles), i, 10, i, StageOf(KernelA));
    Joined(job, s, rank, i, StageOf(PostMemsets), i, 10, i, StageOf(KernelA));
    Joined(job, s, rank, i, StageOf(CallerWork), i, 12, i, StageOf(KernelA));
    Fifo(job, s, rank, i, 11, i, StageOf(KernelA));
    FlagMeansStarted(job, s, rank, i, 11);
  }

  /** Kernel Y reads finished activations and adds into a zeroed target with zeroed stamps. */
  lemma KernelYOrder(job: Job, s: State, rank: nat, i: nat)
    requires InForward(job, s, rank, i) && HasBegun(s, rank, i, KernelY)
    ensures IsFinished(s, rank, i, KernelA) && IsFinished(s, rank, i, PostMemsets)
    ensures IsSignalled(s, rank, i, DispatchMain)
  {
    ReachableInv(job, s);
    assert Settled(job, s, rank, i, StageOf(KernelY));
    Fifo(job, s, rank, i, StageOf(KernelA), i, StageOf(KernelY));
    Joined(job, s, rank, i, StageOf(PostMemsets), i, 10, i, StageOf(KernelY));
    KernelAOrder(job, s, rank, i);
  }

  /** Combine comes after this rank's dispatch; on a rank with tiles it is held until kernel Y is running. Once
    * it has sent everything, every rank's kernel Y has stamped all its tokens. */
  lemma CombineOrder(job: Job, s: State, rank: nat, i: nat)
    requires InForward(job, s, rank, i) && HasBegun(s, rank, i, Combine)
    ensures IsFinished(s, rank, i, DispatchMain) && IsFinished(s, rank, i, PostMemsets)
    ensures !job.empty(rank, i) ==> HasBegun(s, rank, i, KernelY) && IsFinished(s, rank, i, KernelA)
    ensures IsSignalled(s, rank, i, Combine) ==>
              forall r: nat :: r < job.ranks && !job.empty(r, i) ==> IsSignalled(s, r, i, KernelY)
  {
    ReachableInv(job, s);
    Fifo(job, s, rank, i, StageOf(DispatchMain), i, StageOf(Combine));
    Fifo(job, s, rank, i, StageOf(PostMemsets), i, StageOf(Combine));
    if !job.empty(rank, i) {
      Fifo(job, s, rank, i, 15, i, StageOf(Combine));
      FlagMeansStarted(job, s, rank, i, 15);
      KernelYOrder(job, s, rank, i);
    }
    assert Settled(job, s, rank, i, StageOf(Combine));
    forall r: nat | IsSignalled(s, rank, i, Combine) && r < job.ranks && !job.empty(r, i)
      ensures IsSignalled(s, r, i, KernelY) {
      assert IsKernel(job, r, i, KernelY);
    }
  }

  /** At checkpoint level 2 the pool is compressed, and then released to the caller's allocator. Both come
    * after its last readers and, on a rank with tiles, after dispatch has written its last row, although no
    * event says so: only kernel A's arrival spins do. */
  lemma CompressOrder(job: Job, s: State, rank: nat, i: nat)
    requires InForward(job, s, rank, i) && job.level(rank, i) == 2 && HasBegun(s, rank, i, Compress)
    ensures !job.empty(rank, i) ==>
              && IsFinished(s, rank, i, KernelA) && IsFinished(s, rank, i, KernelY)
              && IsSignalled(s, rank, i, DispatchMain)
  {
    ReachableInv(job, s);
    if !job.empty(rank, i) {
      Joined(job, s, rank, i, StageOf(KernelA), i, 17, i, StageOf(Compress));
      Joined(job, s, rank, i, StageOf(KernelY), i, 17, i, StageOf(Compress));
      KernelYOrder(job, s, rank, i);
    }
  }

  // ---------------------------------------------------------------------------
  // Inside a backward layer.
  // ---------------------------------------------------------------------------

  ghost predicate InBackward(job: Job, s: State, rank: nat, i: nat) {
    Reachable(job, s) && rank < job.ranks && i < |job.calls| && job.calls[i] == Backward
  }

  /** Kernel Y's backward adds into zeroed scratch, on a pool and pre-activations that are there again, with
    * zeroed arrival counts and dispatch_grads on the device. */
  lemma KernelYBwdOrder(job: Job, s: State, rank: nat, i: nat)
    requires InBackward(job, s, rank, i) && HasBegun(s, rank, i, KernelYBwd)
    ensures IsFinished(s, rank, i, ZeroScratch) && IsFinished(s, rank, i, Prepare) && IsFinished(s, rank, i, ZeroArrivals)
    ensures HasBegun(s, rank, i, DispatchGrads) && !job.empty(rank, i)
    ensures IsSignalled(s, rank, i, KernelYBwd) ==> IsSignalled(s, rank, i, DispatchGrads)
  {
    ReachableInv(job, s);
    BwdScratch(job, s, rank, i);
    assert Settled(job, s, rank, i, StageOf(KernelYBwd));
    Joined(job, s, rank, i, StageOf(ZeroArrivals), i, 7, i, StageOf(KernelYBwd));
    BwdGate(job, s, rank, i);
  }

  lemma BwdGate(job: Job, s: State, rank: nat, i: nat)
    requires InBackward(job, s, rank, i) && HasBegun(s, rank, i, KernelYBwd)
    ensures HasBegun(s, rank, i, DispatchGrads)
  {
    ReachableInv(job, s);
    assert Settled(job, s, rank, i, StageOf(KernelYBwd));
    Fifo(job, s, rank, i, 8, i, StageOf(KernelYBwd));
    FlagMeansStarted(job, s, rank, i, 8);
  }

  lemma BwdScratch(job: Job, s: State, rank: nat, i: nat)
    requires InBackward(job, s, rank, i) && HasBegun(s, rank, i, KernelYBwd)
    ensures IsFinished(s, rank, i, ZeroScratch) && IsFinished(s, rank, i, Prepare) && !job.empty(rank, i)
  {
    ReachableInv(job, s);
    assert Settled(job, s, rank, i, StageOf(KernelYBwd));
    Fifo(job, s, rank, i, StageOf(ZeroScratch), i, StageOf(KernelYBwd));
    Fifo(job, s, rank, i, StageOf(Prepare), i, StageOf(KernelYBwd));
  }

  /** With checkpointing, kernel Y's backward finds its pre-activations recomputed, and at level 2 they came
    * from the re-expanded pool, which the weight gradient reads later. */
  lemma RecomputeOrder(job: Job, s: State, rank: nat, i: nat)
    requires InBackward(job, s, rank, i) && HasBegun(s, rank, i, KernelYBwd) && job.level(rank, i) >= 1
    ensures IsFinished(s, rank, i, Recompute)
    ensures job.level(rank, i) == 2 ==> IsFinished(s, rank, i, Reexpand)
  {
    ReachableInv(job, s);
    assert Settled(job, s, rank, i, StageOf(KernelYBwd));
    Fifo(job, s, rank, i, StageOf(Recompute), i, StageOf(KernelYBwd));
    ReexpandFirst(job, s, rank, i);
  }

  lemma ReexpandFirst(job: Job, s: State, rank: nat, i: nat)
    requires InBackward(job, s, rank, i) && HasBegun(s, rank, i, Recompute) && job.level(rank, i) >= 1
    ensures job.level(rank, i) == 2 ==> IsFinished(s, rank, i, Reexpand)
  {
    ReachableInv(job, s);
    assert Settled(job, s, rank, i, StageOf(Recompute));
    if job.level(rank, i) == 2 {
      Fifo(job, s, rank, i, StageOf(Reexpand), i, StageOf(Recompute));
    }
  }

  /** combine_grads reads the stamps, the input gradients and the weight gradients. The gate it spins on was
    * zeroed before it starts, and the weight gradients are final by then, because the launch flag of
    * kernel A's backward implies both; the sums are final once it is past its spins. */
  lemma CombineGradsOrder(job: Job, s: State, rank: nat, i: nat)
    requires InBackward(job, s, rank, i) && HasBegun(s, rank, i, CombineGrads)
    ensures IsFinished(s, rank, i, DispatchGrads)
    ensures !job.empty(rank, i) ==>
              && IsFinished(s, rank, i, ZeroScratch) && IsFinished(s, rank, i, KernelYBwd) && HasBegun(s, rank, i, KernelABwd)
    ensures IsSignalled(s, rank, i, CombineGrads) ==>
              forall r: nat :: r < job.ranks && !job.empty(r, i) ==> IsSignalled(s, r, i, KernelABwd)
  {
    ReachableInv(job, s);
    Fifo(job, s, rank, i, StageOf(DispatchGrads), i, StageOf(CombineGrads));
    if !job.empty(rank, i) {
      CombineGradsGate(job, s, rank, i);
    }
    if IsSignalled(s, rank, i, CombineGrads) {
      CombineGradsSpins(job, s, rank, i);
    }
  }

  lemma CombineGradsSpins(job: Job, s: State, rank: nat, i: nat)
    requires InBackward(job, s, rank, i) && IsSignalled(s, rank, i, CombineGrads)
    ensures forall r: nat :: r < job.ranks && !job.empty(r, i) ==> IsSignalled(s, r, i, KernelABwd)
  {
    ReachableInv(job, s);
    assert Settled(job, s, rank, i, StageOf(CombineGrads));
    forall r: nat | r < job.ranks && !job.empty(r, i) ensures IsSignalled(s, r, i, KernelABwd) {
      assert IsKernel(job, r, i, KernelABwd);
    }
  }

  lemma CombineGradsGate(job: Job, s: State, rank: nat, i: nat)
    requires InBackward(job, s, rank, i) && HasBegun(s, rank, i, CombineGrads) && !job.empty(rank, i)
    ensures IsFinished(s, rank, i, ZeroScratch) && IsFinished(s, rank, i, KernelYBwd) && HasBegun(s, rank, i, KernelABwd)
  {
    ReachableInv(job, s);
    Fifo(job, s, rank, i, 13, i, StageOf(CombineGrads));
    FlagMeansStarted(job, s, rank, i, 13);
    Fifo(job, s, rank, i, StageOf(KernelYBwd), i, StageOf(KernelABwd));
    Fifo(job, s, rank, i, StageOf(ZeroScratch), i, StageOf(KernelABwd));
  }

  /** The weight gradients read what both backward kernels left and every delivered gradient row. */
  lemma WeightGradsOrder(job: Job, s: State, rank: nat, i: nat)
    requires InBackward(job, s, rank, i) && HasBegun(s, rank, i, WeightGrads)
    ensures IsFinished(s, rank, i, KernelYBwd) && IsFinished(s, rank, i, KernelABwd)
    ensures IsSignalled(s, rank, i, DispatchGrads)
  {
    BwdKernelsFirst(job, s, rank, i);
    KernelYBwdOrder(job, s, rank, i);
  }

  lemma BwdKernelsFirst(job: Job, s: State, rank: nat, i: nat)
    requires InBackward(job, s, rank, i) && HasBegun(s, rank, i, WeightGrads)
    ensures IsFinished(s, rank, i, KernelYBwd) && IsFinished(s, rank, i, KernelABwd)
  {
    ReachableInv(job, s);
    assert Settled(job, s, rank, i, StageOf(WeightGrads));
    assert !job.empty(rank, i);
    Fifo(job, s, rank, i, StageOf(KernelYBwd), i, StageOf(WeightGrads));
    Fifo(job, s, rank, i, StageOf(KernelABwd), i, StageOf(WeightGrads));
  }
}
