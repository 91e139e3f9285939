/** The host side of a rank: the layer functions as they enqueue on the streams and count their launches. The
  * log they leave is the program the step system runs. */
module OrchestratorHost {
  import opened Orchestrator

  /** An entry carries the place of its program point in the rank's call sequence. */
  datatype Entry = Entry(key: nat, op: Op)

  /** The program of the rank up to a point. */
  function Entries(job: Job, rank: nat, key: nat): seq<Entry> {
    if key == 0 then []
    else
      var op := OpAt(job, rank, (key - 1) / STAGES, (key - 1) % STAGES);
      Entries(job, rank, key - 1) + if op.Op? then [Entry(key - 1, op)] else []
  }

  /** The log has no gaps: whatever OpAt names below the point is in it, once, in order. */
  lemma {:induction false} EntriesComplete(job: Job, rank: nat, key: nat, at: nat)
    requires at < key && OpAt(job, rank, at / STAGES, at % STAGES).Op?
    ensures Entry(at, OpAt(job, rank, at / STAGES, at % STAGES)) in Entries(job, rank, key)
  {
    if at < key - 1 {
      EntriesComplete(job, rank, key - 1, at);
    }
  }

  lemma {:induction false} EntriesOrdered(job: Job, rank: nat, key: nat, a: nat, b: nat)
    requires a < b < |Entries(job, rank, key)|
    ensures Entries(job, rank, key)[a].key < Entries(job, rank, key)[b].key < key
  {
    EntriesBelow(job, rank, key);
    if b < |Entries(job, rank, key - 1)| {
      EntriesOrdered(job, rank, key - 1, a, b);
    } else {
      EntriesBelow(job, rank, key - 1);
    }
  }

  lemma {:induction false} EntriesBelow(job: Job, rank: nat, key: nat)
    ensures forall a :: 0 <= a < |Entries(job, rank, key)| ==> Entries(job, rank, key)[a].key < key
  {
    if key > 0 {
      EntriesBelow(job, rank, key - 1);
    }
  }

  class LayerHost {
    const job: Job
    const rank: nat
    var log: seq<Entry>
    var dispatchMainIssued: nat
    var dispatchGradsIssued: nat
    var kernelYIssued: nat
    var kernelABwdIssued: nat

    constructor (job: Job, rank: nat)
      ensures this.job == job && this.rank == rank && At(0, 0) && Counted(0)
    {
      this.job, this.rank, log := job, rank, [];
      dispatchMainIssued, dispatchGradsIssued, kernelYIssued, kernelABwdIssued := 0, 0, 0, 0;
    }

    /** The host has come to program point t of call i. */
    ghost predicate At(i: nat, t: nat)
      reads this`log
    {
      forall key: nat :: key == Key(i, t) ==> log == Entries(job, rank, key)
    }

    /** The issued counters stand where the calls before i leave them. */
    predicate Counted(i: nat)
      reads this
    {
      && i <= |job.calls|
      && dispatchMainIssued == Issued(job, rank, DispatchMain, i) && dispatchGradsIssued == Issued(job, rank, DispatchGrads, i)
      && kernelYIssued == Issued(job, rank, KernelY, i) && kernelABwdIssued == Issued(job, rank, KernelABwd, i)
    }

    /** The host enqueues, or, for its own poll, blocks. */
    method Enqueue(i: nat, t: nat, op: Op)
      requires t < STAGES && At(i, t) && op.Op? && op == OpAt(job, rank, i, t)
      modifies this`log
      ensures At(i, t + 1)
    {
      assert Key(i, t) / STAGES == i && Key(i, t) % STAGES == t;
      assert log == Entries(job, rank, Key(i, t));
      log := log + [Entry(Key(i, t), op)];
    }

    lemma Nothing(i: nat, t: nat)
      requires t < STAGES && At(i, t) && OpAt(job, rank, i, t) == None
      ensures At(i, t + 1)
    {
      assert Key(i, t) / STAGES == i && Key(i, t) % STAGES == t;
      assert log == Entries(job, rank, Key(i, t));
    }

    /** Buffer.dispatch: metadata, the host poll, the fills, and the main kernel; metadata_done is recorded
      * just before the main kernel. */
    method Dispatch(i: nat)
      requires i < |job.calls| && job.calls[i] == Forward && At(i, 3)
      modifies this`log, this`dispatchMainIssued
      ensures At(i, 10) && dispatchMainIssued == old(dispatchMainIssued) + 1
    {
      Enqueue(i, 3, Op(Comm, Kernel(PreMemset)));
      Enqueue(i, 4, Op(Comm, Kernel(Metadata)));
      Enqueue(i, 5, Op(Comm, Kernel(CopyPrefix)));
      Enqueue(i, 6, Op(Host, PollCounts));
      Enqueue(i, 7, Op(Comm, Kernel(FillTiles)));
      Enqueue(i, 8, Op(Comm, Kernel(PostMemsets)));
      dispatchMainIssued := dispatchMainIssued + 1;
      Enqueue(i, 9, Op(Comm, Kernel(DispatchMain)));
    }

    /** The layer-start edges: both side streams join the caller's. */
    method StartLayer(i: nat)
      requires i < |job.calls| && At(i, 0)
      modifies this`log
      ensures At(i, 3)
    {
      Enqueue(i, 0, Op(Caller, Kernel(CallerWork)));
      Enqueue(i, 1, Op(Comm, WaitStream(Caller, 1)));
      Enqueue(i, 2, Op(Compute, WaitStream(Caller, 2)));
    }

    /** The forward layer. */
    method RunForward(i: nat)
      requires i < |job.calls| && job.calls[i] == Forward && At(i, 0) && Counted(i)
      modifies this
      ensures At(i + 1, 0) && Counted(i + 1)
    {
      StartLayer(i);
      Dispatch(i);
      ForwardGates(i);
      ForwardCompute(i);
      FinishForward(i);
    }

    method ForwardGates(i: nat)
      requires i < |job.calls| && job.calls[i] == Forward && At(i, 10)
      requires dispatchMainIssued == Issued(job, rank, DispatchMain, i + 1)
      modifies this`log
      ensures At(i, 13)
    {
      Enqueue(i, 10, Op(Compute, WaitStream(Comm, 9)));
      Enqueue(i, 11, Op(Compute, WaitFlag(DispatchMain, dispatchMainIssued)));
      Enqueue(i, 12, Op(Compute, WaitStream(Caller, 12)));
    }

    /** Combine, the level-2 compression on the caller's stream, and the layer-end edges. */
    method FinishForward(i: nat)
      requires i < |job.calls| && job.calls[i] == Forward && At(i, 16)
      modifies this`log
      ensures At(i + 1, 0)
    {
      Enqueue(i, 16, Op(Comm, Kernel(Combine)));
      CompressPool(i);
      ExitForward(i);
    }

    method CompressPool(i: nat)
      requires i < |job.calls| && job.calls[i] == Forward && At(i, 17)
      modifies this`log
      ensures At(i, 19)
    {
      if job.level(rank, i) == 2 {
        Enqueue(i, 17, Op(Caller, WaitStream(Compute, 17)));
        Enqueue(i, 18, Op(Caller, Kernel(Compress)));
      } else {
        Nothing(i, 17);
        Nothing(i, 18);
      }
    }

    method ExitForward(i: nat)
      requires i < |job.calls| && job.calls[i] == Forward && At(i, 19)
      modifies this`log
      ensures At(i + 1, 0)
    {
      Enqueue(i, 19, Op(Caller, WaitStream(Comm, 19)));
      Enqueue(i, 20, Op(Caller, WaitStream(Compute, 20)));
      assert Key(i, 21) == Key(i + 1, 0);
    }

    /** Kernels A and Y, and the communicate stream's gate on kernel Y; an empty rank has none of them. */
    method ForwardCompute(i: nat)
      requires i < |job.calls| && job.calls[i] == Forward && At(i, 13) && kernelYIssued == Issued(job, rank, KernelY, i)
      modifies this`log, this`kernelYIssued
      ensures At(i, 16) && kernelYIssued == Issued(job, rank, KernelY, i + 1)
    {
      if !job.empty(rank, i) {
        Enqueue(i, 13, Op(Compute, Kernel(KernelA)));
        kernelYIssued := kernelYIssued + 1;
        Enqueue(i, 14, Op(Compute, Kernel(KernelY)));
      } else {
        Nothing(i, 13);
        Nothing(i, 14);
      }
      if !job.empty(rank, i) {
        Enqueue(i, 15, Op(Comm, WaitFlag(KernelY, kernelYIssued)));
      } else {
        Nothing(i, 15);
      }
    }

    /** The backward layer. */
    method RunBackward(i: nat)
      requires i < |job.calls| && job.calls[i] == Backward && At(i, 0) && Counted(i)
      modifies this
      ensures At(i + 1, 0) && Counted(i + 1)
    {
      StartLayer(i);
      GradsDispatch(i);
      BackwardCompute(i);
      FinishBackward(i);
    }

    /** The zeroed scratch, dispatch_grads, and the compute stream's gates on it. */
    method GradsDispatch(i: nat)
      requires i < |job.calls| && job.calls[i] == Backward && At(i, 3)
      requires dispatchGradsIssued == Issued(job, rank, DispatchGrads, i)
      modifies this`log, this`dispatchGradsIssued
      ensures At(i, 9) && dispatchGradsIssued == Issued(job, rank, DispatchGrads, i + 1)
    {
      Enqueue(i, 3, Op(Compute, Kernel(ZeroScratch)));
      Enqueue(i, 4, Op(Compute, Kernel(Prepare)));
      Enqueue(i, 5, Op(Comm, Kernel(ZeroArrivals)));
      dispatchGradsIssued := dispatchGradsIssued + 1;
      Enqueue(i, 6, Op(Comm, Kernel(DispatchGrads)));
      Enqueue(i, 7, Op(Compute, WaitStream(Comm, 6)));
      Enqueue(i, 8, Op(Compute, WaitFlag(DispatchGrads, dispatchGradsIssued)));
    }

    /** combine_grads, the weight gradients or their zeroing, and the exit edges. */
    method FinishBackward(i: nat)
      requires i < |job.calls| && job.calls[i] == Backward && At(i, 14)
      modifies this`log
      ensures At(i + 1, 0)
    {
      Enqueue(i, 14, Op(Comm, Kernel(CombineGrads)));
      WeightGradients(i);
      ExitBackward(i);
    }

    method WeightGradients(i: nat)
      requires i < |job.calls| && job.calls[i] == Backward && At(i, 15)
      modifies this`log
      ensures At(i, 17)
    {
      if !job.empty(rank, i) {
        Enqueue(i, 15, Op(Compute, Kernel(WeightGrads)));
        Nothing(i, 16);
      } else {
        Nothing(i, 15);
        Enqueue(i, 16, Op(Compute, Kernel(ZeroWeightGrads)));
      }
    }

    method ExitBackward(i: nat)
      requires i < |job.calls| && job.calls[i] == Backward && At(i, 17)
      modifies this`log
      ensures At(i + 1, 0)
    {
      Enqueue(i, 17, Op(Caller, WaitStream(Comm, 17)));
      Enqueue(i, 18, Op(Caller, WaitStream(Compute, 18)));
      Nothing(i, 19);
      Nothing(i, 20);
      assert Key(i, 21) == Key(i + 1, 0);
    }

    method BackwardCompute(i: nat)
      requires i < |job.calls| && job.calls[i] == Backward && At(i, 9)
      requires kernelABwdIssued == Issued(job, rank, KernelABwd, i)
      modifies this`log, this`kernelABwdIssued
      ensures At(i, 14) && kernelABwdIssued == Issued(job, rank, KernelABwd, i + 1)
    {
      RestoreActivations(i);
      BackwardKernels(i);
    }

    /** What checkpointing left out of the forward pass is rebuilt. */
    method RestoreActivations(i: nat)
      requires i < |job.calls| && job.calls[i] == Backward && At(i, 9)
      modifies this`log
      ensures At(i, 11)
    {
      if job.level(rank, i) == 2 && !job.empty(rank, i) {
        Enqueue(i, 9, Op(Compute, Kernel(Reexpand)));
      } else {
        Nothing(i, 9);
      }
      if job.level(rank, i) >= 1 && !job.empty(rank, i) {
        Enqueue(i, 10, Op(Compute, Kernel(Recompute)));
      } else {
        Nothing(i, 10);
      }
    }

    /** The backward kernels and the communicate stream's gate on the second; an empty rank has none of them. */
    method BackwardKernels(i: nat)
      requires i < |job.calls| && job.calls[i] == Backward && At(i, 11)
      requires kernelABwdIssued == Issued(job, rank, KernelABwd, i)
      modifies this`log, this`kernelABwdIssued
      ensures At(i, 14) && kernelABwdIssued == Issued(job, rank, KernelABwd, i + 1)
    {
      if !job.empty(rank, i) {
        Enqueue(i, 11, Op(Compute, Kernel(KernelYBwd)));
        kernelABwdIssued := kernelABwdIssued + 1;
        Enqueue(i, 12, Op(Compute, Kernel(KernelABwd)));
      } else {
        Nothing(i, 11);
        Nothing(i, 12);
      }
      if !job.empty(rank, i) {
        Enqueue(i, 13, Op(Comm, WaitFlag(KernelABwd, kernelABwdIssued)));
      } else {
        Nothing(i, 13);
      }
    }

    /** A whole training run. */
    method RunAll()
      requires At(0, 0) && Counted(0)
      modifies this
      ensures log == Entries(job, rank, |job.calls| * STAGES)
    {
      for i := 0 to |job.calls|
        invariant At(i, 0) && Counted(i)
      {
        match job.calls[i]
        case Forward => RunForward(i);
        case Backward => RunBackward(i);
      }
      assert log == Entries(job, rank, Key(|job.calls|, 0));
    }
  }
}
