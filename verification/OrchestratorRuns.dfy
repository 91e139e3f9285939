/** Invariants of the orchestrator over every run, and progress: no reachable state of any number of ranks
  * is stuck, and every run is finite. */
module OrchestratorRuns {
  import opened Sums
  import opened Orchestrator

  /** What holds of one operation in every reachable state. */
  ghost predicate Settled(job: Job, s: State, rank: nat, i: nat, t: nat) {
    var op := OpAt(job, rank, i, t);
    && (s.phase(rank, i, t) != IDLE ==> op.Op? && Key(i, t) < s.pc(rank))
    && (s.phase(rank, i, t) != IDLE && op.Op? && op.stream != Host ==> StreamJoined(job, s, rank, op.stream, Key(i, t)))
    && (s.phase(rank, i, t) != IDLE && op.Op? && !op.act.Kernel? ==> s.phase(rank, i, t) == FINISHED)
    && (s.phase(rank, i, t) != IDLE && op.Op? && (op.act.WaitStream? || op.act.WaitFlag?) ==> WaitOver(job, s, rank, i, op.act))
    && (s.phase(rank, i, t) >= SIGNALLED && op.Op? && op.act.Kernel? ==> SpinsOver(job, s, rank, i, op.act.kind))
    && (op.Op? && op.act == PollCounts && Key(i, t) < s.pc(rank) ==>
          s.phase(rank, i, t) == FINISHED && s.phase(rank, i, StageOf(Metadata)) >= FINISHED)
  }

  ghost predicate Inv(job: Job, s: State) {
    && (forall rank: nat :: rank < job.ranks ==> s.pc(rank) <= |job.calls| * STAGES)
    && (forall rank: nat, i: nat, t: nat :: rank < job.ranks && t < STAGES ==> Settled(job, s, rank, i, t))
  }

  /** Hosts and phases only move forward. */
  ghost predicate Later(s: State, s': State) {
    && (forall rank: nat :: s.pc(rank) <= s'.pc(rank))
    && (forall rank: nat, i: nat, t: nat :: s.phase(rank, i, t) <= s'.phase(rank, i, t))
  }

  lemma StepLater(job: Job, s: State, a: Action)
    requires Inv(job, s) && Enabled(job, s, a)
    ensures Later(s, Next(job, s, a))
  {
    if a.HostStep? {
      var i, t := s.pc(a.rank) / STAGES, s.pc(a.rank) % STAGES;
      assert Settled(job, s, a.rank, i, t);
    }
  }

  lemma FlagMono(job: Job, s: State, s': State, rank: nat, k: Kind)
    requires Later(s, s')
    ensures FlagValue(job, s, rank, k) <= FlagValue(job, s', rank, k)
  {
    var p, q := HasStarted(job, s, rank, k), HasStarted(job, s', rank, k);
    forall j: nat | j < |job.calls| && p(j) ensures q(j) {
      assert s.phase(rank, j, StageOf(k)) <= s'.phase(rank, j, StageOf(k));
    }
    CountLe(p, q, |job.calls|);
  }

  lemma WaitMono(job: Job, s: State, s': State, rank: nat, i: nat, act: Act)
    requires Later(s, s') && WaitOver(job, s, rank, i, act)
    ensures WaitOver(job, s', rank, i, act)
  {
    if act.WaitFlag? {
      FlagMono(job, s, s', rank, act.producer);
    }
  }

  lemma SpinsMono(job: Job, s: State, s': State, rank: nat, i: nat, k: Kind)
    requires Later(s, s') && SpinsOver(job, s, rank, i, k)
    ensures SpinsOver(job, s', rank, i, k)
  {
  }

  /** An operation whose own phase and enqueueing did not change keeps its invariant. */
  lemma SettledMono(job: Job, s: State, s': State, rank: nat, i: nat, t: nat)
    requires Later(s, s') && Settled(job, s, rank, i, t) && s'.phase(rank, i, t) == s.phase(rank, i, t)
    requires Key(i, t) < s.pc(rank) || s'.pc(rank) <= Key(i, t) || !OpAt(job, rank, i, t).Op?
             || OpAt(job, rank, i, t).act != PollCounts
    ensures Settled(job, s', rank, i, t)
  {
    var op := OpAt(job, rank, i, t);
    if s.phase(rank, i, t) != IDLE && op.Op? {
      if op.act.WaitStream? || op.act.WaitFlag? {
        WaitMono(job, s, s', rank, i, op.act);
      } else if op.act.Kernel? && s.phase(rank, i, t) >= SIGNALLED {
        SpinsMono(job, s, s', rank, i, op.act.kind);
      }
    }
  }

  lemma SettledActed(job: Job, s: State, a: Action, i: nat, t: nat)
    requires Inv(job, s) && Enabled(job, s, a) && !a.HostStep? && a.call == i && a.stage == t && t < STAGES
    ensures Settled(job, Next(job, s, a), a.rank, i, t)
  {
    var s' := Next(job, s, a);
    StepLater(job, s, a);
    assert Settled(job, s, a.rank, i, t);
    var op := OpAt(job, a.rank, i, t);
    match a
    case Begin(_, _, _) =>
    case Pass(_, _, _) => WaitMono(job, s, s', a.rank, i, op.act);
    case Signal(_, _, _) => SpinsMono(job, s, s', a.rank, i, op.act.kind);
    case End(_, _, _) => SpinsMono(job, s, s', a.rank, i, op.act.kind);
  }

  lemma InvStep(job: Job, s: State, a: Action)
    requires Inv(job, s) && Enabled(job, s, a)
    ensures Inv(job, Next(job, s, a))
  {
    var s' := Next(job, s, a);
    StepLater(job, s, a);
    forall rank: nat, i: nat, t: nat | rank < job.ranks && t < STAGES ensures Settled(job, s', rank, i, t) {
      assert Settled(job, s, rank, i, t);
      if a.HostStep? && rank == a.rank && Key(i, t) == s.pc(rank) {
        HostSettled(job, s, a, i, t);
      } else if !a.HostStep? && rank == a.rank && a.call == i && a.stage == t {
        SettledActed(job, s, a, i, t);
      } else {
        SettledMono(job, s, s', rank, i, t);
      }
    }
  }

  lemma HostSettled(job: Job, s: State, a: Action, i: nat, t: nat)
    requires Inv(job, s) && Enabled(job, s, a) && a.HostStep? && t < STAGES && Key(i, t) == s.pc(a.rank)
    ensures Settled(job, Next(job, s, a), a.rank, i, t)
  {
    assert Settled(job, s, a.rank, i, t);
    assert s.pc(a.rank) / STAGES == i && s.pc(a.rank) % STAGES == t;
    PollOnHost(job, a.rank, i, t);
  }

  lemma PollOnHost(job: Job, rank: nat, i: nat, t: nat)
    ensures OpAt(job, rank, i, t).Op? ==> (OpAt(job, rank, i, t).stream == Host <==> OpAt(job, rank, i, t).act == PollCounts)
    ensures OpAt(job, rank, i, t).Op? && OpAt(job, rank, i, t).act == PollCounts ==> t == 6 && IsKernel(job, rank, i, Metadata)
    ensures OpAt(job, rank, i, t).Op? && OpAt(job, rank, i, t).act.Kernel? ==> t == StageOf(OpAt(job, rank, i, t).act.kind)
  {
  }

  lemma {:induction false} RunInv(job: Job, steps: seq<Action>, s: State)
    requires Run(job, steps, s)
    ensures Inv(job, s)
    decreases |steps|
  {
    if steps != [] {
      var n := |steps| - 1;
      var s0 :| Run(job, steps[..n], s0) && Enabled(job, s0, steps[n]) && s == Next(job, s0, steps[n]);
      RunInv(job, steps[..n], s0);
      InvStep(job, s0, steps[n]);
    } else {
      assert forall rank: nat :: s.pc(rank) == 0;
    }
  }

  lemma ReachableInv(job: Job, s: State)
    requires Reachable(job, s)
    ensures Inv(job, s)
  {
    var steps :| Run(job, steps, s);
    RunInv(job, steps, s);
  }

  // ---------------------------------------------------------------------------
  // Progress.
  // ---------------------------------------------------------------------------

  ghost predicate Done(job: Job, s: State, rank: nat, i: nat, t: nat) {
    Key(i, t) < s.pc(rank) && (OpAt(job, rank, i, t).Op? ==> s.phase(rank, i, t) >= FINISHED)
  }

  /** On every rank everything before the key is over. */
  ghost predicate DoneBelow(job: Job, s: State, key: nat) {
    forall rank: nat, i: nat, t: nat :: rank < job.ranks && t < STAGES && Key(i, t) < key ==> Done(job, s, rank, i, t)
  }

  ghost predicate AllDone(job: Job, s: State) {
    DoneBelow(job, s, |job.calls| * STAGES)
  }

  lemma {:induction false} IssuedStarted(job: Job, s: State, rank: nat, k: Kind, n: nat)
    requires n <= |job.calls| && k in {DispatchMain, DispatchGrads, KernelY, KernelABwd}
    requires forall j: nat :: j < n && Launches(job, rank, k, j) ==> HasStarted(job, s, rank, k)(j)
    ensures Issued(job, rank, k, n) <= Count(HasStarted(job, s, rank, k), n)
  {
    if n > 0 {
      IssuedStarted(job, s, rank, k, n - 1);
    }
  }

  lemma {:induction false} CountGrows(p: nat -> bool, n: nat, m: nat)
    requires n <= m
    ensures Count(p, n) <= Count(p, m)
    decreases m
  {
    if n < m {
      CountGrows(p, n, m - 1);
    }
  }

  /** A launch is where the counter says, one of the four counted kernels. */
  lemma LaunchIsKernel(job: Job, rank: nat, k: Kind, j: nat)
    requires j < |job.calls| && k in {DispatchMain, DispatchGrads, KernelY, KernelABwd}
    ensures Launches(job, rank, k, j) <==> IsKernel(job, rank, j, k)
  {
  }

  lemma FlagWaitShape(job: Job, rank: nat, i: nat, t: nat)
    requires t < STAGES && OpAt(job, rank, i, t).Op? && OpAt(job, rank, i, t).act.WaitFlag?
    ensures i < |job.calls|
    ensures var w := OpAt(job, rank, i, t).act;
            && w.producer in {DispatchMain, DispatchGrads, KernelY, KernelABwd}
            && w.target == Issued(job, rank, w.producer, i + 1)
            && Launches(job, rank, w.producer, i) && StageOf(w.producer) < t
  {
  }

  /** Once everything before a flag wait is over, the flag has reached the issued count. */
  lemma FlagReached(job: Job, s: State, rank: nat, i: nat, t: nat)
    requires rank < job.ranks && t < STAGES && DoneBelow(job, s, Key(i, t))
    requires OpAt(job, rank, i, t).Op? && OpAt(job, rank, i, t).act.WaitFlag?
    ensures WaitOver(job, s, rank, i, OpAt(job, rank, i, t).act)
  {
    FlagWaitShape(job, rank, i, t);
    var k := OpAt(job, rank, i, t).act.producer;
    forall j: nat | j < i + 1 && Launches(job, rank, k, j) ensures HasStarted(job, s, rank, k)(j) {
      LaunchIsKernel(job, rank, k, j);
      assert Done(job, s, rank, j, StageOf(k));
    }
    IssuedStarted(job, s, rank, k, i + 1);
    CountGrows(HasStarted(job, s, rank, k), i + 1, |job.calls|);
  }

  lemma StreamWaitReached(job: Job, s: State, rank: nat, i: nat, t: nat)
    requires rank < job.ranks && t < STAGES && DoneBelow(job, s, Key(i, t))
    requires OpAt(job, rank, i, t).Op? && OpAt(job, rank, i, t).act.WaitStream?
    ensures WaitOver(job, s, rank, i, OpAt(job, rank, i, t).act)
  {
    var of, before := OpAt(job, rank, i, t).act.of, OpAt(job, rank, i, t).act.before;
    assert before <= t;
    forall j: nat, u: nat | OnStream(job, rank, j, u, of) && Key(j, u) < Key(i, before)
      ensures s.phase(rank, j, u) >= FINISHED {
      assert Done(job, s, rank, j, u);
    }
  }

  lemma HeadReached(job: Job, s: State, rank: nat, i: nat, t: nat)
    requires rank < job.ranks && t < STAGES && DoneBelow(job, s, Key(i, t)) && Key(i, t) < s.pc(rank)
    requires OpAt(job, rank, i, t).Op? && OpAt(job, rank, i, t).stream != Host
    ensures AtHead(job, s, rank, i, t)
  {
    var of := OpAt(job, rank, i, t).stream;
    forall j: nat, u: nat | OnStream(job, rank, j, u, of) && Key(j, u) < Key(i, t) ensures s.phase(rank, j, u) >= FINISHED {
      assert Done(job, s, rank, j, u);
    }
  }

  lemma FeedersDone(job: Job, s: State, rank: nat, i: nat, k: Kind)
    requires rank < job.ranks && IsKernel(job, rank, i, k) && DoneBelow(job, s, Key(i, StageOf(k)))
    requires Collective(k) ==> Everywhere(job, s, i, k, STARTED)
    ensures SpinsOver(job, s, rank, i, k)
  {
    if k in {KernelA, KernelY} {
      assert Done(job, s, rank, i, StageOf(DispatchMain));
    } else if k in {KernelYBwd, KernelABwd} {
      assert Done(job, s, rank, i, StageOf(DispatchGrads));
    } else if k == Combine {
      forall r: nat | r < job.ranks && IsKernel(job, r, i, KernelY) ensures s.phase(r, i, StageOf(KernelY)) >= SIGNALLED {
        assert Done(job, s, r, i, StageOf(KernelY));
      }
    } else if k == CombineGrads {
      forall r: nat | r < job.ranks && IsKernel(job, r, i, KernelABwd) ensures s.phase(r, i, StageOf(KernelABwd)) >= SIGNALLED {
        assert Done(job, s, r, i, StageOf(KernelABwd));
      }
    }
  }

  lemma HostCanStep(job: Job, s: State, rank: nat, key: nat)
    requires Inv(job, s) && rank < job.ranks && key < |job.calls| * STAGES && DoneBelow(job, s, key)
    requires s.pc(rank) <= key
    ensures Enabled(job, s, HostStep(rank))
  {
    if key > 0 {
      assert Key((key - 1) / STAGES, (key - 1) % STAGES) == key - 1;
      assert Done(job, s, rank, (key - 1) / STAGES, (key - 1) % STAGES);
    }
    var i, t := key / STAGES, key % STAGES;
    PollOnHost(job, rank, i, t);
    if OpAt(job, rank, i, t).Op? && OpAt(job, rank, i, t).act == PollCounts {
      assert Done(job, s, rank, i, StageOf(Metadata));
    }
  }

  /** The earliest unfinished kernel of all ranks moves on, or its counterpart on another rank does. */
  lemma KernelCanStep(job: Job, s: State, rank: nat, i: nat, k: Kind) returns (a: Action)
    requires Inv(job, s) && rank < job.ranks && IsKernel(job, rank, i, k) && DoneBelow(job, s, Key(i, StageOf(k)))
    requires forall r: nat :: r < job.ranks ==> Key(i, StageOf(k)) < s.pc(r)
    requires s.phase(rank, i, StageOf(k)) < FINISHED
    ensures Enabled(job, s, a)
  {
    var t := StageOf(k);
    PollOnHost(job, rank, i, t);
    if s.phase(rank, i, t) == IDLE {
      HeadReached(job, s, rank, i, t);
      a := Begin(rank, i, t);
    } else if s.phase(rank, i, t) == SIGNALLED {
      a := End(rank, i, t);
    } else if Collective(k) && !Everywhere(job, s, i, k, STARTED) {
      var r: nat :| r < job.ranks && IsKernel(job, r, i, k) && s.phase(r, i, t) < STARTED;
      PollOnHost(job, r, i, t);
      HeadReached(job, s, r, i, t);
      a := Begin(r, i, t);
    } else {
      FeedersDone(job, s, rank, i, k);
      a := Signal(rank, i, t);
    }
  }

  lemma StepAt(job: Job, s: State, key: nat) returns (a: Action)
    requires Inv(job, s) && key < |job.calls| * STAGES && DoneBelow(job, s, key) && !DoneBelow(job, s, key + 1)
    ensures Enabled(job, s, a)
  {
    var rank: nat, i: nat, t: nat :| rank < job.ranks && t < STAGES && Key(i, t) < key + 1 && !Done(job, s, rank, i, t);
    assert Key(i, t) == key;
    if r: nat :| r < job.ranks && s.pc(r) <= key {
      HostCanStep(job, s, r, key);
      a := HostStep(r);
    } else {
      assert Settled(job, s, rank, i, t);
      PollOnHost(job, rank, i, t);
      var op := OpAt(job, rank, i, t);
      if op.act.Kernel? {
        a := KernelCanStep(job, s, rank, i, op.act.kind);
      } else {
        HeadReached(job, s, rank, i, t);
        if op.act.WaitFlag? {
          FlagReached(job, s, rank, i, t);
        } else {
          StreamWaitReached(job, s, rank, i, t);
        }
        a := Pass(rank, i, t);
      }
    }
  }

  lemma {:induction false} FindStep(job: Job, s: State, key: nat) returns (a: Action)
    requires Inv(job, s) && key <= |job.calls| * STAGES && DoneBelow(job, s, key) && !AllDone(job, s)
    ensures Enabled(job, s, a)
    decreases |job.calls| * STAGES - key
  {
    if DoneBelow(job, s, key + 1) {
      a := FindStep(job, s, key + 1);
    } else {
      a := StepAt(job, s, key);
    }
  }

  /** No deadlock: a reachable state in which anything is left to do can take a step. */
  lemma Progress(job: Job, s: State) returns (a: Action)
    requires Reachable(job, s) && !AllDone(job, s)
    ensures Enabled(job, s, a)
  {
    ReachableInv(job, s);
    a := FindStep(job, s, 0);
  }

  // ---------------------------------------------------------------------------
  // Every run is finite.
  // ---------------------------------------------------------------------------

  function PhaseLeft(s: State, rank: nat, key: nat): nat {
    var v := s.phase(rank, key / STAGES, key % STAGES);
    if v < FINISHED then FINISHED - v else 0
  }

  ghost function PhasesLeft(s: State, rank: nat): nat -> nat {
    (key: nat) => PhaseLeft(s, rank, key)
  }

  ghost function RankLeft(job: Job, s: State, rank: nat): nat {
    SumN(PhasesLeft(s, rank), |job.calls| * STAGES)
    + if s.pc(rank) < |job.calls| * STAGES then |job.calls| * STAGES - s.pc(rank) else 0
  }

  ghost function RanksLeft(job: Job, s: State): nat -> nat {
    (rank: nat) => RankLeft(job, s, rank)
  }

  ghost function WorkLeft(job: Job, s: State): nat {
    SumN(RanksLeft(job, s), job.ranks)
  }

  lemma {:induction false} SumNLe(f: nat -> nat, g: nat -> nat, n: nat)
    requires forall i: nat :: i < n ==> f(i) <= g(i)
    ensures SumN(f, n) <= SumN(g, n)
    ensures (exists i: nat :: i < n && f(i) < g(i)) ==> SumN(f, n) < SumN(g, n)
  {
    if n > 0 {
      SumNLe(f, g, n - 1);
    }
  }

  lemma LaterLeft(job: Job, s: State, s': State, rank: nat)
    requires Later(s, s')
    ensures RankLeft(job, s', rank) <= RankLeft(job, s, rank)
    ensures s.pc(rank) < |job.calls| * STAGES && s.pc(rank) < s'.pc(rank) ==> RankLeft(job, s', rank) < RankLeft(job, s, rank)
  {
    SumNLe(PhasesLeft(s', rank), PhasesLeft(s, rank), |job.calls| * STAGES);
  }

  lemma PhaseMoves(job: Job, s: State, s': State, rank: nat, i: nat, t: nat)
    requires Later(s, s') && i < |job.calls| && t < STAGES
    requires s.phase(rank, i, t) < s'.phase(rank, i, t) && s.phase(rank, i, t) < FINISHED
    ensures RankLeft(job, s', rank) < RankLeft(job, s, rank)
  {
    var key := Key(i, t);
    assert key / STAGES == i && key % STAGES == t && key < |job.calls| * STAGES;
    assert PhasesLeft(s', rank)(key) < PhasesLeft(s, rank)(key);
    SumNLe(PhasesLeft(s', rank), PhasesLeft(s, rank), |job.calls| * STAGES);
  }

  /** Every step uses up work, so a run can neither go on for ever nor, by Progress, stop early. */
  lemma StepDecreases(job: Job, s: State, a: Action)
    requires Reachable(job, s) && Enabled(job, s, a)
    ensures WorkLeft(job, Next(job, s, a)) < WorkLeft(job, s)
  {
    ReachableInv(job, s);
    var s' := Next(job, s, a);
    StepLater(job, s, a);
    forall r: nat | r < job.ranks ensures RankLeft(job, s', r) <= RankLeft(job, s, r) {
      LaterLeft(job, s, s', r);
    }
    RankMoves(job, s, a);
    assert RanksLeft(job, s')(a.rank) < RanksLeft(job, s)(a.rank);
    SumNLe(RanksLeft(job, s'), RanksLeft(job, s), job.ranks);
  }

  lemma RankMoves(job: Job, s: State, a: Action)
    requires Inv(job, s) && Enabled(job, s, a)
    ensures RankLeft(job, Next(job, s, a), a.rank) < RankLeft(job, s, a.rank) && a.rank < job.ranks
  {
    StepLater(job, s, a);
    if a.HostStep? {
      LaterLeft(job, s, Next(job, s, a), a.rank);
    } else {
      StageBound(job, a.rank, a.call, a.stage);
      PhaseMoves(job, s, Next(job, s, a), a.rank, a.call, a.stage);
    }
  }

  lemma StageBound(job: Job, rank: nat, i: nat, t: nat)
    requires OpAt(job, rank, i, t).Op?
    ensures i < |job.calls| && t < STAGES
  {
  }
}
