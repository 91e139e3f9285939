/** The layer orchestrator. The host of every rank enqueues kernels and waits on three FIFO streams; the
  * device runs the streams side by side. The calls are any sequence of forward and backward layers, the
  * ranks any number, and every rank may find any of its calls empty and use any checkpoint level. */
module Orchestrator {
  import opened Sums

  datatype Stream = Host | Caller | Comm | Compute

  datatype Kind =
    | CallerWork | PreMemset | Metadata | CopyPrefix | FillTiles | PostMemsets | DispatchMain
    | KernelA | KernelY | Combine | Compress
    | ZeroScratch | Prepare | ZeroArrivals | DispatchGrads | Reexpand | Recompute
    | KernelYBwd | KernelABwd | CombineGrads | WeightGrads | ZeroWeightGrads

  datatype Act =
    | Kernel(kind: Kind)
    | WaitStream(of: Stream, before: nat)      // everything enqueued on `of` before stage `before` of this call
    | WaitFlag(producer: Kind, target: nat)    // front-end wait for a started counter
    | PollCounts                               // the host waits for the receive counts of the metadata kernel

  datatype Op = None | Op(stream: Stream, act: Act)

  datatype Direction = Forward | Backward

  datatype Job = Job(
    ranks: nat,
    calls: seq<Direction>,
    empty: (nat, nat) -> bool,   // (rank, call): no token for the rank's experts, total_tiles == 0
    level: (nat, nat) -> nat     // activation checkpoint level
  )

  const STAGES := 21

  function Key(i: nat, t: nat): nat { i * STAGES + t }

  // ---------------------------------------------------------------------------
  // What the host enqueues.
  // ---------------------------------------------------------------------------

  /** The direction and stage at which a counted kernel is launched. */
  function ProducerDirection(k: Kind): Direction {
    if k in {DispatchMain, KernelY} then Forward else Backward
  }

  function StageOf(k: Kind): nat {
    match k
    case CallerWork => 0
    case PreMemset => 3 case Metadata => 4 case CopyPrefix => 5 case FillTiles => 7 case PostMemsets => 8
    case DispatchMain => 9 case KernelA => 13 case KernelY => 14 case Combine => 16 case Compress => 18
    case ZeroScratch => 3 case Prepare => 4 case ZeroArrivals => 5 case DispatchGrads => 6 case Reexpand => 9
    case Recompute => 10 case KernelYBwd => 11 case KernelABwd => 12 case CombineGrads => 14
    case WeightGrads => 15 case ZeroWeightGrads => 16
  }

  /** Launches of a counted kernel on a rank in its calls before i: the issued counter of the host. */
  function Issued(job: Job, rank: nat, k: Kind, i: nat): nat
    requires i <= |job.calls|
  {
    if i == 0 then 0 else Issued(job, rank, k, i - 1) + if Launches(job, rank, k, i - 1) then 1 else 0
  }

  predicate Launches(job: Job, rank: nat, k: Kind, i: nat)
    requires i < |job.calls|
  {
    job.calls[i] == ProducerDirection(k) && (k in {KernelY, KernelABwd} ==> !job.empty(rank, i))
  }

  function When(c: bool, op: Op): Op { if c then op else None }

  function ForwardOp(job: Job, rank: nat, i: nat, t: nat): Op
    requires i < |job.calls|
  {
    var busy, level := !job.empty(rank, i), job.level(rank, i);
    if t == 0 then Op(Caller, Kernel(CallerWork))
    else if t == 1 then Op(Comm, WaitStream(Caller, 1))
    else if t == 2 then Op(Compute, WaitStream(Caller, 2))
    else if t == 3 then Op(Comm, Kernel(PreMemset))
    else if t == 4 then Op(Comm, Kernel(Metadata))
    else if t == 5 then Op(Comm, Kernel(CopyPrefix))
    else if t == 6 then Op(Host, PollCounts)
    else if t == 7 then Op(Comm, Kernel(FillTiles))
    else if t == 8 then Op(Comm, Kernel(PostMemsets))
    else if t == 9 then Op(Comm, Kernel(DispatchMain))
    else if t == 10 then Op(Compute, WaitStream(Comm, 9))
    else if t == 11 then Op(Compute, WaitFlag(DispatchMain, Issued(job, rank, DispatchMain, i + 1)))
    else if t == 12 then Op(Compute, WaitStream(Caller, 12))
    else if t == 13 then When(busy, Op(Compute, Kernel(KernelA)))
    else if t == 14 then When(busy, Op(Compute, Kernel(KernelY)))
    else if t == 15 then When(busy, Op(Comm, WaitFlag(KernelY, Issued(job, rank, KernelY, i + 1))))
    else if t == 16 then Op(Comm, Kernel(Combine))
    else if t == 17 then When(level == 2, Op(Caller, WaitStream(Compute, 17)))
    else if t == 18 then When(level == 2, Op(Caller, Kernel(Compress)))
    else if t == 19 then Op(Caller, WaitStream(Comm, 19))
    else if t == 20 then Op(Caller, WaitStream(Compute, 20))
    else None
  }

  function BackwardOp(job: Job, rank: nat, i: nat, t: nat): Op
    requires i < |job.calls|
  {
    var busy, level := !job.empty(rank, i), job.level(rank, i);
    if t == 0 then Op(Caller, Kernel(CallerWork))
    else if t == 1 then Op(Comm, WaitStream(Caller, 1))
    else if t == 2 then Op(Compute, WaitStream(Caller, 2))
    else if t == 3 then Op(Compute, Kernel(ZeroScratch))
    else if t == 4 then Op(Compute, Kernel(Prepare))
    else if t == 5 then Op(Comm, Kernel(ZeroArrivals))
    else if t == 6 then Op(Comm, Kernel(DispatchGrads))
    else if t == 7 then Op(Compute, WaitStream(Comm, 6))
    else if t == 8 then Op(Compute, WaitFlag(DispatchGrads, Issued(job, rank, DispatchGrads, i + 1)))
    else if t == 9 then When(busy && level == 2, Op(Compute, Kernel(Reexpand)))
    else if t == 10 then When(busy && level >= 1, Op(Compute, Kernel(Recompute)))
    else if t == 11 then When(busy, Op(Compute, Kernel(KernelYBwd)))
    else if t == 12 then When(busy, Op(Compute, Kernel(KernelABwd)))
    else if t == 13 then When(busy, Op(Comm, WaitFlag(KernelABwd, Issued(job, rank, KernelABwd, i + 1))))
    else if t == 14 then Op(Comm, Kernel(CombineGrads))
    else if t == 15 then When(busy, Op(Compute, Kernel(WeightGrads)))
    else if t == 16 then When(!busy, Op(Compute, Kernel(ZeroWeightGrads)))
    else if t == 17 then Op(Caller, WaitStream(Comm, 17))
    else if t == 18 then Op(Caller, WaitStream(Compute, 18))
    else None
  }

  /** The operation at stage t of call i, if the rank's host issues one there. */
  function OpAt(job: Job, rank: nat, i: nat, t: nat): Op {
    if i >= |job.calls| then None
    else match job.calls[i]
      case Forward => ForwardOp(job, rank, i, t)
      case Backward => BackwardOp(job, rank, i, t)
  }

  // ---------------------------------------------------------------------------
  // What the device does.
  // ---------------------------------------------------------------------------

  // Phases of an operation. A kernel is signalled when everything it publishes through counters or peer
  // buffers (arrivals, stamps, rows for another rank) is out; it still runs until it is finished.
  const IDLE: nat := 0
  const STARTED := 1
  const SIGNALLED := 2
  const FINISHED := 3

  datatype State = State(pc: nat -> nat, phase: (nat, nat, nat) -> nat)

  datatype Action =
    | HostStep(rank: nat)
    | Begin(rank: nat, call: nat, stage: nat)
    | Pass(rank: nat, call: nat, stage: nat)
    | Signal(rank: nat, call: nat, stage: nat)
    | End(rank: nat, call: nat, stage: nat)

  function Init(): State {
    State((rank: nat) => 0, (rank: nat, i: nat, t: nat) => IDLE)
  }

  function PcAfter(s: State, rank: nat, r: nat): nat {
    if r == rank then s.pc(r) + 1 else s.pc(r)
  }

  function SetPc(s: State, rank: nat): State {
    s.(pc := (r: nat) => PcAfter(s, rank, r))
  }

  function PhaseAfter(s: State, rank: nat, i: nat, t: nat, v: nat, r: nat, j: nat, u: nat): nat {
    if r == rank && j == i && u == t then v else s.phase(r, j, u)
  }

  function SetPhase(s: State, rank: nat, i: nat, t: nat, v: nat): State {
    s.(phase := (r: nat, j: nat, u: nat) => PhaseAfter(s, rank, i, t, v, r, j, u))
  }

  predicate OnStream(job: Job, rank: nat, i: nat, t: nat, of: Stream) {
    t < STAGES && OpAt(job, rank, i, t).Op? && OpAt(job, rank, i, t).stream == of
  }

  /** Everything the host enqueued on a stream before `key` has finished. */
  ghost predicate StreamJoined(job: Job, s: State, rank: nat, of: Stream, key: nat) {
    forall j: nat, u: nat :: OnStream(job, rank, j, u, of) && Key(j, u) < key ==> s.phase(rank, j, u) >= FINISHED
  }

  /** The operations of a stream run in the order they were enqueued. */
  ghost predicate AtHead(job: Job, s: State, rank: nat, i: nat, t: nat) {
    && t < STAGES && OpAt(job, rank, i, t).Op? && OpAt(job, rank, i, t).stream != Host
    && Key(i, t) < s.pc(rank)
    && StreamJoined(job, s, rank, OpAt(job, rank, i, t).stream, Key(i, t))
  }

  /** Call i of the rank launches kernel k. */
  predicate IsKernel(job: Job, rank: nat, i: nat, k: Kind) {
    OpAt(job, rank, i, StageOf(k)).Op? && OpAt(job, rank, i, StageOf(k)).act == Kernel(k)
  }

  ghost function HasStarted(job: Job, s: State, rank: nat, k: Kind): nat -> bool {
    (j: nat) => IsKernel(job, rank, j, k) && s.phase(rank, j, StageOf(k)) >= STARTED
  }

  /** The started flag of a counted kernel: one increment per instance that has begun. */
  ghost function FlagValue(job: Job, s: State, rank: nat, k: Kind): nat {
    Count(HasStarted(job, s, rank, k), |job.calls|)
  }

  ghost predicate WaitOver(job: Job, s: State, rank: nat, i: nat, act: Act) {
    match act
    case WaitStream(of, before) => StreamJoined(job, s, rank, of, Key(i, before))
    case WaitFlag(k, target) => FlagValue(job, s, rank, k) >= target
    case _ => false
  }

  /** Kernels that exchange data with the same kernel of every other rank. */
  predicate Collective(k: Kind) {
    k in {Metadata, DispatchMain, Combine, DispatchGrads, CombineGrads}
  }

  /** On all ranks: kernel k of call i, where it is launched at all, is past phase v. */
  ghost predicate Everywhere(job: Job, s: State, i: nat, k: Kind, v: nat) {
    forall rank: nat :: rank < job.ranks && IsKernel(job, rank, i, k) ==> s.phase(rank, i, StageOf(k)) >= v
  }

  /** What a running kernel spins on before all it has to publish is out: the other ranks' half of the
    * exchange, the arrivals of its pool tiles, and, for a combine, the stamps of the kernel that feeds it on
    * the sending rank. */
  ghost predicate SpinsOver(job: Job, s: State, rank: nat, i: nat, k: Kind) {
    && (Collective(k) ==> Everywhere(job, s, i, k, STARTED))
    && (k in {KernelA, KernelY} ==> s.phase(rank, i, StageOf(DispatchMain)) >= SIGNALLED)
    && (k in {KernelYBwd, KernelABwd} ==> s.phase(rank, i, StageOf(DispatchGrads)) >= SIGNALLED)
    && (k == Combine ==> Everywhere(job, s, i, KernelY, SIGNALLED))
    && (k == CombineGrads ==> Everywhere(job, s, i, KernelABwd, SIGNALLED))
  }

  ghost predicate Enabled(job: Job, s: State, a: Action) {
    match a
    case HostStep(rank) =>
      rank < job.ranks && s.pc(rank) < |job.calls| * STAGES
      && (OpAt(job, rank, s.pc(rank) / STAGES, s.pc(rank) % STAGES).Op?
          && OpAt(job, rank, s.pc(rank) / STAGES, s.pc(rank) % STAGES).act == PollCounts
          ==> s.phase(rank, s.pc(rank) / STAGES, StageOf(Metadata)) >= FINISHED)
    case Begin(rank, i, t) =>
      rank < job.ranks && AtHead(job, s, rank, i, t) && OpAt(job, rank, i, t).act.Kernel? && s.phase(rank, i, t) == IDLE
    case Pass(rank, i, t) =>
      rank < job.ranks && AtHead(job, s, rank, i, t) && s.phase(rank, i, t) == IDLE
      && WaitOver(job, s, rank, i, OpAt(job, rank, i, t).act)
    case Signal(rank, i, t) =>
      rank < job.ranks && OpAt(job, rank, i, t).Op? && OpAt(job, rank, i, t).act.Kernel? && s.phase(rank, i, t) == STARTED
      && SpinsOver(job, s, rank, i, OpAt(job, rank, i, t).act.kind)
    case End(rank, i, t) =>
      rank < job.ranks && OpAt(job, rank, i, t).Op? && s.phase(rank, i, t) == SIGNALLED
  }

  ghost function Next(job: Job, s: State, a: Action): State
    requires Enabled(job, s, a)
  {
    match a
    case HostStep(rank) =>
      var i, t := s.pc(rank) / STAGES, s.pc(rank) % STAGES;
      var s' := SetPc(s, rank);
      if OpAt(job, rank, i, t).Op? && OpAt(job, rank, i, t).act == PollCounts then SetPhase(s', rank, i, t, FINISHED) else s'
    case Begin(rank, i, t) => SetPhase(s, rank, i, t, STARTED)
    case Pass(rank, i, t) => SetPhase(s, rank, i, t, FINISHED)
    case Signal(rank, i, t) => SetPhase(s, rank, i, t, SIGNALLED)
    case End(rank, i, t) => SetPhase(s, rank, i, t, FINISHED)
  }

  ghost predicate Run(job: Job, steps: seq<Action>, s: State)
    decreases |steps|
  {
    if steps == [] then s == Init()
    else
      var n := |steps| - 1;
      exists s0 :: Run(job, steps[..n], s0) && Enabled(job, s0, steps[n]) && s == Next(job, s0, steps[n])
  }

  ghost predicate Reachable(job: Job, s: State) {
    exists steps :: Run(job, steps, s)
  }
}
