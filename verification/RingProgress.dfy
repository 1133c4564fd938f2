/** Progress of the ring: which events can move, and why only finitely many do. */
module RingProgress {
  import opened Common
  import opened RingPositions
  import opened RingMachine
  import opened RingInvariant
  import opened RingSteps

  // ----- somebody can move -----

  /** A worker has left early and main waits for a chunk that worker will never take up. */
  ghost predicate Stranded(cfg: Config, s: State)
    requires cfg.Valid()
  {
    s.pos == LastChunk(cfg) + 1 && exists w: nat :: w < |s.workers| && Strayed(cfg, s.workers[w])
  }

  predicate Strayed(cfg: Config, k: Worker)
    requires cfg.Valid()
  {
    k.pc.Exited? && k.pos + cfg.nchunks == LastChunk(cfg)
  }

  /** The worker's look at `input_count` is still to come after the chunk whose place the last chunk takes. */
  predicate AtRisk(cfg: Config, s: State, e: Event)
    requires cfg.Valid()
  {
    && e.WorkerMoves? && e.w < |s.workers|
    && s.workers[e.w].pc.Checking? && s.workers[e.w].pos + cfg.nchunks == LastChunk(cfg)
  }

  lemma MainCanMove(cfg: Config, s: State)
    requires WellFormed(cfg, s) && !s.pc.Finished?
    requires s.pc.AwaitWorkers? ==> s.chunks[s.idx].remainingWorkers == 0
    ensures MainStep(cfg, s) != s
  {
  }

  lemma WorkerCanMove(cfg: Config, s: State, w: nat)
    requires WellFormed(cfg, s) && w < cfg.nworkers
    requires s.workers[w].pc.Waiting? ==> s.chunks[s.workers[w].idx].generation == s.workers[w].gen
    requires !s.workers[w].pc.Exited? && !s.workers[w].pc.Crashed?
    ensures WorkerStep(cfg, s, w) != s
  {
    assert WorkerStep(cfg, s, w).workers[w] != s.workers[w];
  }

  lemma HandlerCanMove(cfg: Config, s: State, w: nat)
    requires WellFormed(cfg, s) && w < cfg.nworkers
    requires (s.workers[w].pc.Exited? || s.workers[w].pc.Crashed?) && !s.workers[w].reaped
    ensures HandlerStep(cfg, s, w) != s
  {
    assert HandlerStep(cfg, s, w).workers[w] != s.workers[w];
  }

  /** When main waits in vain, some worker owes the chunk it waits for. */
  lemma WhoOwes(cfg: Config, s: State) returns (w: nat)
    requires Inv(cfg, s) && s.pc.AwaitWorkers? && s.chunks[s.idx].remainingWorkers != 0
    ensures s.pos >= cfg.nchunks && s.pos - cfg.nchunks <= LastChunk(cfg)
    ensures w < cfg.nworkers && Done(s.workers[w]) == s.pos - cfg.nchunks
    ensures !(s.workers[w].sigchld && s.workers[w].pos == s.pos - cfg.nchunks)
  {
    LowDone(cfg, s);
    assert s.pos >= cfg.nchunks;
    var p: nat := s.pos - cfg.nchunks;
    assert Idx(cfg, p) == s.idx;
    assert s.chunks[Idx(cfg, p)].remainingWorkers == |Owing(s.workers, p)|;
    w :| w in Owing(s.workers, p);
  }

  /** An owing worker, or the handler on its behalf, can move; unless it has strayed. */
  lemma OwingCanMove(cfg: Config, s: State, w: nat) returns (e: Event)
    requires Inv(cfg, s) && WellFormed(cfg, s) && s.pc.AwaitWorkers? && w < cfg.nworkers
    requires s.pos >= cfg.nchunks && Done(s.workers[w]) == s.pos - cfg.nchunks
    requires !(s.workers[w].sigchld && s.workers[w].pos == s.pos - cfg.nchunks)
    requires !Stranded(cfg, s)
    ensures Next(cfg, s, e) != s
    ensures s.pos <= LastChunk(cfg) ==> !AtRisk(cfg, s, e)
  {
    var k := s.workers[w];
    assert WorkerInv(cfg, w, k, Published(cfg, s), Filled(cfg, s), Low(cfg, s));
    if k.pc.Crashed? {
      e := HandlerReaps(w);
      HandlerCanMove(cfg, s, w);
    } else {
      e := WorkerMoves(w);
      if k.pc.Waiting? {
        GenerationTest(cfg, s, w);
      }
      WorkerCanMove(cfg, s, w);
    }
  }

  /** No deadlock: unless main is finished or stranded, some event moves.  Before the last chunk is filled, it need not
      be a worker's risky look at `input_count`. */
  lemma SomeoneCanMove(cfg: Config, s: State) returns (e: Event)
    requires Inv(cfg, s) && WellFormed(cfg, s) && !s.pc.Finished? && !Stranded(cfg, s)
    ensures Next(cfg, s, e) != s
    ensures s.pos <= LastChunk(cfg) ==> !AtRisk(cfg, s, e)
  {
    if s.pc.AwaitWorkers? && s.chunks[s.idx].remainingWorkers != 0 {
      var w := WhoOwes(cfg, s);
      e := OwingCanMove(cfg, s, w);
    } else {
      MainCanMove(cfg, s);
      e := MainMoves;
    }
  }

  // ----- only finitely often -----

  function Sum(f: Worker -> int, workers: seq<Worker>): int {
    if workers == [] then 0 else f(workers[0]) + Sum(f, workers[1..])
  }

  lemma {:induction false} SumUpdate(f: Worker -> int, workers: seq<Worker>, w: nat, k: Worker)
    requires w < |workers|
    ensures Sum(f, workers[w := k]) == Sum(f, workers) - f(workers[w]) + f(k)
  {
    if w > 0 {
      SumUpdate(f, workers[1..], w - 1, k);
      assert workers[w := k][1..] == workers[1..][w - 1 := k];
    } else {
      assert workers[w := k][1..] == workers[1..];
    }
  }

  lemma {:induction false} SumNonNegative(f: Worker -> int, workers: seq<Worker>)
    requires forall k :: k in workers ==> f(k) >= 0
    ensures Sum(f, workers) >= 0
  {
    if workers != [] {
      SumNonNegative(f, workers[1..]);
    }
  }

  /** Slots a worker has still to attempt. */
  function Untried(cfg: Config): Worker -> int {
    (k: Worker) => |cfg.inputs| - |k.tried|
  }

  /** Steps to the restart of a dead worker. */
  function Pending(): Worker -> int {
    (k: Worker) => if !k.pc.Crashed? then 0 else if k.reaped then 1 else 2
  }

  /** Steps of a worker between slots. */
  function Walk(cfg: Config): Worker -> int
    requires cfg.Valid()
  {
    (k: Worker) => 6 * (LastChunk(cfg) - k.pos) +
                   match k.pc
                   case Waiting => 4
                   case Decoding => 3
                   case Checking => 2
                   case Crashed => 2
                   case Exited => if k.reaped then 0 else 1
  }

  /** Steps of main until it advances or is sent back to waiting by a restart. */
  function MainRank(cfg: Config, pc: MainPc): int {
    match pc
    case Finished => 0
    case Advance => 0
    case StoreGeneration => 1
    case StoreWorkers => 2
    case Fill => 3
    case Process(n) => 4 + cfg.nslots - n
    case Scan(n, restarted) => 5 + cfg.nslots + cfg.nworkers - n + if restarted then cfg.nworkers + 2 else 0
    case AwaitWorkers => 6 + cfg.nslots + cfg.nworkers
  }

  /** What is left to do, most significant first. */
  datatype Measure = Measure(untried: int, pending: int, laps: int, walk: int, rank: int)
  {
    predicate Below(m: Measure) {
      || untried < m.untried
      || (untried == m.untried && pending < m.pending)
      || (untried == m.untried && pending == m.pending && laps < m.laps)
      || (untried == m.untried && pending == m.pending && laps == m.laps && walk < m.walk)
      || (untried == m.untried && pending == m.pending && laps == m.laps && walk == m.walk && rank < m.rank)
    }

    predicate NonNegative() {
      untried >= 0 && pending >= 0 && laps >= 0 && walk >= 0 && rank >= 0
    }
  }

  function Left(cfg: Config, s: State): Measure
    requires cfg.Valid()
  {
    Measure(Sum(Untried(cfg), s.workers), Sum(Pending(), s.workers), LastChunk(cfg) + cfg.nchunks - s.pos,
            Sum(Walk(cfg), s.workers), MainRank(cfg, s.pc))
  }

  lemma LeftNonNegative(cfg: Config, s: State)
    requires Inv(cfg, s) && WellFormed(cfg, s)
    ensures Left(cfg, s).NonNegative()
  {
    forall k | k in s.workers
      ensures Untried(cfg)(k) >= 0 && Walk(cfg)(k) >= 0
    {
      var w :| 0 <= w < cfg.nworkers && s.workers[w] == k;
      assert WorkerInv(cfg, w, s.workers[w], Published(cfg, s), Filled(cfg, s), Low(cfg, s));
    }
    SumNonNegative(Untried(cfg), s.workers);
    SumNonNegative(Pending(), s.workers);
    SumNonNegative(Walk(cfg), s.workers);
    if s.pc.Process? {
      ProcessedChunk(cfg, s);
    }
  }

  /** A worker has come nearer to its end. */
  predicate Shrinks(cfg: Config, o: Worker, k: Worker)
    requires cfg.Valid()
  {
    || |k.tried| > |o.tried|
    || (|k.tried| == |o.tried| && Pending()(k) < Pending()(o))
    || (|k.tried| == |o.tried| && Pending()(k) == Pending()(o) && Walk(cfg)(k) < Walk(cfg)(o))
  }

  lemma WorkerMeasure(cfg: Config, s: State, w: nat, k: Worker)
    requires cfg.Valid() && w < |s.workers| && Shrinks(cfg, s.workers[w], k)
    ensures forall t: State :: t.workers == s.workers[w := k] && t.pos == s.pos && t.pc == s.pc ==>
              Left(cfg, t).Below(Left(cfg, s))
  {
    SumUpdate(Untried(cfg), s.workers, w, k);
    SumUpdate(Pending(), s.workers, w, k);
    SumUpdate(Walk(cfg), s.workers, w, k);
  }

  /** What a worker's step does to the worker itself. */
  lemma WorkerShrinks(cfg: Config, w: nat, k: Worker, inputs: seq<InputSlot>)
    requires cfg.Valid() && Shape(cfg, k) && |inputs| <= cfg.nslots
    ensures k.pc.Waiting? && k.out[k.idx].remaining <= |inputs| ==> Shrinks(cfg, k, Begin(k, |inputs|))
    ensures k.pc.Decoding? && k.i < |inputs| ==> Shrinks(cfg, k, DecodeSlot(cfg, w, k, inputs))
    ensures k.pc.Decoding? ==> Shrinks(cfg, k, k.(pc := Checking))
    ensures k.pc.Checking? && !k.reaped ==> Shrinks(cfg, k, k.(pc := Exited)) && Shrinks(cfg, k, NextChunk(cfg, k))
  {
  }

  lemma WorkerStepMeasure(cfg: Config, s: State, w: nat)
    requires Inv(cfg, s) && WellFormed(cfg, s) && w < cfg.nworkers && WorkerStep(cfg, s, w) != s
    ensures Left(cfg, WorkerStep(cfg, s, w)).Below(Left(cfg, s))
  {
    assert WorkerInv(cfg, w, s.workers[w], Published(cfg, s), Filled(cfg, s), Low(cfg, s));
    WorkerShrinks(cfg, w, s.workers[w], s.chunks[s.workers[w].idx].inputs);
    WorkerMeasure(cfg, s, w, WorkerStep(cfg, s, w).workers[w]);
  }

  lemma HandlerStepMeasure(cfg: Config, s: State, w: nat)
    requires Inv(cfg, s) && WellFormed(cfg, s) && w < cfg.nworkers && HandlerStep(cfg, s, w) != s
    ensures Left(cfg, HandlerStep(cfg, s, w)).Below(Left(cfg, s))
  {
    WorkerMeasure(cfg, s, w, HandlerStep(cfg, s, w).workers[w]);
  }

  lemma RestartMeasure(cfg: Config, s: State, w: nat, t: State)
    requires cfg.Valid() && w < |s.workers| && s.workers[w].pc.Crashed?
    requires t.workers == s.workers[w := Revive(s.workers[w])]
    ensures Left(cfg, t).Below(Left(cfg, s))
  {
    SumUpdate(Untried(cfg), s.workers, w, Revive(s.workers[w]));
    SumUpdate(Pending(), s.workers, w, Revive(s.workers[w]));
  }

  lemma MainStepMeasure(cfg: Config, s: State)
    requires Inv(cfg, s) && WellFormed(cfg, s) && MainStep(cfg, s) != s
    ensures Left(cfg, MainStep(cfg, s)).Below(Left(cfg, s))
  {
    if s.pc.Scan? && s.pc.next < cfg.nworkers && s.workers[s.pc.next].sigchld {
      LowDone(cfg, s);
      RestartMeasure(cfg, s, s.pc.next, MainStep(cfg, s));
    } else {
      RankShrinks(cfg, s);
    }
  }

  lemma RankShrinks(cfg: Config, s: State)
    requires cfg.Valid() && MainInv(cfg, s) && WellFormed(cfg, s) && MainStep(cfg, s) != s
    requires s.pc.Scan? && s.pc.next < cfg.nworkers ==> !s.workers[s.pc.next].sigchld
    ensures Left(cfg, MainStep(cfg, s)).Below(Left(cfg, s))
  {
    assert MainStep(cfg, s).workers == s.workers;
  }

  /** Every event that moves leaves less to do. */
  lemma StepMeasure(cfg: Config, s: State, e: Event)
    requires Inv(cfg, s) && WellFormed(cfg, s) && Next(cfg, s, e) != s
    ensures Left(cfg, Next(cfg, s, e)).Below(Left(cfg, s))
  {
    match e
    case MainMoves => MainStepMeasure(cfg, s);
    case WorkerMoves(w) => WorkerStepMeasure(cfg, s, w);
    case HandlerReaps(w) => HandlerStepMeasure(cfg, s, w);
  }
}
