/** What holds in every state of every schedule. */
module RingRuns {
  import opened Common
  import opened RingPositions
  import opened RingMachine
  import opened RingInvariant
  import opened RingSteps

  /** The state after any finite sequence of events, from zeroed memory.  The test is never false: see `RunInv`. */
  ghost function Run(cfg: Config, schedule: seq<Event>): State {
    if schedule == [] then Init(cfg)
    else
      var s := Run(cfg, schedule[..|schedule| - 1]);
      if WellFormed(cfg, s) then Next(cfg, s, schedule[|schedule| - 1]) else s
  }

  /** The invariant holds in every reachable state, and every step taken stays within bounds. */
  lemma {:induction false} RunInv(cfg: Config, schedule: seq<Event>)
    requires cfg.Valid()
    ensures Inv(cfg, Run(cfg, schedule)) && WellFormed(cfg, Run(cfg, schedule))
  {
    if schedule == [] {
      InitInv(cfg);
    } else {
      RunInv(cfg, schedule[..|schedule| - 1]);
      NextInv(cfg, Run(cfg, schedule[..|schedule| - 1]), schedule[|schedule| - 1]);
    }
    InvWellFormed(cfg, Run(cfg, schedule));
  }

  lemma {:induction false} SequentialPrefix(cfg: Config, m: nat, n: nat)
    requires m <= n <= |cfg.inputs|
    ensures Sequential(cfg, m) == Sequential(cfg, n)[..m]
    decreases n
  {
    if m < n {
      SequentialPrefix(cfg, m, n - 1);
    }
  }

  /** Refinement of the sequential program: under every interleaving, crash pattern and handler timing, what main has
      handed to `process` is a prefix of what decoding one input after the other gives, and all of it once main leaves
      its loop. */
  lemma RingRefinesSequential(cfg: Config, schedule: seq<Event>)
    requires cfg.Valid()
    ensures Run(cfg, schedule).log <= Sequential(cfg, |cfg.inputs|)
    ensures Run(cfg, schedule).pc.Finished? ==> Run(cfg, schedule).log == Sequential(cfg, |cfg.inputs|)
  {
    RunInv(cfg, schedule);
    var s := Run(cfg, schedule);
    assert LogInv(cfg, s);
    SequentialPrefix(cfg, Logged(cfg, s), |cfg.inputs|);
    FinishedLogged(cfg, s);
  }

  lemma FinishedLogged(cfg: Config, s: State)
    requires cfg.Valid() && MainInv(cfg, s)
    ensures s.pc.Finished? ==> Logged(cfg, s) == |cfg.inputs|
  {
    ChunkShape(cfg, LastChunk(cfg));
  }

  /** Record `k` of the sequential program pairs input `k` with each worker's `k`-th call of `try_decode`. */
  lemma {:induction false} SequentialAt(cfg: Config, n: nat, k: nat)
    requires k < n <= |cfg.inputs|
    ensures Sequential(cfg, n)[k] == SequentialRecord(cfg, k)
    ensures var r := Sequential(cfg, n)[k];
            && r.input == cfg.inputs[k] && |r.outputs| == cfg.nworkers
            && forall w: nat :: w < cfg.nworkers ==>
                 match cfg.decode(w, k, cfg.inputs[k])
                 case Decoded(out) => r.outputs[w] == out
                 case Died(partial) => r.outputs[w] == partial.(status := S_CRASH)
    decreases n
  {
    if k < n - 1 {
      SequentialAt(cfg, n - 1, k);
    }
  }

  /** While main processes or refills a chunk, no worker is decoding in it or has anything left to do in it. */
  lemma ExclusiveAccess(cfg: Config, schedule: seq<Event>, w: nat)
    requires cfg.Valid() && w < cfg.nworkers
    ensures WellFormed(cfg, Run(cfg, schedule))
    ensures var s := Run(cfg, schedule);
            s.pc.Process? || s.pc.Fill? || s.pc.StoreWorkers? || s.pc.StoreGeneration? ==>
              && s.workers[w].out[s.idx].remaining == 0
              && (s.workers[w].idx == s.idx ==> !s.workers[w].pc.Decoding? && !s.workers[w].pc.Crashed?)
  {
    RunInv(cfg, schedule);
    var s := Run(cfg, schedule);
    var k := s.workers[w];
    if s.pc.Process? || s.pc.Fill? || s.pc.StoreWorkers? || s.pc.StoreGeneration? {
      Bounds(cfg, s);
      LowDone(cfg, s);
      assert WorkerInv(cfg, w, k, Published(cfg, s), Filled(cfg, s), Low(cfg, s));
      if k.idx == s.idx && Done(k) == k.pos && k.pos < Published(cfg, s) {
        IdxApart(cfg, k.pos, s.pos);
      }
    }
  }

  /** `remaining_workers` of a published chunk counts the workers that still owe it, less those crashed in it whose
      restart is pending; it never wraps. */
  lemma CounterIsOwing(cfg: Config, schedule: seq<Event>, p: nat)
    requires cfg.Valid()
    requires var s := Run(cfg, schedule); Filled(cfg, s) - cfg.nchunks <= p < Published(cfg, s)
    ensures WellFormed(cfg, Run(cfg, schedule))
    ensures var s := Run(cfg, schedule);
            && s.chunks[Idx(cfg, p)].generation == U32(Gen(cfg, p))
            && s.chunks[Idx(cfg, p)].remainingWorkers == |Owing(s.workers, p)| <= cfg.nworkers
  {
    RunInv(cfg, schedule);
    var s := Run(cfg, schedule);
    Bounds(cfg, s);
    SubsetCard(Owing(s.workers, p), Below(cfg.nworkers));
  }

  /** Every worker is at most one lap behind main and never ahead of it, and so comparing generations modulo 2^32 tells
      a waiting worker exactly whether its chunk is published. */
  lemma LagBound(cfg: Config, schedule: seq<Event>, w: nat)
    requires cfg.Valid() && w < cfg.nworkers
    ensures WellFormed(cfg, Run(cfg, schedule))
    ensures var s := Run(cfg, schedule); s.pos - cfg.nchunks <= Done(s.workers[w]) <= Published(cfg, s) <= s.pos + 1
    ensures var s := Run(cfg, schedule);
            s.workers[w].pc.Waiting? ==>
              (s.chunks[s.workers[w].idx].generation == s.workers[w].gen <==> s.workers[w].pos < Published(cfg, s))
  {
    RunInv(cfg, schedule);
    var s := Run(cfg, schedule);
    LowDone(cfg, s);
    if s.workers[w].pc.Waiting? {
      GenerationTest(cfg, s, w);
    }
  }

  /** Each worker attempts the inputs once each and in order, and at most one of its chunks has a non-zero `remaining`. */
  lemma AttemptsInOrder(cfg: Config, schedule: seq<Event>, w: nat)
    requires cfg.Valid() && w < cfg.nworkers
    ensures WellFormed(cfg, Run(cfg, schedule))
    ensures var k := Run(cfg, schedule).workers[w]; k.tried <= cfg.inputs
    ensures var k := Run(cfg, schedule).workers[w];
            forall c, d :: 0 <= c < d < cfg.nchunks ==> k.out[c].remaining == 0 || k.out[d].remaining == 0
  {
    RunInv(cfg, schedule);
    var s := Run(cfg, schedule);
    assert WorkerInv(cfg, w, s.workers[w], Published(cfg, s), Filled(cfg, s), Low(cfg, s));
  }

  /** A worker in its slot loop, whether it began at the first slot or behind a crash, is about to decode the first input
      it has not attempted, and `remaining` counts the slots from there on. */
  lemma DecodesNext(cfg: Config, schedule: seq<Event>, w: nat)
    requires cfg.Valid() && w < cfg.nworkers
    ensures WellFormed(cfg, Run(cfg, schedule))
    ensures var s := Run(cfg, schedule); var k := s.workers[w]; var inputs := s.chunks[k.idx].inputs;
            k.pc.Decoding? ==>
              && k.out[k.idx].remaining + k.i == |inputs|
              && (k.i < |inputs| ==> |k.tried| < |cfg.inputs| && inputs[k.i] == cfg.inputs[|k.tried|])
  {
    RunInv(cfg, schedule);
    var s := Run(cfg, schedule);
    if s.workers[w].pc.Decoding? {
      Bounds(cfg, s);
      LowDone(cfg, s);
      HeldChunk(cfg, s, w);
      assert WorkerInv(cfg, w, s.workers[w], Published(cfg, s), Filled(cfg, s), Low(cfg, s));
    }
  }

  /** The handler will find the chunk in which the worker died, and the slot it marks, `input_count - remaining`, is the
      one whose decoding died. */
  ghost predicate CrashFound(cfg: Config, s: State, w: nat)
    requires WellFormed(cfg, s) && w < cfg.nworkers
  {
    var k := s.workers[w];
    var inputs := s.chunks[k.idx].inputs;
    && FirstBusy(k.out, 0) == Some(k.idx)
    && |inputs| - k.out[k.idx].remaining == k.i < |inputs|
    && 0 < |k.tried| <= |cfg.inputs| && inputs[k.i] == cfg.inputs[|k.tried| - 1]
    && cfg.decode(w, |k.tried| - 1, inputs[k.i]).Died?
  }

  lemma CrashRecoveryExact(cfg: Config, schedule: seq<Event>, w: nat)
    requires cfg.Valid() && w < cfg.nworkers
    ensures WellFormed(cfg, Run(cfg, schedule))
    ensures Run(cfg, schedule).workers[w].pc.Crashed? && !Run(cfg, schedule).workers[w].reaped ==>
              CrashFound(cfg, Run(cfg, schedule), w)
  {
    RunInv(cfg, schedule);
    if Run(cfg, schedule).workers[w].pc.Crashed? && !Run(cfg, schedule).workers[w].reaped {
      CrashFoundIn(cfg, Run(cfg, schedule), w);
    }
  }

  lemma CrashFoundIn(cfg: Config, s: State, w: nat)
    requires Inv(cfg, s) && WellFormed(cfg, s) && w < cfg.nworkers && s.workers[w].pc.Crashed? && !s.workers[w].reaped
    ensures CrashFound(cfg, s, w)
  {
    Bounds(cfg, s);
    LowDone(cfg, s);
    HeldChunk(cfg, s, w);
    CrashedSlot(cfg, w, s.workers[w], Published(cfg, s), Filled(cfg, s), Low(cfg, s));
  }

  lemma CrashedSlot(cfg: Config, w: nat, k: Worker, pub: nat, h: nat, low: int)
    requires cfg.Valid() && WorkerInv(cfg, w, k, pub, h, low) && k.pc.Crashed? && !k.reaped
    requires h - cfg.nchunks <= low && pub <= h <= LastChunk(cfg) + 1
    ensures k.idx < cfg.nchunks == |k.out| && FirstBusy(k.out, 0) == Some(k.idx)
    ensures k.out[k.idx].remaining == Count(cfg, k.pos) - k.i > 0
    ensures |k.tried| == Before(cfg, k.pos) + k.i + 1 <= |cfg.inputs|
    ensures cfg.decode(w, |k.tried| - 1, cfg.inputs[|k.tried| - 1]).Died?
  {
    ReapWorker(cfg, w, k, pub, h, low);
  }
}
