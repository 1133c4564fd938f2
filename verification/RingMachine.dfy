/** The chunk-ring protocol of the fuzzer, as a machine over atomic steps.

Main, the workers and main's SIGCHLD handler take turns in any order.  A schedule is any sequence of
events; an event whose agent cannot move (a wait whose test fails, a handler with nothing to reap) leaves
the state as it is, which is what a spinning `mish_atomic_wait_for` does.

Every step reads or writes at most one cell that another agent may be changing at that moment.
In particular the worker's decrement of `remaining_workers` and its later look at `input_count` are two steps.

The fields `pos` and `tried` are history: no step's choice depends on `pos`, and `tried` only numbers
the calls of `try_decode` so that a decoder may answer differently each time.
 */
module RingMachine {
  import opened Common
  import opened RingPositions

  /** `input_count` is `|inputs|`. */
  datatype Chunk = Chunk(generation: nat, remainingWorkers: nat, inputs: seq<InputSlot>)

  datatype OutChunk = OutChunk(remaining: nat, outputs: seq<OutputSlot>)

  datatype WorkerPc =
    | Waiting   // in mish_atomic_wait_for on the chunk's generation
    | Decoding  // at the head of the slot loop
    | Checking  // decremented remaining_workers, about to look at input_count
    | Exited
    | Crashed

  datatype Worker = Worker(
    pc: WorkerPc, gen: nat, idx: nat, i: nat,          // the process's locals
    out: seq<OutChunk>,                                // its shared output chunks
    startGen: nat, startIdx: nat, sigchld: bool,       // its worker_config in main
    reaped: bool, tried: seq<InputSlot>, pos: nat)

  datatype MainPc =
    | AwaitWorkers                        // waits for remaining_workers of the chunk to be 0
    | Scan(next: nat, restarted: bool)    // looks for workers to restart
    | Process(next: nat)                  // hands slot `next` to process
    | Fill                                // asks the mutator for a chunk, stores input_count
    | StoreWorkers                        // stores remaining_workers
    | StoreGeneration                     // stores generation
    | Advance
    | Finished

  datatype State = State(
    chunks: seq<Chunk>, workers: seq<Worker>,
    pc: MainPc, gen: nat, idx: nat, exitIdx: nat, fed: nat,
    log: seq<Record>, pos: nat)

  datatype Event = MainMoves | WorkerMoves(w: nat) | HandlerReaps(w: nat)

  /** `fetch_add(-1)` on a `uint32_t`. */
  function Decrement(v: nat): nat {
    if v == 0 then U32_MOD - 1 else v - 1
  }

  /** Every index the steps use is in bounds. */
  ghost predicate WellFormed(cfg: Config, s: State) {
    && |s.chunks| == cfg.nchunks
    && |s.workers| == cfg.nworkers
    && s.idx < cfg.nchunks
    && s.fed <= |cfg.inputs|
    && (forall c :: 0 <= c < cfg.nchunks ==> |s.chunks[c].inputs| <= cfg.nslots)
    && (forall w :: 0 <= w < cfg.nworkers ==>
          && s.workers[w].idx < cfg.nchunks
          && s.workers[w].startIdx < cfg.nchunks
          && |s.workers[w].out| == cfg.nchunks
          && forall c :: 0 <= c < cfg.nchunks ==>
                           && |s.workers[w].out[c].outputs| == cfg.nslots
                           && s.workers[w].out[c].remaining <= |s.chunks[c].inputs|)
  }

  // ----- worker() -----

  /** The generation matched: work out where to start, skipping the slot of an earlier crash. */
  function Begin(k: Worker, count: nat): Worker
    requires k.idx < |k.out| && k.out[k.idx].remaining <= count
  {
    var left := k.out[k.idx].remaining;
    var start := if left == 0 then 0 else count - left + 1;
    k.(pc := Decoding, i := start, out := k.out[k.idx := k.out[k.idx].(remaining := count - start)])
  }

  /** One turn of the slot loop; a crash leaves `remaining` as it was. */
  function DecodeSlot(cfg: Config, w: nat, k: Worker, inputs: seq<InputSlot>): Worker
    requires k.idx < |k.out| && k.i < |inputs| <= |k.out[k.idx].outputs|
  {
    var o := k.out[k.idx];
    match cfg.decode(w, |k.tried|, inputs[k.i])
    case Decoded(out) =>
      k.(i := k.i + 1, tried := k.tried + [inputs[k.i]],
         out := k.out[k.idx := OutChunk(|inputs| - k.i - 1, o.outputs[k.i := out])])
    case Died(partial) =>
      k.(pc := Crashed, tried := k.tried + [inputs[k.i]],
         out := k.out[k.idx := o.(outputs := o.outputs[k.i := partial])])
  }

  /** `idx++`, and a new generation after the last index. */
  function NextChunk(cfg: Config, k: Worker): Worker {
    var last := k.idx + 1 == cfg.nchunks;
    k.(pc := Waiting, idx := if last then 0 else k.idx + 1,
       gen := if last then U32(k.gen + 1) else k.gen, pos := k.pos + 1)
  }

  function SetWorker(s: State, w: nat, k: Worker): State
    requires w < |s.workers|
  {
    s.(workers := s.workers[w := k])
  }

  function AddRemaining(s: State, c: nat, v: nat): State
    requires c < |s.chunks|
  {
    s.(chunks := s.chunks[c := s.chunks[c].(remainingWorkers := v)])
  }

  function WorkerStep(cfg: Config, s: State, w: nat): State
    requires WellFormed(cfg, s) && w < cfg.nworkers
  {
    var k := s.workers[w];
    var ch := s.chunks[k.idx];
    match k.pc
    case Waiting =>
      if ch.generation == k.gen then SetWorker(s, w, Begin(k, |ch.inputs|)) else s
    case Decoding =>
      if k.i < |ch.inputs| then SetWorker(s, w, DecodeSlot(cfg, w, k, ch.inputs))
      else AddRemaining(SetWorker(s, w, k.(pc := Checking)), k.idx, Decrement(ch.remainingWorkers))
    case Checking =>
      SetWorker(s, w, if |ch.inputs| != cfg.nslots then k.(pc := Exited) else NextChunk(cfg, k))
    case Exited => s
    case Crashed => s
  }

  // ----- sigchld_handler() -----

  /** The first chunk at or after `c` with a non-zero `remaining`. */
  function FirstBusy(out: seq<OutChunk>, c: nat): (r: Option<nat>)
    requires c <= |out|
    ensures r.Some? ==> c <= r.value < |out| && out[r.value].remaining != 0
    ensures r.Some? ==> forall d :: c <= d < r.value ==> out[d].remaining == 0
    ensures r.None? ==> forall d :: c <= d < |out| ==> out[d].remaining == 0
    decreases |out| - c
  {
    if c == |out| then None
    else if out[c].remaining != 0 then Some(c)
    else FirstBusy(out, c + 1)
  }

  function MarkCrash(o: OutChunk, count: nat): OutChunk
    requires 0 < o.remaining <= count <= |o.outputs|
  {
    var k := count - o.remaining;
    o.(outputs := o.outputs[k := o.outputs[k].(status := S_CRASH)])
  }

  function HandlerStep(cfg: Config, s: State, w: nat): State
    requires WellFormed(cfg, s) && w < cfg.nworkers
  {
    var k := s.workers[w];
    if (k.pc.Crashed? || k.pc.Exited?) && !k.reaped then
      match FirstBusy(k.out, 0)
      case None => SetWorker(s, w, k.(reaped := true))
      case Some(c) =>
        var ch := s.chunks[c];
        AddRemaining(
          SetWorker(s, w, k.(reaped := true, sigchld := true, startGen := ch.generation, startIdx := c,
                             out := k.out[c := MarkCrash(k.out[c], |ch.inputs|)])),
          c, Decrement(ch.remainingWorkers))
    else s
  }

  // ----- main() -----

  /** `worker_start` after a crash. */
  function Revive(k: Worker): Worker {
    k.(pc := Waiting, sigchld := false, reaped := false, gen := U32(k.startGen), idx := k.startIdx)
  }

  /** Restart a worker and undo the handler's decrement. */
  function Restart(s: State, w: nat): State
    requires w < |s.workers| && s.workers[w].startIdx < |s.chunks|
  {
    var c := s.workers[w].startIdx;
    AddRemaining(SetWorker(s, w, Revive(s.workers[w])), c, U32(s.chunks[c].remainingWorkers + 1))
  }

  function AfterProcess(cfg: Config, s: State): State {
    s.(pc := if s.idx == s.exitIdx then Finished else if s.exitIdx == cfg.nchunks then Fill else Advance)
  }

  function RecordAt(s: State, c: nat, i: nat): Record
    requires c < |s.chunks| && i < |s.chunks[c].inputs|
    requires forall w :: 0 <= w < |s.workers| ==> c < |s.workers[w].out| && i < |s.workers[w].out[c].outputs|
  {
    Record(s.chunks[c].inputs[i],
           seq(|s.workers|, w requires 0 <= w < |s.workers| => s.workers[w].out[c].outputs[i]))
  }

  /** The inputs the mutator still yields for one chunk. */
  function Batch(cfg: Config, from: nat): seq<InputSlot>
    requires from <= |cfg.inputs|
  {
    cfg.inputs[from..Min(from + cfg.nslots, |cfg.inputs|)]
  }

  function FillStep(cfg: Config, s: State): State
    requires WellFormed(cfg, s)
  {
    var batch := Batch(cfg, s.fed);
    s.(pc := StoreWorkers, fed := s.fed + |batch|,
       exitIdx := if |batch| < cfg.nslots then s.idx else s.exitIdx,
       chunks := s.chunks[s.idx := s.chunks[s.idx].(inputs := batch)])
  }

  function AdvanceStep(cfg: Config, s: State): State {
    var last := s.idx + 1 == cfg.nchunks;
    s.(pc := AwaitWorkers, idx := if last then 0 else s.idx + 1,
       gen := if last then s.gen + 1 else s.gen, pos := s.pos + 1)
  }

  function MainStep(cfg: Config, s: State): State
    requires WellFormed(cfg, s)
  {
    match s.pc
    case AwaitWorkers =>
      if s.chunks[s.idx].remainingWorkers == 0 then s.(pc := Scan(0, false)) else s
    case Scan(next, restarted) =>
      if next < cfg.nworkers then
        if s.workers[next].sigchld then Restart(s, next).(pc := Scan(next + 1, true))
        else s.(pc := Scan(next + 1, restarted))
      else if restarted then s.(pc := AwaitWorkers)
      else if s.gen > 1 then s.(pc := Process(0))
      else AfterProcess(cfg, s)
    case Process(next) =>
      if next < |s.chunks[s.idx].inputs| then s.(pc := Process(next + 1), log := s.log + [RecordAt(s, s.idx, next)])
      else AfterProcess(cfg, s)
    case Fill => FillStep(cfg, s)
    case StoreWorkers => AddRemaining(s, s.idx, cfg.nworkers).(pc := StoreGeneration)
    case StoreGeneration =>
      s.(pc := Advance, chunks := s.chunks[s.idx := s.chunks[s.idx].(generation := U32(s.gen))])
    case Advance => AdvanceStep(cfg, s)
    case Finished => s
  }

  // ----- runs -----

  function Next(cfg: Config, s: State, e: Event): State
    requires WellFormed(cfg, s)
  {
    match e
    case MainMoves => MainStep(cfg, s)
    case WorkerMoves(w) => if w < cfg.nworkers then WorkerStep(cfg, s, w) else s
    case HandlerReaps(w) => if w < cfg.nworkers then HandlerStep(cfg, s, w) else s
  }

  function BlankOutput(): OutputSlot {
    OutputSlot(S_NONE, 0, [])
  }

  function InitialWorker(cfg: Config): Worker {
    Worker(Waiting, 1, 0, 0,
           seq(cfg.nchunks, c => OutChunk(0, seq(cfg.nslots, j => BlankOutput()))),
           1, 0, false, false, [], 0)
  }

  /** Zeroed shared memory, all workers started, main before its first chunk. */
  function Init(cfg: Config): State {
    State(seq(cfg.nchunks, c => Chunk(0, 0, [])), seq(cfg.nworkers, w => InitialWorker(cfg)),
          AwaitWorkers, 1, 0, cfg.nchunks, 0, [], 0)
  }

  // ----- the sequential program the ring stands for -----

  /** What a call of `try_decode` leaves in its slot: a crash changes the status and nothing else. */
  function Answer(cfg: Config, w: nat, k: nat): OutputSlot
    requires k < |cfg.inputs|
  {
    match cfg.decode(w, k, cfg.inputs[k])
    case Decoded(out) => out
    case Died(partial) => partial.(status := S_CRASH)
  }

  function SequentialRecord(cfg: Config, k: nat): Record
    requires k < |cfg.inputs|
  {
    Record(cfg.inputs[k], seq(cfg.nworkers, (w: nat) => Answer(cfg, w, k)))
  }

  /** Decode the first `n` inputs one after the other with every worker. */
  function Sequential(cfg: Config, n: nat): (records: seq<Record>)
    requires n <= |cfg.inputs|
    ensures |records| == n
  {
    if n == 0 then [] else Sequential(cfg, n - 1) + [SequentialRecord(cfg, n - 1)]
  }
}
