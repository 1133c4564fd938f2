/** The invariant of the chunk ring.

`Filled`, `Counted` and `Published` are the numbers of chunks whose inputs, whose `remaining_workers` and whose
`generation` main has stored; the three differ by at most one, while main is between the stores.
 */
module RingInvariant {
  import opened Common
  import opened RingPositions
  import opened RingMachine

  // ----- the stream of chunks -----

  /** The chunk on which the mutator runs dry; it is the only one that is not full. */
  function LastChunk(cfg: Config): nat
    requires cfg.Valid()
  {
    FullChunks(cfg, |cfg.inputs|)
  }

  /** Inputs in front of chunk `p`, capped at the end of the stream. */
  function Before(cfg: Config, p: nat): (n: nat)
    ensures n <= |cfg.inputs|
  {
    Min(Start(cfg, p), |cfg.inputs|)
  }

  /** The number of inputs in chunk `p`. */
  function Count(cfg: Config, p: nat): int {
    Before(cfg, p + 1) - Before(cfg, p)
  }

  ghost predicate Carries(cfg: Config, inputs: seq<InputSlot>, p: nat)
  {
    && |inputs| == Count(cfg, p)
    && forall j: nat :: j < |inputs| ==> Before(cfg, p) + j < |cfg.inputs| && inputs[j] == cfg.inputs[Before(cfg, p) + j]
  }

  /** What the mutator yields for chunk `p`. */
  lemma BatchCarries(cfg: Config, p: nat)
    ensures Carries(cfg, Batch(cfg, Before(cfg, p)), p)
  {
  }

  lemma LastChunkBounds(cfg: Config)
    requires cfg.Valid()
    ensures Start(cfg, LastChunk(cfg)) <= |cfg.inputs| < Start(cfg, LastChunk(cfg)) + cfg.nslots
  {
    FullChunksBounds(cfg, |cfg.inputs|);
  }

  /** Chunks before the last are full, the last is short, and chunks tile the stream. */
  lemma ChunkShape(cfg: Config, p: nat)
    requires cfg.Valid() && p <= LastChunk(cfg)
    ensures Start(cfg, p) == Before(cfg, p)
    ensures Before(cfg, p) <= Before(cfg, p + 1) <= Before(cfg, p) + cfg.nslots
    ensures p < LastChunk(cfg) ==> Count(cfg, p) == cfg.nslots
    ensures p == LastChunk(cfg) ==> Count(cfg, p) < cfg.nslots && Before(cfg, p + 1) == |cfg.inputs|
  {
    LastChunkBounds(cfg);
    if p < LastChunk(cfg) {
      StartMonotone(cfg, p, LastChunk(cfg));
    }
  }

  lemma BeforeMonotone(cfg: Config, p: nat, q: nat)
    requires p <= q
    ensures Before(cfg, p) <= Before(cfg, q)
  {
    if p < q {
      StartMonotone(cfg, p, q);
    }
  }

  // ----- counters of main -----

  function Filled(cfg: Config, s: State): nat
    requires cfg.Valid()
  {
    Min(LastChunk(cfg) + 1, if s.pc.StoreWorkers? || s.pc.StoreGeneration? || s.pc.Advance? then s.pos + 1 else s.pos)
  }

  function Counted(cfg: Config, s: State): nat
    requires cfg.Valid()
  {
    Min(LastChunk(cfg) + 1, if s.pc.StoreGeneration? || s.pc.Advance? then s.pos + 1 else s.pos)
  }

  function Published(cfg: Config, s: State): nat
    requires cfg.Valid()
  {
    Min(LastChunk(cfg) + 1, if s.pc.Advance? then s.pos + 1 else s.pos)
  }

  /** Main has seen that the chunk it is about to reuse is finished. */
  predicate PastWait(s: State) {
    !s.pc.AwaitWorkers? && !s.pc.Scan?
  }

  /** Every worker is done with all chunks below this number. */
  function Low(cfg: Config, s: State): int {
    s.pos - cfg.nchunks + if PastWait(s) then 1 else 0
  }

  /** How many records main has handed to `process`. */
  function Logged(cfg: Config, s: State): nat
    requires cfg.Valid()
  {
    if s.pos < cfg.nchunks then 0
    else if s.pc.Process? then Before(cfg, s.pos - cfg.nchunks) + s.pc.next
    else Before(cfg, s.pos - cfg.nchunks + if PastWait(s) then 1 else 0)
  }

  // ----- one worker -----

  /** The number of chunks the worker has signed off. */
  function Done(k: Worker): nat {
    if k.pc.Checking? || k.pc.Exited? then k.pos + 1 else k.pos
  }

  /** The number of slots whose answer is final: a crash the handler has not seen is not. */
  function Settled(k: Worker): int {
    |k.tried| - if k.pc.Crashed? && !k.reaped then 1 else 0
  }

  /** `remaining` tells exactly which slots of the worker's chunk have been attempted. */
  ghost predicate Progress(cfg: Config, w: nat, k: Worker, pub: nat)
    requires cfg.Valid() && k.idx < |k.out|
  {
    var r := k.out[k.idx].remaining;
    var n := Count(cfg, k.pos);
    var b := Before(cfg, k.pos);
    match k.pc
    case Waiting => r <= n && (r > 0 ==> k.pos < pub) && |k.tried| == b + if r == 0 then 0 else n - r + 1
    case Decoding => k.pos < pub && k.i <= n && r == n - k.i && |k.tried| == b + k.i
    case Checking => r == 0 && |k.tried| == b + n
    case Exited => r == 0 && |k.tried| == b + n
    case Crashed =>
      && k.pos < pub && k.i < n && r == n - k.i && |k.tried| == b + k.i + 1
      && b + k.i < |cfg.inputs| && k.i < |k.out[k.idx].outputs|
      && cfg.decode(w, b + k.i, cfg.inputs[b + k.i]).Died?
      && (!k.reaped ==> k.out[k.idx].outputs[k.i] == cfg.decode(w, b + k.i, cfg.inputs[b + k.i]).partial)
  }

  /** The slots of chunk `p` that lie before input `m` hold the answers of the sequential program. */
  ghost predicate Answered(cfg: Config, w: nat, outputs: seq<OutputSlot>, p: nat, m: int)
    requires |outputs| == cfg.nslots
  {
    forall j: nat :: j < Count(cfg, p) && Before(cfg, p) + j < m ==> outputs[j] == Answer(cfg, w, Before(cfg, p) + j)
  }

  ghost predicate Shape(cfg: Config, k: Worker)
    requires cfg.Valid()
  {
    && |k.out| == cfg.nchunks
    && (forall c :: 0 <= c < cfg.nchunks ==> |k.out[c].outputs| == cfg.nslots)
    && k.pos <= LastChunk(cfg)
    && k.idx == Idx(cfg, k.pos)
    && k.gen == U32(Gen(cfg, k.pos))
    && k.startIdx < cfg.nchunks
    && (forall c :: 0 <= c < cfg.nchunks && c != k.idx ==> k.out[c].remaining == 0)
    && |k.tried| <= |cfg.inputs|
    && (forall j :: 0 <= j < |k.tried| ==> k.tried[j] == cfg.inputs[j])
  }

  ghost predicate Lifecycle(cfg: Config, k: Worker, h: nat)
    requires cfg.Valid()
  {
    && (k.sigchld ==> k.pc.Crashed? && k.startIdx == k.idx && k.startGen == k.gen)
    && (k.pc.Crashed? ==> k.reaped == k.sigchld)
    && (!k.pc.Crashed? && !k.pc.Exited? ==> !k.reaped)
    && (k.pc.Exited? ==> k.pos == LastChunk(cfg) || StrayAt(cfg, k.pos, h))
  }

  /** A worker may have left early only if the last chunk has replaced the one it had just finished. */
  predicate StrayAt(cfg: Config, p: nat, h: nat)
    requires cfg.Valid()
  {
    p + cfg.nchunks == LastChunk(cfg) && h == LastChunk(cfg) + 1
  }

  ghost predicate WorkerInv(cfg: Config, w: nat, k: Worker, pub: nat, h: nat, low: int)
    requires cfg.Valid()
  {
    && Shape(cfg, k)
    && Lifecycle(cfg, k, h)
    && low <= Done(k) <= pub
    && Progress(cfg, w, k, pub)
    && (forall p: nat {:trigger k.out[Idx(cfg, p)]} ::
          h - cfg.nchunks <= p < pub ==> Answered(cfg, w, k.out[Idx(cfg, p)].outputs, p, Settled(k)))
  }

  // ----- chunks -----

  ghost predicate ChunksInv(cfg: Config, chunks: seq<Chunk>, h: nat, pub: nat)
    requires cfg.Valid()
  {
    && |chunks| == cfg.nchunks
    && (forall p: nat {:trigger chunks[Idx(cfg, p)]} ::
          h - cfg.nchunks <= p < h ==> Carries(cfg, chunks[Idx(cfg, p)].inputs, p))
    && (forall p: nat {:trigger chunks[Idx(cfg, p)]} ::
          pub - cfg.nchunks <= p < pub ==> chunks[Idx(cfg, p)].generation == U32(Gen(cfg, p)))
    && (forall c: nat :: h <= c < cfg.nchunks ==> chunks[c].inputs == [])
    && (forall c: nat :: pub <= c < cfg.nchunks ==> chunks[c].generation == 0)
  }

  /** Workers that still owe chunk `p` and are not crashed in it with the handler's decrement outstanding. */
  ghost function Owing(workers: seq<Worker>, p: nat): set<nat> {
    set w: nat | w < |workers| && Done(workers[w]) <= p && !(workers[w].sigchld && workers[w].pos == p)
  }

  ghost predicate CountersInv(cfg: Config, chunks: seq<Chunk>, workers: seq<Worker>, counted: nat)
    requires cfg.Valid() && |chunks| == cfg.nchunks
  {
    && (forall p: nat {:trigger chunks[Idx(cfg, p)]} ::
          counted - cfg.nchunks <= p < counted ==> chunks[Idx(cfg, p)].remainingWorkers == |Owing(workers, p)|)
    && (forall c: nat :: counted <= c < cfg.nchunks ==> chunks[c].remainingWorkers == 0)
  }

  // ----- main -----

  ghost predicate MainInv(cfg: Config, s: State)
    requires cfg.Valid()
  {
    var last := LastChunk(cfg);
    && s.idx == Idx(cfg, s.pos)
    && s.gen == Gen(cfg, s.pos)
    && s.pos <= last + cfg.nchunks
    && s.exitIdx == (if Filled(cfg, s) == last + 1 then Idx(cfg, last) else cfg.nchunks)
    && s.fed == Before(cfg, Filled(cfg, s))
    && match s.pc
       case Scan(n, _) => n <= cfg.nworkers
       case Process(n) => s.pos >= cfg.nchunks && n <= Count(cfg, s.pos - cfg.nchunks)
       case Fill => s.pos <= last
       case StoreWorkers => s.pos <= last
       case StoreGeneration => s.pos <= last
       case Advance => s.pos < last + cfg.nchunks
       case Finished => s.pos == last + cfg.nchunks
       case AwaitWorkers => true
  }

  /** A scan that has restarted nobody has seen finished workers only, and will find the others crashed. */
  ghost predicate ScanInv(cfg: Config, s: State)
    requires |s.workers| == cfg.nworkers
  {
    s.pc.Scan? && !s.pc.restarted ==>
      forall w: nat :: w < cfg.nworkers ==>
        || Done(s.workers[w]) > s.pos - cfg.nchunks
        || (w >= s.pc.next && s.workers[w].sigchld && s.workers[w].pos == s.pos - cfg.nchunks)
  }

  ghost predicate LogInv(cfg: Config, s: State)
    requires cfg.Valid()
  {
    Logged(cfg, s) <= |cfg.inputs| && s.log == Sequential(cfg, Logged(cfg, s))
  }

  ghost predicate WorkersInv(cfg: Config, workers: seq<Worker>, pub: nat, h: nat, low: int)
    requires cfg.Valid()
  {
    && |workers| == cfg.nworkers
    && forall w: nat {:trigger WorkerInv(cfg, w, workers[w], pub, h, low)} ::
         w < cfg.nworkers ==> WorkerInv(cfg, w, workers[w], pub, h, low)
  }

  ghost predicate Inv(cfg: Config, s: State) {
    && cfg.Valid()
    && MainInv(cfg, s)
    && ChunksInv(cfg, s.chunks, Filled(cfg, s), Published(cfg, s))
    && WorkersInv(cfg, s.workers, Published(cfg, s), Filled(cfg, s), Low(cfg, s))
    && CountersInv(cfg, s.chunks, s.workers, Counted(cfg, s))
    && ScanInv(cfg, s)
    && LogInv(cfg, s)
  }
}
