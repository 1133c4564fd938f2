/** The fuzzer's three agents as programs that update shared memory.

Each method is the code between two points at which other agents may run; its contract is the step of the machine
in `RingMachine`.  `Execute` runs any schedule of them.
 */
module RingProgram {
  import opened Common
  import opened RingPositions
  import opened RingMachine
  import opened RingRuns

  class Campaign {
    const cfg: Config
    // shared memory: the input chunks, and in each worker its output chunks
    var chunks: seq<Chunk>
    var workers: seq<Worker>
    // main's variables
    var pc: MainPc
    var gen: nat
    var idx: nat
    var exitIdx: nat
    var fed: nat
    var log: seq<Record>
    ghost var pos: nat

    ghost function Abs(): State
      reads this
    {
      State(chunks, workers, pc, gen, idx, exitIdx, fed, log, pos)
    }

    ghost predicate Safe()
      reads this
    {
      WellFormed(cfg, Abs())
    }

    constructor (cfg: Config)
      requires cfg.Valid()
      ensures this.cfg == cfg && Abs() == Init(cfg)
    {
      this.cfg := cfg;
      chunks := seq(cfg.nchunks, c => Chunk(0, 0, []));
      workers := seq(cfg.nworkers, w => InitialWorker(cfg));
      pc, gen, idx := AwaitWorkers, 1, 0;
      exitIdx, fed, log, pos := cfg.nchunks, 0, [], 0;
    }

    // ----- worker() -----

    method WorkerMove(w: nat)
      requires Safe() && w < cfg.nworkers
      modifies this`chunks, this`workers
      ensures Abs() == WorkerStep(cfg, old(Abs()), w)
    {
      var k := workers[w];
      match k.pc
      case Waiting =>
        if chunks[k.idx].generation == k.gen {
          BeginChunk(w);
        }
      case Decoding =>
        if k.i < |chunks[k.idx].inputs| {
          TryDecode(w);
        } else {
          var c := chunks[k.idx];
          workers := workers[w := k.(pc := Checking)];
          chunks := chunks[k.idx := c.(remainingWorkers := Decrement(c.remainingWorkers))];
        }
      case Checking =>
        if |chunks[k.idx].inputs| != cfg.nslots {
          workers := workers[w := k.(pc := Exited)];
        } else {
          var next, g := k.idx + 1, k.gen;
          if next == cfg.nchunks {
            next, g := 0, U32(g + 1);
          }
          workers := workers[w := k.(pc := Waiting, idx := next, gen := g, pos := k.pos + 1)];
        }
      case Exited =>
      case Crashed =>
    }

    /** From the wait for the generation to the head of the slot loop. */
    method BeginChunk(w: nat)
      requires Safe() && w < cfg.nworkers
      modifies this`workers
      ensures Abs() == SetWorker(old(Abs()), w, Begin(old(workers)[w], |chunks[old(workers)[w].idx].inputs|))
    {
      var k := workers[w];
      var count := |chunks[k.idx].inputs|;
      var oldRemaining := k.out[k.idx].remaining;
      var start := 0;
      if oldRemaining != 0 {
        start := count - oldRemaining + 1;
      }
      var o := k.out[k.idx].(remaining := count - start);
      workers := workers[w := k.(pc := Decoding, i := start, out := k.out[k.idx := o])];
    }

    /** One call of `try_decode` and the store behind it, which a crash prevents. */
    method TryDecode(w: nat)
      requires Safe() && w < cfg.nworkers && workers[w].i < |chunks[workers[w].idx].inputs|
      modifies this`workers
      ensures Abs() == SetWorker(old(Abs()), w, DecodeSlot(cfg, w, old(workers)[w], chunks[old(workers)[w].idx].inputs))
    {
      var k := workers[w];
      var inputs := chunks[k.idx].inputs;
      var outcome := cfg.decode(w, |k.tried|, inputs[k.i]);
      var o := k.out[k.idx];
      k := k.(tried := k.tried + [inputs[k.i]]);
      if outcome.Died? {
        o := o.(outputs := o.outputs[k.i := outcome.partial]);
        workers := workers[w := k.(pc := Crashed, out := k.out[k.idx := o])];
      } else {
        o := o.(outputs := o.outputs[k.i := outcome.out]);
        o := o.(remaining := |inputs| - k.i - 1);
        workers := workers[w := k.(i := k.i + 1, out := k.out[k.idx := o])];
      }
    }

    // ----- sigchld_handler() -----

    /** The handler for one reaped child: it looks through the output chunks until it finds one with slots left. */
    method SigchldHandler(w: nat)
      requires Safe() && w < cfg.nworkers
      modifies this`chunks, this`workers
      ensures Abs() == HandlerStep(cfg, old(Abs()), w)
    {
      var k := workers[w];
      if !(k.pc.Crashed? || k.pc.Exited?) || k.reaped {
        return;
      }
      k := k.(reaped := true);
      workers := workers[w := k];
      var widx := 0;
      while widx < cfg.nchunks
        invariant 0 <= widx <= cfg.nchunks
        invariant FirstBusy(k.out, 0) == FirstBusy(k.out, widx)
        invariant workers == old(workers)[w := k] && chunks == old(chunks)
      {
        if k.out[widx].remaining == 0 {
          widx := widx + 1;
          continue;
        }
        var ch, o := chunks[widx], k.out[widx];
        var slot := |ch.inputs| - o.remaining;
        o := o.(outputs := o.outputs[slot := o.outputs[slot].(status := S_CRASH)]);
        k := k.(out := k.out[widx := o], startGen := ch.generation, startIdx := widx, sigchld := true);
        workers := workers[w := k];
        chunks := chunks[widx := ch.(remainingWorkers := Decrement(ch.remainingWorkers))];
        return;
      }
    }

    // ----- main() -----

    method MainMove()
      requires Safe()
      modifies this
      ensures Abs() == MainStep(cfg, old(Abs()))
    {
      match pc
      case AwaitWorkers =>
        if chunks[idx].remainingWorkers == 0 {
          pc := Scan(0, false);
        }
      case Scan(next, restarted) =>
        if next < cfg.nworkers {
          if workers[next].sigchld {
            RestartWorker(next);
            pc := Scan(next + 1, true);
          } else {
            pc := Scan(next + 1, restarted);
          }
        } else if restarted {
          pc := AwaitWorkers;
        } else if gen > 1 {
          pc := Process(0);
        } else {
          Leave();
        }
      case Process(next) =>
        if next < |chunks[idx].inputs| {
          var record := Collect(next);
          log := log + [record];
          pc := Process(next + 1);
        } else {
          Leave();
        }
      case Fill => FillChunk();
      case StoreWorkers =>
        chunks := chunks[idx := chunks[idx].(remainingWorkers := cfg.nworkers)];
        pc := StoreGeneration;
      case StoreGeneration =>
        chunks := chunks[idx := chunks[idx].(generation := U32(gen))];
        pc := Advance;
      case Advance =>
        idx := idx + 1;
        if idx == cfg.nchunks {
          idx, gen := 0, gen + 1;
        }
        pos, pc := pos + 1, AwaitWorkers;
      case Finished =>
    }

    /** Undo the handler's decrement and start the worker again. */
    method RestartWorker(w: nat)
      requires Safe() && w < cfg.nworkers
      modifies this`chunks, this`workers
      ensures Abs() == Restart(old(Abs()), w)
    {
      var k := workers[w];
      var ch := chunks[k.startIdx];
      chunks := chunks[k.startIdx := ch.(remainingWorkers := U32(ch.remainingWorkers + 1))];
      workers := workers[w := k.(sigchld := false, reaped := false, pc := Waiting, gen := U32(k.startGen), idx := k.startIdx)];
    }

    /** Behind the processing of a chunk: stop, refill or only move on. */
    method Leave()
      requires Safe()
      modifies this`pc
      ensures Abs() == AfterProcess(cfg, old(Abs()))
    {
      if idx == exitIdx {
        pc := Finished;
      } else if exitIdx == cfg.nchunks {
        pc := Fill;
      } else {
        pc := Advance;
      }
    }

    /** What `process` is given: slot `i` of the current chunk from every worker. */
    method Collect(i: nat) returns (record: Record)
      requires Safe() && i < |chunks[idx].inputs|
      ensures record == RecordAt(Abs(), idx, i)
    {
      var outputs: seq<OutputSlot> := [];
      for j := 0 to cfg.nworkers
        invariant |outputs| == j && forall w :: 0 <= w < j ==> outputs[w] == workers[w].out[idx].outputs[i]
      {
        outputs := outputs + [workers[j].out[idx].outputs[i]];
      }
      record := Record(chunks[idx].inputs[i], outputs);
    }

    /** Ask the mutator for a chunk; the first refusal ends the campaign. */
    method FillChunk()
      requires Safe()
      modifies this`chunks, this`fed, this`exitIdx, this`pc
      ensures Abs() == FillStep(cfg, old(Abs()))
    {
      var inputs: seq<InputSlot> := [];
      var i := 0;
      while i < cfg.nslots
        invariant |inputs| == i <= cfg.nslots && fed == old(fed) + i <= |cfg.inputs|
        invariant inputs == cfg.inputs[old(fed)..fed]
        invariant exitIdx == old(exitIdx) && chunks == old(chunks)
      {
        if fed == |cfg.inputs| {
          exitIdx := idx;
          break;
        }
        inputs := inputs + [cfg.inputs[fed]];
        fed, i := fed + 1, i + 1;
      }
      assert inputs == Batch(cfg, old(fed));
      chunks := chunks[idx := chunks[idx].(inputs := inputs)];
      pc := StoreWorkers;
    }
  }

  /** Any schedule of the three agents, started from scratch: what main collects on the way is what one sequential pass
      over the inputs gives. */
  method Execute(cfg: Config, schedule: seq<Event>) returns (c: Campaign)
    requires cfg.Valid()
    ensures fresh(c) && c.cfg == cfg && c.Abs() == Run(cfg, schedule)
    ensures c.log <= Sequential(cfg, |cfg.inputs|)
    ensures c.pc.Finished? ==> c.log == Sequential(cfg, |cfg.inputs|)
  {
    c := new Campaign(cfg);
    for n := 0 to |schedule|
      invariant fresh(c) && c.cfg == cfg && c.Abs() == Run(cfg, schedule[..n])
    {
      RunInv(cfg, schedule[..n]);
      assert schedule[..n + 1][..n] == schedule[..n];
      match schedule[n]
      case MainMoves => c.MainMove();
      case WorkerMoves(w) =>
        if w < cfg.nworkers {
          c.WorkerMove(w);
        }
      case HandlerReaps(w) =>
        if w < cfg.nworkers {
          c.SigchldHandler(w);
        }
    }
    assert schedule[..|schedule|] == schedule;
    RingRefinesSequential(cfg, schedule);
  }
}
