/** The ring with its waits made of futex operations.

Every chunk has two cells of the `Futex` model, one for `remaining_workers` and one for `generation`.  Main's wait for a
chunk and a worker's wait for a generation go through these cells, spinning, sleeping and all; a store that needs a
notification leaves its writer with the notification still to do.  What main's own thread stores, the handler's decrement
included, is stored without notifying, as only main waits for `remaining_workers`.
 */
module RingFutex {
  import opened Common
  import opened RingPositions
  import opened RingMachine
  import opened RingInvariant
  import opened RingSteps
  import opened RingRuns
  import F = Futex

  datatype Fuzzer = Fuzzer(ring: State, rem: seq<F.Cell>, gens: seq<F.Cell>)

  datatype Turn = MainTurn(sleepy: bool) | WorkerTurn(w: nat, sleepy: bool) | HandlerTurn(w: nat)

  ghost predicate Shaped(cfg: Config, p: Fuzzer) {
    && WellFormed(cfg, p.ring) && |p.rem| == |p.gens| == cfg.nchunks
    && (forall c :: 0 <= c < cfg.nchunks ==> |p.rem[c].waiters| == 1 && |p.rem[c].writers| == cfg.nworkers)
    && (forall c :: 0 <= c < cfg.nchunks ==> |p.gens[c].waiters| == cfg.nworkers && |p.gens[c].writers| == 1)
  }

  // ----- turns -----

  /** A waiter enters `mish_atomic_wait_for`. */
  function Enter(cells: seq<F.Cell>, c: nat, i: nat, target: nat): seq<F.Cell>
    requires c < |cells| && i < |cells[c].waiters|
  {
    cells[c := cells[c].(waiters := cells[c].waiters[i := F.Waiter(target, F.Loading)])]
  }

  ghost function MainTurnStep(cfg: Config, p: Fuzzer, sleepy: bool): Fuzzer
    requires Shaped(cfg, p)
  {
    var s := p.ring;
    var t := MainStep(cfg, s);
    match s.pc
    case AwaitWorkers =>
      var cell := F.WaiterStep(p.rem[s.idx], 0, sleepy);
      Fuzzer(if cell.waiters[0].pc.Returned? then t else s, p.rem[s.idx := cell], p.gens)
    case Scan(next, restarted) =>
      if next < cfg.nworkers && s.workers[next].sigchld then
        var c := s.workers[next].startIdx;
        Fuzzer(t, p.rem[c := F.HandlerStep(p.rem[c], 0, t.chunks[c].remainingWorkers)],
               Enter(p.gens, c, next, t.workers[next].gen))
      else if t.pc.AwaitWorkers? then Fuzzer(t, Enter(p.rem, t.idx, 0, 0), p.gens)
      else p.(ring := t)
    case StoreWorkers =>
      p.(ring := t, rem := p.rem[s.idx := F.HandlerStep(p.rem[s.idx], 0, cfg.nworkers)])
    case StoreGeneration =>
      p.(ring := t, gens := p.gens[s.idx := F.Next(F.GenerationDiscipline(), p.gens[s.idx], F.Store(0, U32(s.gen)))])
    case Advance =>
      if !p.gens[s.idx].writers[0].Idle? then p.(gens := p.gens[s.idx := F.WriterStep(p.gens[s.idx], 0)])
      else Fuzzer(t, Enter(p.rem, t.idx, 0, 0), p.gens)
    case _ => p.(ring := t)
  }

  ghost function WorkerTurnStep(cfg: Config, p: Fuzzer, w: nat, sleepy: bool): Fuzzer
    requires Shaped(cfg, p) && w < cfg.nworkers
  {
    var s := p.ring;
    var k := s.workers[w];
    var t := WorkerStep(cfg, s, w);
    match k.pc
    case Waiting =>
      var cell := F.WaiterStep(p.gens[k.idx], w, sleepy);
      Fuzzer(if cell.waiters[w].pc.Returned? then t else s, p.rem, p.gens[k.idx := cell])
    case Decoding =>
      if k.i < |s.chunks[k.idx].inputs| then p.(ring := t)
      else
        var v := Decrement(s.chunks[k.idx].remainingWorkers);
        p.(ring := t, rem := p.rem[k.idx := F.Next(F.RemainingDiscipline(), p.rem[k.idx], F.Store(w, v))])
    case Checking =>
      if !p.rem[k.idx].writers[w].Idle? then p.(rem := p.rem[k.idx := F.WriterStep(p.rem[k.idx], w)])
      else if t.workers[w].pc.Waiting? then p.(ring := t, gens := Enter(p.gens, t.workers[w].idx, w, t.workers[w].gen))
      else p.(ring := t)
    case _ => p.(ring := t)
  }

  ghost function HandlerTurnStep(cfg: Config, p: Fuzzer, w: nat): Fuzzer
    requires Shaped(cfg, p) && w < cfg.nworkers
  {
    var s := p.ring;
    var k := s.workers[w];
    var t := HandlerStep(cfg, s, w);
    if (k.pc.Crashed? || k.pc.Exited?) && !k.reaped && FirstBusy(k.out, 0).Some? then
      var c := FirstBusy(k.out, 0).value;
      p.(ring := t, rem := p.rem[c := F.HandlerStep(p.rem[c], 0, Decrement(s.chunks[c].remainingWorkers))])
    else p.(ring := t)
  }

  ghost function TakeTurn(cfg: Config, p: Fuzzer, turn: Turn): Fuzzer
    requires Shaped(cfg, p)
  {
    match turn
    case MainTurn(sleepy) => MainTurnStep(cfg, p, sleepy)
    case WorkerTurn(w, sleepy) => if w < cfg.nworkers then WorkerTurnStep(cfg, p, w, sleepy) else p
    case HandlerTurn(w) => if w < cfg.nworkers then HandlerTurnStep(cfg, p, w) else p
  }

  /** The event of the ring machine that a turn is, when it is one. */
  function EventOf(turn: Turn): Event {
    match turn
    case MainTurn(_) => MainMoves
    case WorkerTurn(w, _) => WorkerMoves(w)
    case HandlerTurn(w) => HandlerReaps(w)
  }

  /** A turn moves the ring as the ring machine does, or not at all. */
  lemma TurnIsStep(cfg: Config, p: Fuzzer, turn: Turn)
    requires Shaped(cfg, p)
    ensures TakeTurn(cfg, p, turn).ring == p.ring || TakeTurn(cfg, p, turn).ring == Next(cfg, p.ring, EventOf(turn))
  {
  }

  // ----- how cells and ring hang together -----

  /** Main waits at a cell exactly while it is in its wait for that chunk; only workers that have just signed the chunk
      off have a notification left to do. */
  ghost predicate RemCell(cfg: Config, s: State, c: nat, cell: F.Cell)
    requires WellFormed(cfg, s) && c < cfg.nchunks
  {
    && F.Inv(cell) && |cell.waiters| == 1 && |cell.writers| == cfg.nworkers
    && cell.val == s.chunks[c].remainingWorkers && cell.waiters[0].target == 0
    && (cell.waiters[0].pc.Returned? <==> !(s.pc.AwaitWorkers? && s.idx == c))
    && (forall w :: 0 <= w < cfg.nworkers && !cell.writers[w].Idle? ==> s.workers[w].pc.Checking? && s.workers[w].idx == c)
  }

  /** A worker waits at a cell exactly while it is in its wait for that chunk, for its own generation; only main has a
      notification left to do, behind the store. */
  ghost predicate GenCell(cfg: Config, s: State, c: nat, cell: F.Cell)
    requires WellFormed(cfg, s) && c < cfg.nchunks
  {
    && F.Inv(cell) && |cell.waiters| == cfg.nworkers && |cell.writers| == 1
    && cell.val == s.chunks[c].generation
    && (forall w :: 0 <= w < cfg.nworkers ==>
          && (cell.waiters[w].pc.Returned? <==> !(s.workers[w].pc.Waiting? && s.workers[w].idx == c))
          && (!cell.waiters[w].pc.Returned? ==> cell.waiters[w].target == s.workers[w].gen))
    && (!cell.writers[0].Idle? ==> s.pc.Advance? && s.idx == c)
  }

  ghost predicate Coherent(cfg: Config, p: Fuzzer) {
    && Shaped(cfg, p)
    && (forall c :: 0 <= c < cfg.nchunks ==> RemCell(cfg, p.ring, c, p.rem[c]))
    && (forall c :: 0 <= c < cfg.nchunks ==> GenCell(cfg, p.ring, c, p.gens[c]))
  }

  // ----- cells under one operation -----

  lemma EnterInv(cell: F.Cell, i: nat, target: nat)
    requires F.Inv(cell) && i < |cell.waiters| && cell.waiters[i].pc.Returned?
    ensures F.Inv(cell.(waiters := cell.waiters[i := F.Waiter(target, F.Loading)]))
  {
    F.RegistrationsUpdate(cell.waiters, i, F.Waiter(target, F.Loading));
  }

  lemma RemStoreInv(cell: F.Cell, w: nat, v: nat)
    requires F.Inv(cell) && |cell.waiters| == 1 && cell.waiters[0].target == 0 && w < |cell.writers| && cell.writers[w].Idle?
    ensures var t := F.Next(F.RemainingDiscipline(), cell, F.Store(w, v));
            && F.Inv(t) && t.val == v && t.waiters == cell.waiters && |t.writers| == |cell.writers|
            && forall j :: 0 <= j < |cell.writers| && j != w ==> t.writers[j] == cell.writers[j]
  {
    F.RingCells(cell);
    F.CoversDisciplined(F.RemainingDiscipline(), cell, cell);
    F.StoreInv(F.RemainingDiscipline(), cell, w, v);
  }

  lemma GenStoreInv(cell: F.Cell, v: nat)
    requires F.Inv(cell) && |cell.writers| == 1 && cell.writers[0].Idle?
    ensures var t := F.Next(F.GenerationDiscipline(), cell, F.Store(0, v));
            F.Inv(t) && t.val == v && t.waiters == cell.waiters && |t.writers| == 1
  {
    F.RingCells(cell);
    F.CoversDisciplined(F.GenerationDiscipline(), cell, cell);
    F.StoreInv(F.GenerationDiscipline(), cell, 0, v);
  }

  /** A store by main's own thread. */
  lemma OwnStoreInv(cell: F.Cell, v: nat)
    requires F.Inv(cell) && |cell.waiters| == 1
    ensures var t := F.HandlerStep(cell, 0, v);
            && F.Inv(t) && t.val == v && t.writers == cell.writers && |t.waiters| == 1
            && t.waiters[0].target == cell.waiters[0].target
            && (t.waiters[0].pc.Returned? <==> cell.waiters[0].pc.Returned?)
  {
    F.HandlerStepInv(cell, 0, v);
  }

  /** A writer's notification changes nobody's target, lets nobody out of the wait, and keeps the other writers. */
  lemma NotifyInv(cell: F.Cell, j: nat)
    requires F.Inv(cell) && j < |cell.writers|
    ensures var t := F.WriterStep(cell, j);
            && F.Inv(t) && t.val == cell.val && |t.writers| == |cell.writers| && |t.waiters| == |cell.waiters|
            && (forall i :: 0 <= i < |cell.writers| && i != j ==> t.writers[i] == cell.writers[i])
            && (forall i :: 0 <= i < |cell.waiters| ==>
                  && t.waiters[i].target == cell.waiters[i].target
                  && (t.waiters[i].pc.Returned? <==> cell.waiters[i].pc.Returned?))
  {
    F.WriterStepInv(cell, j);
  }

  /** A waiter's move touches only the waiter, and takes it out of the wait exactly if it sees its target. */
  lemma WaitInv(cell: F.Cell, i: nat, sleepy: bool)
    requires F.Inv(cell) && i < |cell.waiters|
    ensures var t := F.WaiterStep(cell, i, sleepy);
            && F.Inv(t) && t.val == cell.val && t.writers == cell.writers && |t.waiters| == |cell.waiters|
            && (forall j :: 0 <= j < |cell.waiters| && j != i ==> t.waiters[j] == cell.waiters[j])
            && t.waiters[i].target == cell.waiters[i].target
            && (t.waiters[i].pc.Returned? && !cell.waiters[i].pc.Returned? ==> cell.val == cell.waiters[i].target)
            && (cell.waiters[i].pc.Returned? ==> t == cell)
  {
    F.WaiterStepInv(cell, i, sleepy);
  }

  // ----- every turn keeps cells and ring together -----

  /** The cell of a chunk whose part of the ring does not change. */
  lemma RemFrame(cfg: Config, s: State, t: State, c: nat, cell: F.Cell)
    requires WellFormed(cfg, s) && WellFormed(cfg, t) && c < cfg.nchunks && RemCell(cfg, s, c, cell)
    requires t.chunks[c].remainingWorkers == s.chunks[c].remainingWorkers
    requires (t.pc.AwaitWorkers? && t.idx == c) <==> (s.pc.AwaitWorkers? && s.idx == c)
    requires forall w :: 0 <= w < cfg.nworkers && !cell.writers[w].Idle? && s.workers[w].pc.Checking? && s.workers[w].idx == c
               ==> t.workers[w].pc.Checking? && t.workers[w].idx == c
    ensures RemCell(cfg, t, c, cell)
  {
  }

  lemma GenFrame(cfg: Config, s: State, t: State, c: nat, cell: F.Cell)
    requires WellFormed(cfg, s) && WellFormed(cfg, t) && c < cfg.nchunks && GenCell(cfg, s, c, cell)
    requires t.chunks[c].generation == s.chunks[c].generation
    requires forall w :: 0 <= w < cfg.nworkers ==>
               && ((t.workers[w].pc.Waiting? && t.workers[w].idx == c) <==>
                   (s.workers[w].pc.Waiting? && s.workers[w].idx == c))
               && (t.workers[w].pc.Waiting? && t.workers[w].idx == c ==> t.workers[w].gen == s.workers[w].gen)
    requires s.pc.Advance? && s.idx == c && !cell.writers[0].Idle? ==> t.pc.Advance? && t.idx == c
    ensures GenCell(cfg, t, c, cell)
  {
  }

  /** Main moves and no cell changes. */
  lemma PlainMain(cfg: Config, p: Fuzzer, t: State)
    requires Coherent(cfg, p) && WellFormed(cfg, t) && t.workers == p.ring.workers
    requires forall c :: 0 <= c < cfg.nchunks ==>
               && t.chunks[c].remainingWorkers == p.ring.chunks[c].remainingWorkers
               && t.chunks[c].generation == p.ring.chunks[c].generation
    requires !p.ring.pc.AwaitWorkers? && !t.pc.AwaitWorkers? && (p.ring.pc.Advance? ==> t == p.ring)
    ensures Coherent(cfg, p.(ring := t))
  {
    forall c | 0 <= c < cfg.nchunks
      ensures RemCell(cfg, t, c, p.rem[c]) && GenCell(cfg, t, c, p.gens[c])
    {
      RemFrame(cfg, p.ring, t, c, p.rem[c]);
      GenFrame(cfg, p.ring, t, c, p.gens[c]);
    }
  }

  /** Main enters its wait. */
  lemma MainEnters(cfg: Config, p: Fuzzer, t: State)
    requires Coherent(cfg, p) && WellFormed(cfg, t) && t.workers == p.ring.workers && t.chunks == p.ring.chunks
    requires !p.ring.pc.AwaitWorkers? && t.pc.AwaitWorkers?
    requires p.ring.pc.Advance? ==> p.gens[p.ring.idx].writers[0].Idle?
    ensures Coherent(cfg, Fuzzer(t, Enter(p.rem, t.idx, 0, 0), p.gens))
  {
    var rem := Enter(p.rem, t.idx, 0, 0);
    EnterInv(p.rem[t.idx], 0, 0);
    forall c | 0 <= c < cfg.nchunks
      ensures RemCell(cfg, t, c, rem[c]) && GenCell(cfg, t, c, p.gens[c])
    {
      if c != t.idx {
        RemFrame(cfg, p.ring, t, c, p.rem[c]);
      }
      GenFrame(cfg, p.ring, t, c, p.gens[c]);
    }
  }

  /** A move inside main's wait. */
  lemma MainWaits(cfg: Config, p: Fuzzer, sleepy: bool)
    requires Coherent(cfg, p) && p.ring.pc.AwaitWorkers? && WellFormed(cfg, MainStep(cfg, p.ring))
    ensures Coherent(cfg, MainTurnStep(cfg, p, sleepy))
  {
    var s := p.ring;
    var q := MainTurnStep(cfg, p, sleepy);
    WaitInv(p.rem[s.idx], 0, sleepy);
    forall c | 0 <= c < cfg.nchunks
      ensures RemCell(cfg, q.ring, c, q.rem[c]) && GenCell(cfg, q.ring, c, q.gens[c])
    {
      if c != s.idx {
        RemFrame(cfg, s, q.ring, c, p.rem[c]);
      }
      GenFrame(cfg, s, q.ring, c, p.gens[c]);
    }
  }

  /** Main stores `remaining_workers` for the chunk it has filled. */
  lemma MainStoresWorkers(cfg: Config, p: Fuzzer, sleepy: bool)
    requires Coherent(cfg, p) && p.ring.pc.StoreWorkers? && WellFormed(cfg, MainStep(cfg, p.ring))
    ensures Coherent(cfg, MainTurnStep(cfg, p, sleepy))
  {
    var s := p.ring;
    var q := MainTurnStep(cfg, p, sleepy);
    OwnStoreInv(p.rem[s.idx], cfg.nworkers);
    forall c | 0 <= c < cfg.nchunks
      ensures RemCell(cfg, q.ring, c, q.rem[c]) && GenCell(cfg, q.ring, c, q.gens[c])
    {
      if c != s.idx {
        RemFrame(cfg, s, q.ring, c, p.rem[c]);
      }
      GenFrame(cfg, s, q.ring, c, p.gens[c]);
    }
  }

  /** Main publishes a generation. */
  lemma MainPublishes(cfg: Config, p: Fuzzer, sleepy: bool)
    requires Coherent(cfg, p) && p.ring.pc.StoreGeneration? && WellFormed(cfg, MainStep(cfg, p.ring))
    ensures Coherent(cfg, MainTurnStep(cfg, p, sleepy))
    ensures MainTurnStep(cfg, p, sleepy).gens[p.ring.idx].writers[0] == F.Stored
  {
    var s := p.ring;
    var q := MainTurnStep(cfg, p, sleepy);
    GenStoreInv(p.gens[s.idx], U32(s.gen));
    forall c | 0 <= c < cfg.nchunks
      ensures RemCell(cfg, q.ring, c, q.rem[c]) && GenCell(cfg, q.ring, c, q.gens[c])
    {
      RemFrame(cfg, s, q.ring, c, p.rem[c]);
      if c != s.idx {
        GenFrame(cfg, s, q.ring, c, p.gens[c]);
      }
    }
  }

  /** Main notifies those who wait for the generation. */
  lemma MainNotifies(cfg: Config, p: Fuzzer)
    requires Coherent(cfg, p) && p.ring.pc.Advance?
    ensures Coherent(cfg, p.(gens := p.gens[p.ring.idx := F.WriterStep(p.gens[p.ring.idx], 0)]))
  {
    NotifyInv(p.gens[p.ring.idx], 0);
  }

  /** Main undoes a decrement and starts a worker, which enters its wait. */
  lemma MainRestarts(cfg: Config, p: Fuzzer, w: nat, at: nat, k: Worker, v: nat, t: State)
    requires Coherent(cfg, p) && WellFormed(cfg, t) && w < cfg.nworkers && at < cfg.nchunks
    requires p.ring.pc.Scan? && t.pc.Scan? && p.ring.workers[w].pc.Crashed?
    requires k.pc.Waiting? && k.idx == at
    requires t == AddRemaining(SetWorker(p.ring, w, k), at, v).(pc := t.pc)
    ensures Coherent(cfg, Fuzzer(t, p.rem[at := F.HandlerStep(p.rem[at], 0, v)], Enter(p.gens, at, w, k.gen)))
  {
    MainRestartsRem(cfg, p, w, at, k, v, t, p.rem[at := F.HandlerStep(p.rem[at], 0, v)]);
    MainRestartsGens(cfg, p, w, at, k, v, t, Enter(p.gens, at, w, k.gen));
  }

  lemma MainRestartsRem(cfg: Config, p: Fuzzer, w: nat, at: nat, k: Worker, v: nat, t: State, rem: seq<F.Cell>)
    requires Coherent(cfg, p) && WellFormed(cfg, t) && w < cfg.nworkers && at < cfg.nchunks
    requires p.ring.pc.Scan? && t.pc.Scan? && p.ring.workers[w].pc.Crashed?
    requires t == AddRemaining(SetWorker(p.ring, w, k), at, v).(pc := t.pc)
    requires rem == p.rem[at := F.HandlerStep(p.rem[at], 0, v)]
    ensures forall c :: 0 <= c < cfg.nchunks ==> RemCell(cfg, t, c, rem[c])
  {
    OwnStoreInv(p.rem[at], v);
    forall c | 0 <= c < cfg.nchunks
      ensures RemCell(cfg, t, c, rem[c])
    {
      if c != at {
        RemFrame(cfg, p.ring, t, c, p.rem[c]);
      }
    }
  }

  lemma MainRestartsGens(cfg: Config, p: Fuzzer, w: nat, at: nat, k: Worker, v: nat, t: State, gens: seq<F.Cell>)
    requires Coherent(cfg, p) && WellFormed(cfg, t) && w < cfg.nworkers && at < cfg.nchunks
    requires p.ring.pc.Scan? && t.pc.Scan? && p.ring.workers[w].pc.Crashed?
    requires k.pc.Waiting? && k.idx == at
    requires t == AddRemaining(SetWorker(p.ring, w, k), at, v).(pc := t.pc)
    requires gens == Enter(p.gens, at, w, k.gen)
    ensures forall c :: 0 <= c < cfg.nchunks ==> GenCell(cfg, t, c, gens[c])
  {
    EnterInv(p.gens[at], w, k.gen);
    forall c | 0 <= c < cfg.nchunks
      ensures GenCell(cfg, t, c, gens[c])
    {
      if c != at {
        GenFrame(cfg, p.ring, t, c, p.gens[c]);
      }
    }
  }

  lemma ScanTurnCoherent(cfg: Config, p: Fuzzer, sleepy: bool)
    requires Coherent(cfg, p) && p.ring.pc.Scan? && WellFormed(cfg, MainStep(cfg, p.ring))
    requires forall w :: 0 <= w < cfg.nworkers && p.ring.workers[w].sigchld ==> p.ring.workers[w].pc.Crashed?
    ensures Coherent(cfg, MainTurnStep(cfg, p, sleepy))
  {
    var s := p.ring;
    var t := MainStep(cfg, s);
    var w := s.pc.next;
    if w < cfg.nworkers && s.workers[w].sigchld {
      var at := s.workers[w].startIdx;
      MainRestarts(cfg, p, w, at, Revive(s.workers[w]), t.chunks[at].remainingWorkers, t);
    } else if t.pc.AwaitWorkers? {
      MainEnters(cfg, p, t);
    } else {
      PlainMain(cfg, p, t);
    }
  }

  lemma AdvanceTurnCoherent(cfg: Config, p: Fuzzer, sleepy: bool)
    requires Coherent(cfg, p) && p.ring.pc.Advance? && WellFormed(cfg, MainStep(cfg, p.ring))
    ensures Coherent(cfg, MainTurnStep(cfg, p, sleepy))
  {
    if !p.gens[p.ring.idx].writers[0].Idle? {
      MainNotifies(cfg, p);
    } else {
      MainEnters(cfg, p, MainStep(cfg, p.ring));
    }
  }

  lemma MainTurnCoherent(cfg: Config, p: Fuzzer, sleepy: bool)
    requires Coherent(cfg, p) && WellFormed(cfg, MainStep(cfg, p.ring))
    requires forall w :: 0 <= w < cfg.nworkers && p.ring.workers[w].sigchld ==> p.ring.workers[w].pc.Crashed?
    ensures Coherent(cfg, MainTurnStep(cfg, p, sleepy))
  {
    match p.ring.pc
    case AwaitWorkers => MainWaits(cfg, p, sleepy);
    case Scan(_, _) => ScanTurnCoherent(cfg, p, sleepy);
    case StoreWorkers => MainStoresWorkers(cfg, p, sleepy);
    case StoreGeneration => MainPublishes(cfg, p, sleepy);
    case Advance => AdvanceTurnCoherent(cfg, p, sleepy);
    case _ => PlainMain(cfg, p, MainStep(cfg, p.ring));
  }

  /** A worker moves and no cell changes. */
  lemma PlainWorker(cfg: Config, p: Fuzzer, w: nat, t: State)
    requires Coherent(cfg, p) && WellFormed(cfg, t) && w < cfg.nworkers
    requires t == p.ring.(workers := p.ring.workers[w := t.workers[w]])
    requires !p.ring.workers[w].pc.Waiting? && !t.workers[w].pc.Waiting?
    requires p.ring.workers[w].pc.Checking? ==> p.rem[p.ring.workers[w].idx].writers[w].Idle?
    ensures Coherent(cfg, p.(ring := t))
  {
    forall c | 0 <= c < cfg.nchunks
      ensures RemCell(cfg, t, c, p.rem[c]) && GenCell(cfg, t, c, p.gens[c])
    {
      RemFrame(cfg, p.ring, t, c, p.rem[c]);
      GenFrame(cfg, p.ring, t, c, p.gens[c]);
    }
  }

  /** A worker that is done with a chunk enters its wait for the next. */
  lemma WorkerEnters(cfg: Config, p: Fuzzer, w: nat, t: State)
    requires Coherent(cfg, p) && WellFormed(cfg, t) && w < cfg.nworkers
    requires t == p.ring.(workers := p.ring.workers[w := t.workers[w]])
    requires p.ring.workers[w].pc.Checking? && t.workers[w].pc.Waiting?
    requires p.rem[p.ring.workers[w].idx].writers[w].Idle?
    ensures Coherent(cfg, p.(ring := t, gens := Enter(p.gens, t.workers[w].idx, w, t.workers[w].gen)))
  {
    var at := t.workers[w].idx;
    var gens := Enter(p.gens, at, w, t.workers[w].gen);
    EnterInv(p.gens[at], w, t.workers[w].gen);
    forall c | 0 <= c < cfg.nchunks
      ensures RemCell(cfg, t, c, p.rem[c]) && GenCell(cfg, t, c, gens[c])
    {
      RemFrame(cfg, p.ring, t, c, p.rem[c]);
      if c != at {
        GenFrame(cfg, p.ring, t, c, p.gens[c]);
      }
    }
  }

  /** A move inside a worker's wait. */
  lemma WorkerWaits(cfg: Config, p: Fuzzer, w: nat, sleepy: bool)
    requires Coherent(cfg, p) && w < cfg.nworkers && p.ring.workers[w].pc.Waiting?
    requires WellFormed(cfg, WorkerStep(cfg, p.ring, w))
    ensures Coherent(cfg, WorkerTurnStep(cfg, p, w, sleepy))
  {
    var at := p.ring.workers[w].idx;
    var cell := F.WaiterStep(p.gens[at], w, sleepy);
    WaitInv(p.gens[at], w, sleepy);
    if cell.waiters[w].pc.Returned? {
      var t := WorkerStep(cfg, p.ring, w);
      WorkerLeavesWait(cfg, p, w, t.workers[w], t, cell, p.gens[at := cell]);
      WorkerAside(cfg, p, w, t.workers[w], t);
    } else {
      WorkerStaysInWait(cfg, p, w, cell, p.gens[at := cell]);
    }
  }

  /** What the cells of `remaining_workers` see of a worker in its wait. */
  lemma WorkerAside(cfg: Config, p: Fuzzer, w: nat, k: Worker, t: State)
    requires Coherent(cfg, p) && WellFormed(cfg, t) && w < cfg.nworkers && !p.ring.workers[w].pc.Checking?
    requires t == SetWorker(p.ring, w, k)
    ensures forall c :: 0 <= c < cfg.nchunks ==> RemCell(cfg, t, c, p.rem[c])
  {
    forall c | 0 <= c < cfg.nchunks
      ensures RemCell(cfg, t, c, p.rem[c])
    {
      RemFrame(cfg, p.ring, t, c, p.rem[c]);
    }
  }

  /** What a waiter's move leaves of its cell. */
  ghost predicate MovedAlone(was: F.Cell, cell: F.Cell, w: nat) {
    && F.Inv(cell) && cell.val == was.val && cell.writers == was.writers && |cell.waiters| == |was.waiters| > w
    && (forall j :: 0 <= j < |was.waiters| && j != w ==> cell.waiters[j] == was.waiters[j])
    && cell.waiters[w].target == was.waiters[w].target
  }

  lemma WorkerStaysInWait(cfg: Config, p: Fuzzer, w: nat, cell: F.Cell, gens: seq<F.Cell>)
    requires Coherent(cfg, p) && w < cfg.nworkers && p.ring.workers[w].pc.Waiting?
    requires MovedAlone(p.gens[p.ring.workers[w].idx], cell, w) && !cell.waiters[w].pc.Returned?
    requires gens == p.gens[p.ring.workers[w].idx := cell]
    ensures Coherent(cfg, p.(gens := gens))
  {
    assert GenCell(cfg, p.ring, p.ring.workers[w].idx, cell);
  }

  /** The worker has seen its generation. */
  lemma WorkerLeavesWait(cfg: Config, p: Fuzzer, w: nat, k: Worker, t: State, cell: F.Cell, gens: seq<F.Cell>)
    requires Coherent(cfg, p) && WellFormed(cfg, t) && w < cfg.nworkers
    requires p.ring.workers[w].pc.Waiting? && k.pc.Decoding? && t == SetWorker(p.ring, w, k)
    requires MovedAlone(p.gens[p.ring.workers[w].idx], cell, w) && cell.waiters[w].pc.Returned?
    requires gens == p.gens[p.ring.workers[w].idx := cell]
    ensures forall c :: 0 <= c < cfg.nchunks ==> GenCell(cfg, t, c, gens[c])
  {
    forall c | 0 <= c < cfg.nchunks
      ensures GenCell(cfg, t, c, gens[c])
    {
      if c != p.ring.workers[w].idx {
        GenFrame(cfg, p.ring, t, c, p.gens[c]);
      }
    }
  }

  /** A worker signs a chunk off, and must notify if it was the last. */
  lemma WorkerSignsOff(cfg: Config, p: Fuzzer, w: nat, sleepy: bool)
    requires Coherent(cfg, p) && w < cfg.nworkers && WellFormed(cfg, WorkerStep(cfg, p.ring, w))
    requires p.ring.workers[w].pc.Decoding? && p.ring.workers[w].i >= |p.ring.chunks[p.ring.workers[w].idx].inputs|
    ensures Coherent(cfg, WorkerTurnStep(cfg, p, w, sleepy))
    ensures var at := p.ring.workers[w].idx; var q := WorkerTurnStep(cfg, p, w, sleepy);
            q.rem[at].writers[w] == if q.ring.chunks[at].remainingWorkers == 0 then F.Stored else F.Idle
  {
    var s := p.ring;
    var at := s.workers[w].idx;
    var q := WorkerTurnStep(cfg, p, w, sleepy);
    RemStoreInv(p.rem[at], w, Decrement(s.chunks[at].remainingWorkers));
    forall c | 0 <= c < cfg.nchunks
      ensures RemCell(cfg, q.ring, c, q.rem[c]) && GenCell(cfg, q.ring, c, q.gens[c])
    {
      if c != at {
        RemFrame(cfg, s, q.ring, c, p.rem[c]);
      }
      GenFrame(cfg, s, q.ring, c, p.gens[c]);
    }
  }

  lemma WorkerNotifies(cfg: Config, p: Fuzzer, w: nat)
    requires Coherent(cfg, p) && w < cfg.nworkers && p.ring.workers[w].pc.Checking?
    ensures var at := p.ring.workers[w].idx; Coherent(cfg, p.(rem := p.rem[at := F.WriterStep(p.rem[at], w)]))
  {
    NotifyInv(p.rem[p.ring.workers[w].idx], w);
  }

  lemma WorkerTurnCoherent(cfg: Config, p: Fuzzer, w: nat, sleepy: bool)
    requires Coherent(cfg, p) && w < cfg.nworkers && WellFormed(cfg, WorkerStep(cfg, p.ring, w))
    ensures Coherent(cfg, WorkerTurnStep(cfg, p, w, sleepy))
  {
    var s := p.ring;
    var k := s.workers[w];
    var t := WorkerStep(cfg, s, w);
    match k.pc
    case Waiting => WorkerWaits(cfg, p, w, sleepy);
    case Decoding =>
      if k.i < |s.chunks[k.idx].inputs| {
        PlainWorker(cfg, p, w, t);
      } else {
        WorkerSignsOff(cfg, p, w, sleepy);
      }
    case Checking =>
      if !p.rem[k.idx].writers[w].Idle? {
        WorkerNotifies(cfg, p, w);
      } else if t.workers[w].pc.Waiting? {
        WorkerEnters(cfg, p, w, t);
      } else {
        PlainWorker(cfg, p, w, t);
      }
    case _ =>
  }

  /** The handler finds the chunk a worker died in, and decrements without notifying. */
  lemma HandlerMarks(cfg: Config, p: Fuzzer, w: nat, at: nat, k: Worker, t: State)
    requires Coherent(cfg, p) && WellFormed(cfg, t) && w < cfg.nworkers && at < cfg.nchunks
    requires !p.ring.workers[w].pc.Waiting? && !p.ring.workers[w].pc.Checking? && k.pc == p.ring.workers[w].pc
    requires t == AddRemaining(SetWorker(p.ring, w, k), at, Decrement(p.ring.chunks[at].remainingWorkers))
    ensures Coherent(cfg, p.(ring := t,
                             rem := p.rem[at := F.HandlerStep(p.rem[at], 0, t.chunks[at].remainingWorkers)]))
  {
    var rem := p.rem[at := F.HandlerStep(p.rem[at], 0, t.chunks[at].remainingWorkers)];
    OwnStoreInv(p.rem[at], t.chunks[at].remainingWorkers);
    forall c | 0 <= c < cfg.nchunks
      ensures RemCell(cfg, t, c, rem[c]) && GenCell(cfg, t, c, p.gens[c])
    {
      GenFrame(cfg, p.ring, t, c, p.gens[c]);
      if c != at {
        RemFrame(cfg, p.ring, t, c, p.rem[c]);
      }
    }
  }

  lemma HandlerTurnCoherent(cfg: Config, p: Fuzzer, w: nat)
    requires Coherent(cfg, p) && w < cfg.nworkers && WellFormed(cfg, HandlerStep(cfg, p.ring, w))
    ensures Coherent(cfg, HandlerTurnStep(cfg, p, w))
  {
    var k := p.ring.workers[w];
    var t := HandlerStep(cfg, p.ring, w);
    if (k.pc.Crashed? || k.pc.Exited?) && !k.reaped {
      match FirstBusy(k.out, 0)
      case None => PlainWorker(cfg, p, w, t);
      case Some(at) => HandlerMarks(cfg, p, w, at, t.workers[w], t);
    }
  }

  lemma TurnInv(cfg: Config, p: Fuzzer, turn: Turn)
    requires Shaped(cfg, p) && Inv(cfg, p.ring)
    ensures Inv(cfg, TakeTurn(cfg, p, turn).ring)
    ensures WellFormed(cfg, Next(cfg, p.ring, EventOf(turn)))
    ensures forall w :: 0 <= w < cfg.nworkers && p.ring.workers[w].sigchld ==> p.ring.workers[w].pc.Crashed?
  {
    TurnIsStep(cfg, p, turn);
    NextInv(cfg, p.ring, EventOf(turn));
    InvWellFormed(cfg, Next(cfg, p.ring, EventOf(turn)));
    LowDone(cfg, p.ring);
  }

  lemma TurnCells(cfg: Config, p: Fuzzer, turn: Turn)
    requires Coherent(cfg, p) && WellFormed(cfg, Next(cfg, p.ring, EventOf(turn)))
    requires forall w :: 0 <= w < cfg.nworkers && p.ring.workers[w].sigchld ==> p.ring.workers[w].pc.Crashed?
    ensures Coherent(cfg, TakeTurn(cfg, p, turn))
  {
    match turn
    case MainTurn(sleepy) => MainTurnCoherent(cfg, p, sleepy);
    case WorkerTurn(w, sleepy) => if w < cfg.nworkers { WorkerTurnCoherent(cfg, p, w, sleepy); }
    case HandlerTurn(w) => if w < cfg.nworkers { HandlerTurnCoherent(cfg, p, w); }
  }

  /** Every turn keeps cells and ring together. */
  lemma TurnCoherent(cfg: Config, p: Fuzzer, turn: Turn)
    requires Coherent(cfg, p) && Inv(cfg, p.ring)
    ensures Coherent(cfg, TakeTurn(cfg, p, turn)) && Inv(cfg, TakeTurn(cfg, p, turn).ring)
  {
    TurnInv(cfg, p, turn);
    TurnCells(cfg, p, turn);
  }

  // ----- runs -----

  ghost function Start(cfg: Config): Fuzzer
    requires cfg.Valid()
  {
    Fuzzer(Init(cfg),
           seq(cfg.nchunks, (c: nat) =>
             F.Cell(0, 0, [F.Waiter(0, if c == 0 then F.Loading else F.Returned)], seq(cfg.nworkers, (w: nat) => F.Idle))),
           seq(cfg.nchunks, (c: nat) =>
             F.Cell(0, 0, seq(cfg.nworkers, (w: nat) => F.Waiter(1, if c == 0 then F.Loading else F.Returned)), [F.Idle])))
  }

  /** The state after any finite sequence of turns.  The test is never false: see `PlayCoherent`. */
  ghost function Play(cfg: Config, turns: seq<Turn>): Fuzzer
    requires cfg.Valid()
  {
    if turns == [] then Start(cfg)
    else
      var p := Play(cfg, turns[..|turns| - 1]);
      if Shaped(cfg, p) then TakeTurn(cfg, p, turns[|turns| - 1]) else p
  }

  lemma {:induction false} NoRegistrations(ws: seq<F.Waiter>)
    requires forall i :: 0 <= i < |ws| ==> !F.Counted(ws[i].pc)
    ensures F.Registrations(ws) == 0
  {
    if ws != [] {
      NoRegistrations(ws[1..]);
    }
  }

  lemma StartRem(cfg: Config, c: nat)
    requires cfg.Valid() && WellFormed(cfg, Init(cfg)) && c < cfg.nchunks
    ensures RemCell(cfg, Init(cfg), c, Start(cfg).rem[c])
  {
    NoRegistrations(Start(cfg).rem[c].waiters);
  }

  lemma StartGen(cfg: Config, c: nat)
    requires cfg.Valid() && WellFormed(cfg, Init(cfg)) && c < cfg.nchunks
    ensures GenCell(cfg, Init(cfg), c, Start(cfg).gens[c])
  {
    NoRegistrations(Start(cfg).gens[c].waiters);
  }

  lemma StartCoherent(cfg: Config)
    requires cfg.Valid()
    ensures Coherent(cfg, Start(cfg)) && Inv(cfg, Start(cfg).ring)
  {
    InitInv(cfg);
    InvWellFormed(cfg, Init(cfg));
    forall c | 0 <= c < cfg.nchunks
      ensures RemCell(cfg, Init(cfg), c, Start(cfg).rem[c]) && GenCell(cfg, Init(cfg), c, Start(cfg).gens[c])
    {
      StartRem(cfg, c);
      StartGen(cfg, c);
    }
  }

  lemma {:induction false} PlayCoherent(cfg: Config, turns: seq<Turn>)
    requires cfg.Valid()
    ensures Coherent(cfg, Play(cfg, turns)) && Inv(cfg, Play(cfg, turns).ring)
  {
    if turns == [] {
      StartCoherent(cfg);
    } else {
      PlayCoherent(cfg, turns[..|turns| - 1]);
      TurnCoherent(cfg, Play(cfg, turns[..|turns| - 1]), turns[|turns| - 1]);
    }
  }

  /** Every run with futex waits is a run of the ring machine, so that all its results hold here. */
  lemma {:induction false} PlayIsRun(cfg: Config, turns: seq<Turn>) returns (schedule: seq<Event>)
    requires cfg.Valid()
    ensures Play(cfg, turns).ring == Run(cfg, schedule)
  {
    if turns == [] {
      schedule := [];
    } else {
      var before, turn := turns[..|turns| - 1], turns[|turns| - 1];
      var shorter := PlayIsRun(cfg, before);
      PlayCoherent(cfg, before);
      TurnIsStep(cfg, Play(cfg, before), turn);
      if Play(cfg, turns).ring == Play(cfg, before).ring {
        schedule := shorter;
      } else {
        schedule := shorter + [EventOf(turn)];
        RunInv(cfg, shorter);
        assert schedule[..|shorter|] == shorter;
      }
    }
  }

  /** The refinement of the sequential program, with spinning, sleeping and notifying. */
  lemma PlayRefinesSequential(cfg: Config, turns: seq<Turn>)
    requires cfg.Valid()
    ensures Play(cfg, turns).ring.log <= Sequential(cfg, |cfg.inputs|)
    ensures Play(cfg, turns).ring.pc.Finished? ==> Play(cfg, turns).ring.log == Sequential(cfg, |cfg.inputs|)
  {
    var schedule := PlayIsRun(cfg, turns);
    RingRefinesSequential(cfg, schedule);
  }

  // ----- nobody sleeps for ever -----

  function NotifyLeft(pc: F.WriterPc): nat {
    match pc
    case Idle => 0
    case Waking => 1
    case Stored => 2
  }

  ghost predicate SomeWaking(cell: F.Cell) {
    exists j :: 0 <= j < |cell.writers| && cell.writers[j].Waking?
  }

  /** Turns that separate a waiter, on a cell that holds its target, from the end of its wait. */
  ghost function WaitLeft(cell: F.Cell, i: nat): nat
    requires i < |cell.waiters|
  {
    F.MovesLeft(cell.waiters[i].pc) + if cell.waiters[i].pc.Asleep? then (if SomeWaking(cell) then 1 else 2) else 0
  }

  /** Turns that separate an event of the ring machine from happening. */
  ghost function Distance(cfg: Config, p: Fuzzer, e: Event): nat
    requires Shaped(cfg, p)
  {
    match e
    case MainMoves =>
      if p.ring.pc.AwaitWorkers? then WaitLeft(p.rem[p.ring.idx], 0)
      else if p.ring.pc.Advance? then NotifyLeft(p.gens[p.ring.idx].writers[0])
      else 0
    case WorkerMoves(w) =>
      if w >= cfg.nworkers then 0
      else if p.ring.workers[w].pc.Waiting? then WaitLeft(p.gens[p.ring.workers[w].idx], w)
      else if p.ring.workers[w].pc.Checking? then NotifyLeft(p.rem[p.ring.workers[w].idx].writers[w])
      else 0
    case HandlerReaps(w) => 0
  }

  /** The writers whose next move brings a sleeper's wake-up nearer. */
  ghost predicate Wakes(cell: F.Cell, j: nat) {
    j < |cell.writers| && if SomeWaking(cell) then cell.writers[j].Waking? else cell.writers[j].Stored?
  }

  /** The agent that brings an event of the ring machine nearer: whoever wakes the sleeper, if the event is the end of a
      sleeper's wait, and otherwise the event's own agent. */
  ghost predicate Brings(cfg: Config, p: Fuzzer, e: Event, agent: Event)
    requires Shaped(cfg, p)
  {
    var s := p.ring;
    if e.MainMoves? && s.pc.AwaitWorkers? && p.rem[s.idx].waiters[0].pc.Asleep? then
      agent.WorkerMoves? && Wakes(p.rem[s.idx], agent.w)
    else if e.WorkerMoves? && e.w < cfg.nworkers && s.workers[e.w].pc.Waiting?
            && p.gens[s.workers[e.w].idx].waiters[e.w].pc.Asleep? then
      agent.MainMoves? && Wakes(p.gens[s.workers[e.w].idx], 0)
    else agent == e
  }

  // ----- the waiter's distance, under one operation on its cell -----

  /** A waiter that is awake, on a cell that holds its target, gets nearer to the end of its wait with every move. */
  lemma AwakeMoves(cell: F.Cell, i: nat, sleepy: bool)
    requires F.Inv(cell) && i < |cell.waiters| && cell.val == cell.waiters[i].target
    requires !cell.waiters[i].pc.Asleep? && !cell.waiters[i].pc.Returned?
    ensures WaitLeft(F.WaiterStep(cell, i, sleepy), i) < WaitLeft(cell, i)
    ensures F.WaiterStep(cell, i, sleepy).waiters[i].pc.Returned? <==> cell.waiters[i].pc.Loading?
  {
  }

  lemma WakerMoves(cell: F.Cell, i: nat, j: nat)
    requires F.Inv(cell) && i < |cell.waiters| && cell.waiters[i].pc.Asleep? && Wakes(cell, j)
    ensures WaitLeft(F.WriterStep(cell, j), i) < WaitLeft(cell, i)
  {
    F.RegistrationsPositive(cell.waiters, i);
    if !SomeWaking(cell) {
      assert F.WriterStep(cell, j).writers[j].Waking?;
    }
  }

  /** A sleeper on its target has a writer that will wake it: one move from waking, or two. */
  lemma SleeperHasWaker(cell: F.Cell, i: nat) returns (j: nat)
    requires F.Inv(cell) && i < |cell.waiters| && cell.val == cell.waiters[i].target && cell.waiters[i].pc.Asleep?
    ensures Wakes(cell, j) && WaitLeft(F.WriterStep(cell, j), i) < WaitLeft(cell, i)
  {
    if SomeWaking(cell) {
      j :| 0 <= j < |cell.writers| && cell.writers[j].Waking?;
    } else {
      j :| 0 <= j < |cell.writers| && !cell.writers[j].Idle?;
    }
    WakerMoves(cell, i, j);
  }

  /** The other writers only help. */
  lemma OtherWriter(cell: F.Cell, i: nat, j: nat)
    requires i < |cell.waiters| && j < |cell.writers|
    ensures var t := F.WriterStep(cell, j);
            && |t.waiters| == |cell.waiters|
            && (WaitLeft(t, i) < WaitLeft(cell, i) ||
                (t.waiters[i] == cell.waiters[i] && WaitLeft(t, i) == WaitLeft(cell, i)))
  {
    var t := F.WriterStep(cell, j);
    if cell.waiters[i].pc.Asleep? && SomeWaking(cell) && !cell.writers[j].Waking? {
      var k :| 0 <= k < |cell.writers| && cell.writers[k].Waking?;
      assert t.writers[k].Waking?;
    }
  }

  lemma OtherWakes(cell: F.Cell, i: nat, j: nat, k: nat)
    requires i < |cell.waiters| && j < |cell.writers| && k != j && cell.waiters[i].pc.Asleep? && Wakes(cell, k)
    requires WaitLeft(F.WriterStep(cell, j), i) == WaitLeft(cell, i)
    ensures Wakes(F.WriterStep(cell, j), k)
  {
    assert F.WriterStep(cell, j).writers[k] == cell.writers[k];
  }

  // ----- turns that leave the ring as it is -----

  ghost predicate StillMove(cfg: Config, p: Fuzzer, turn: Turn, q: Fuzzer)
    requires Shaped(cfg, p)
  {
    var s := p.ring;
    || q == p
    || match turn
       case MainTurn(sleepy) =>
         if s.pc.AwaitWorkers? then q == p.(rem := p.rem[s.idx := F.WaiterStep(p.rem[s.idx], 0, sleepy)])
         else
           && s.pc.Advance? && !p.gens[s.idx].writers[0].Idle?
           && q == p.(gens := p.gens[s.idx := F.WriterStep(p.gens[s.idx], 0)])
       case WorkerTurn(w, sleepy) =>
         && w < cfg.nworkers
         && var at := s.workers[w].idx;
         if s.workers[w].pc.Waiting? then q == p.(gens := p.gens[at := F.WaiterStep(p.gens[at], w, sleepy)])
         else
           && s.workers[w].pc.Checking? && !p.rem[at].writers[w].Idle?
           && q == p.(rem := p.rem[at := F.WriterStep(p.rem[at], w)])
       case HandlerTurn(_) => false
  }

  lemma StillWorker(cfg: Config, p: Fuzzer, w: nat, sleepy: bool)
    requires Shaped(cfg, p) && w < cfg.nworkers && WorkerTurnStep(cfg, p, w, sleepy).ring == p.ring
    ensures StillMove(cfg, p, WorkerTurn(w, sleepy), WorkerTurnStep(cfg, p, w, sleepy))
  {
    assert WorkerTurnStep(cfg, p, w, sleepy).ring.workers[w].pc == p.ring.workers[w].pc;
  }

  lemma StillHandler(cfg: Config, p: Fuzzer, w: nat)
    requires Shaped(cfg, p) && w < cfg.nworkers && HandlerTurnStep(cfg, p, w).ring == p.ring
    ensures HandlerTurnStep(cfg, p, w) == p
  {
    assert HandlerTurnStep(cfg, p, w).ring.workers[w].reaped == p.ring.workers[w].reaped;
  }

  lemma StillTurn(cfg: Config, p: Fuzzer, turn: Turn)
    requires Shaped(cfg, p) && TakeTurn(cfg, p, turn).ring == p.ring
    ensures StillMove(cfg, p, turn, TakeTurn(cfg, p, turn))
  {
    match turn
    case MainTurn(_) =>
    case WorkerTurn(w, sleepy) => if w < cfg.nworkers { StillWorker(cfg, p, w, sleepy); }
    case HandlerTurn(w) => if w < cfg.nworkers { StillHandler(cfg, p, w); }
  }

  // ----- the distance to an event of the ring machine -----

  lemma MainBringer(cfg: Config, p: Fuzzer) returns (agent: Event)
    requires Coherent(cfg, p) && MainStep(cfg, p.ring) != p.ring
    ensures Brings(cfg, p, MainMoves, agent)
  {
    agent := MainMoves;
    if p.ring.pc.AwaitWorkers? && p.rem[p.ring.idx].waiters[0].pc.Asleep? {
      var w := SleeperHasWaker(p.rem[p.ring.idx], 0);
      agent := WorkerMoves(w);
    }
  }

  lemma WorkerBringer(cfg: Config, p: Fuzzer, w: nat) returns (agent: Event)
    requires Coherent(cfg, p) && w < cfg.nworkers && WorkerStep(cfg, p.ring, w) != p.ring
    ensures Brings(cfg, p, WorkerMoves(w), agent)
  {
    agent := WorkerMoves(w);
    if p.ring.workers[w].pc.Waiting? && p.gens[p.ring.workers[w].idx].waiters[w].pc.Asleep? {
      var j := SleeperHasWaker(p.gens[p.ring.workers[w].idx], w);
      agent := MainMoves;
    }
  }

  /** For any event that would move the ring there is an agent that brings it nearer. */
  lemma Bringer(cfg: Config, p: Fuzzer, e: Event) returns (agent: Event)
    requires Coherent(cfg, p) && Next(cfg, p.ring, e) != p.ring
    ensures Brings(cfg, p, e, agent)
  {
    match e
    case MainMoves => agent := MainBringer(cfg, p);
    case WorkerMoves(w) => agent := WorkerBringer(cfg, p, w);
    case HandlerReaps(_) => agent := e;
  }

  /** The event has happened, or nothing has happened to the ring and the event is nearer. */
  ghost predicate Nearer(cfg: Config, p: Fuzzer, e: Event, q: Fuzzer)
    requires Shaped(cfg, p)
  {
    || q.ring == Next(cfg, p.ring, e)
    || (q.ring == p.ring && Shaped(cfg, q) && Distance(cfg, q, e) < Distance(cfg, p, e))
  }

  lemma BringMain(cfg: Config, p: Fuzzer, turn: Turn)
    requires Coherent(cfg, p) && MainStep(cfg, p.ring) != p.ring && Brings(cfg, p, MainMoves, EventOf(turn))
    requires Shaped(cfg, TakeTurn(cfg, p, turn))
    ensures Nearer(cfg, p, MainMoves, TakeTurn(cfg, p, turn))
  {
    var cell := p.rem[p.ring.idx];
    if p.ring.pc.AwaitWorkers? {
      if cell.waiters[0].pc.Asleep? {
        WakerMoves(cell, 0, turn.w);
      } else {
        AwakeMoves(cell, 0, turn.sleepy);
      }
    }
  }

  /** Main's notification wakes the sleeping worker. */
  lemma BringSleeper(cfg: Config, p: Fuzzer, w: nat, sleepy: bool)
    requires Coherent(cfg, p) && w < cfg.nworkers && p.ring.workers[w].pc.Waiting?
    requires p.gens[p.ring.workers[w].idx].waiters[w].pc.Asleep? && Wakes(p.gens[p.ring.workers[w].idx], 0)
    requires Shaped(cfg, MainTurnStep(cfg, p, sleepy))
    ensures Nearer(cfg, p, WorkerMoves(w), MainTurnStep(cfg, p, sleepy))
  {
    assert p.ring.pc.Advance? && p.ring.idx == p.ring.workers[w].idx;
    WakerMoves(p.gens[p.ring.idx], w, 0);
  }

  lemma BringWaiter(cfg: Config, p: Fuzzer, w: nat, sleepy: bool)
    requires Coherent(cfg, p) && w < cfg.nworkers && p.ring.workers[w].pc.Waiting?
    requires WorkerStep(cfg, p.ring, w) != p.ring && !p.gens[p.ring.workers[w].idx].waiters[w].pc.Asleep?
    requires Shaped(cfg, WorkerTurnStep(cfg, p, w, sleepy))
    ensures Nearer(cfg, p, WorkerMoves(w), WorkerTurnStep(cfg, p, w, sleepy))
  {
    AwakeMoves(p.gens[p.ring.workers[w].idx], w, sleepy);
  }

  lemma BringOwn(cfg: Config, p: Fuzzer, w: nat, sleepy: bool)
    requires Coherent(cfg, p) && w < cfg.nworkers && !p.ring.workers[w].pc.Waiting?
    requires Shaped(cfg, WorkerTurnStep(cfg, p, w, sleepy))
    ensures Nearer(cfg, p, WorkerMoves(w), WorkerTurnStep(cfg, p, w, sleepy))
  {
  }

  lemma BringWorker(cfg: Config, p: Fuzzer, w: nat, turn: Turn)
    requires Coherent(cfg, p) && w < cfg.nworkers && WorkerStep(cfg, p.ring, w) != p.ring
    requires Brings(cfg, p, WorkerMoves(w), EventOf(turn)) && Shaped(cfg, TakeTurn(cfg, p, turn))
    ensures Nearer(cfg, p, WorkerMoves(w), TakeTurn(cfg, p, turn))
  {
    if !p.ring.workers[w].pc.Waiting? {
      BringOwn(cfg, p, w, turn.sleepy);
    } else if p.gens[p.ring.workers[w].idx].waiters[w].pc.Asleep? {
      BringSleeper(cfg, p, w, turn.sleepy);
    } else {
      BringWaiter(cfg, p, w, turn.sleepy);
    }
  }

  /** That agent's turn, sleepy or not, does bring it nearer. */
  lemma BringsNearer(cfg: Config, p: Fuzzer, e: Event, turn: Turn)
    requires Coherent(cfg, p) && Next(cfg, p.ring, e) != p.ring && Brings(cfg, p, e, EventOf(turn))
    requires Shaped(cfg, TakeTurn(cfg, p, turn))
    ensures Nearer(cfg, p, e, TakeTurn(cfg, p, turn))
  {
    match e
    case MainMoves => BringMain(cfg, p, turn);
    case WorkerMoves(w) => BringWorker(cfg, p, w, turn);
    case HandlerReaps(_) =>
  }

  /** The event is no farther off, and the agent that brings it is the same unless the event is nearer. */
  ghost predicate NoFarther(cfg: Config, p: Fuzzer, e: Event, agent: Event, q: Fuzzer)
    requires Shaped(cfg, p) && Shaped(cfg, q)
  {
    || Distance(cfg, q, e) < Distance(cfg, p, e)
    || (Distance(cfg, q, e) == Distance(cfg, p, e) && Brings(cfg, q, e, agent))
  }

  lemma OthersMain(cfg: Config, p: Fuzzer, agent: Event, turn: Turn, q: Fuzzer)
    requires Coherent(cfg, p) && Brings(cfg, p, MainMoves, agent) && EventOf(turn) != agent
    requires StillMove(cfg, p, turn, q) && Shaped(cfg, q)
    ensures NoFarther(cfg, p, MainMoves, agent, q)
  {
    var cell := p.rem[p.ring.idx];
    if p.ring.pc.AwaitWorkers? && turn.WorkerTurn? && q.rem[p.ring.idx] != cell {
      OtherWriter(cell, 0, turn.w);
      if cell.waiters[0].pc.Asleep? && WaitLeft(F.WriterStep(cell, turn.w), 0) == WaitLeft(cell, 0) {
        OtherWakes(cell, 0, turn.w, agent.w);
      }
    }
  }

  /** Main's turn, for a worker that is not asleep. */
  lemma OthersWorkerMain(cfg: Config, p: Fuzzer, w: nat, sleepy: bool, q: Fuzzer)
    requires Coherent(cfg, p) && w < cfg.nworkers && Brings(cfg, p, WorkerMoves(w), WorkerMoves(w))
    requires StillMove(cfg, p, MainTurn(sleepy), q) && Shaped(cfg, q)
    ensures NoFarther(cfg, p, WorkerMoves(w), WorkerMoves(w), q)
  {
    var at := p.ring.workers[w].idx;
    if p.ring.workers[w].pc.Waiting? && q.gens[at] != p.gens[at] {
      OtherWriter(p.gens[at], w, 0);
    }
  }

  lemma SameWait(cell: F.Cell, now: F.Cell, i: nat)
    requires i < |cell.waiters| && i < |now.waiters| && now.waiters[i] == cell.waiters[i] && now.writers == cell.writers
    ensures WaitLeft(now, i) == WaitLeft(cell, i) && forall j :: Wakes(now, j) <==> Wakes(cell, j)
  {
    assert SomeWaking(now) <==> SomeWaking(cell);
  }

  /** The turn of a worker that is not the event's agent, while the event is the end of a wait. */
  lemma OthersWorkerWaiting(cfg: Config, p: Fuzzer, w: nat, agent: Event, x: nat, sleepy: bool, q: Fuzzer)
    requires Coherent(cfg, p) && w < cfg.nworkers && p.ring.workers[w].pc.Waiting?
    requires Brings(cfg, p, WorkerMoves(w), agent) && WorkerMoves(x) != agent
    requires StillMove(cfg, p, WorkerTurn(x, sleepy), q) && q != p && Shaped(cfg, q)
    ensures NoFarther(cfg, p, WorkerMoves(w), agent, q)
  {
    var at := p.ring.workers[w].idx;
    assert q.gens[at].waiters[w] == p.gens[at].waiters[w] && q.gens[at].writers == p.gens[at].writers;
    SameWait(p.gens[at], q.gens[at], w);
  }

  lemma OthersWorkerWorker(cfg: Config, p: Fuzzer, w: nat, agent: Event, x: nat, sleepy: bool, q: Fuzzer)
    requires Coherent(cfg, p) && w < cfg.nworkers && Brings(cfg, p, WorkerMoves(w), agent) && WorkerMoves(x) != agent
    requires StillMove(cfg, p, WorkerTurn(x, sleepy), q) && Shaped(cfg, q)
    ensures NoFarther(cfg, p, WorkerMoves(w), agent, q)
  {
    if q != p && p.ring.workers[w].pc.Waiting? {
      OthersWorkerWaiting(cfg, p, w, agent, x, sleepy, q);
    }
  }

  lemma OthersWorker(cfg: Config, p: Fuzzer, w: nat, agent: Event, turn: Turn, q: Fuzzer)
    requires Coherent(cfg, p) && w < cfg.nworkers && Brings(cfg, p, WorkerMoves(w), agent) && EventOf(turn) != agent
    requires StillMove(cfg, p, turn, q) && Shaped(cfg, q)
    ensures NoFarther(cfg, p, WorkerMoves(w), agent, q)
  {
    match turn
    case MainTurn(sleepy) => OthersWorkerMain(cfg, p, w, sleepy, q);
    case WorkerTurn(x, sleepy) => OthersWorkerWorker(cfg, p, w, agent, x, sleepy, q);
    case HandlerTurn(_) =>
  }

  /** Everybody else's turn, as long as the ring stands still, does not put it farther off. */
  lemma OthersNoFarther(cfg: Config, p: Fuzzer, e: Event, agent: Event, turn: Turn)
    requires Coherent(cfg, p) && Next(cfg, p.ring, e) != p.ring && Brings(cfg, p, e, agent) && EventOf(turn) != agent
    requires TakeTurn(cfg, p, turn).ring == p.ring && Shaped(cfg, TakeTurn(cfg, p, turn))
    ensures NoFarther(cfg, p, e, agent, TakeTurn(cfg, p, turn))
  {
    StillTurn(cfg, p, turn);
    match e
    case MainMoves => OthersMain(cfg, p, agent, turn, TakeTurn(cfg, p, turn));
    case WorkerMoves(w) => OthersWorker(cfg, p, w, agent, turn, TakeTurn(cfg, p, turn));
    case HandlerReaps(_) =>
  }

  // ----- every event of the ring machine can be brought about -----

  lemma PlayOn(cfg: Config, turns: seq<Turn>, turn: Turn)
    requires cfg.Valid()
    ensures Coherent(cfg, Play(cfg, turns)) && Play(cfg, turns + [turn]) == TakeTurn(cfg, Play(cfg, turns), turn)
    ensures Coherent(cfg, Play(cfg, turns + [turn]))
  {
    PlayCoherent(cfg, turns);
    PlayCoherent(cfg, turns + [turn]);
    assert (turns + [turn])[..|turns|] == turns;
  }

  /** A turn of an agent. */
  function TurnOf(agent: Event): (turn: Turn)
    ensures EventOf(turn) == agent
  {
    match agent
    case MainMoves => MainTurn(true)
    case WorkerMoves(w) => WorkerTurn(w, true)
    case HandlerReaps(w) => HandlerTurn(w)
  }

  lemma {:induction false} GetsThere(cfg: Config, turns: seq<Turn>, e: Event) returns (longer: seq<Turn>)
    requires cfg.Valid() && Coherent(cfg, Play(cfg, turns)) && Next(cfg, Play(cfg, turns).ring, e) != Play(cfg, turns).ring
    ensures turns <= longer && Play(cfg, longer).ring == Next(cfg, Play(cfg, turns).ring, e)
    decreases Distance(cfg, Play(cfg, turns), e)
  {
    var agent := Bringer(cfg, Play(cfg, turns), e);
    PlayOn(cfg, turns, TurnOf(agent));
    BringsNearer(cfg, Play(cfg, turns), e, TurnOf(agent));
    longer := turns + [TurnOf(agent)];
    if Play(cfg, longer).ring == Play(cfg, turns).ring {
      longer := GetsThere(cfg, longer, e);
    }
  }

  /** No wake-up is lost: whoever sleeps, any event of the ring machine can be brought about by some further turns. */
  lemma NobodySleepsForEver(cfg: Config, turns: seq<Turn>, e: Event) returns (longer: seq<Turn>)
    requires cfg.Valid()
    ensures WellFormed(cfg, Play(cfg, turns).ring)
    ensures turns <= longer && Play(cfg, longer).ring == Next(cfg, Play(cfg, turns).ring, e)
  {
    PlayCoherent(cfg, turns);
    longer := turns;
    if Next(cfg, Play(cfg, turns).ring, e) != Play(cfg, turns).ring {
      longer := GetsThere(cfg, turns, e);
    }
  }

  /** Every run of the ring machine is one with futex waits: the two reach the same states of the ring. */
  lemma {:induction false} RunIsPlay(cfg: Config, schedule: seq<Event>) returns (turns: seq<Turn>)
    requires cfg.Valid()
    ensures Play(cfg, turns).ring == Run(cfg, schedule)
  {
    turns := [];
    if schedule != [] {
      var shorter := RunIsPlay(cfg, schedule[..|schedule| - 1]);
      turns := NobodySleepsForEver(cfg, shorter, schedule[|schedule| - 1]);
    }
  }
}
