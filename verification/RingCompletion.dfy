/** Exactly when the fuzzer finishes.

After its decrement of `remaining_workers` a worker looks at `input_count` once more to see whether to leave.  If
main refills that very chunk in between, and refills it with the short last chunk, the worker leaves too early and
main waits for it for ever.  That needs a last chunk that is not in the first lap, and at least one worker.
 */
module RingCompletion {
  import opened Common
  import opened RingPositions
  import opened RingMachine
  import opened RingInvariant
  import opened RingSteps
  import opened RingRuns
  import opened RingProgress

  /** The events that name an agent of the machine. */
  predicate Agent(cfg: Config, e: Event) {
    match e
    case MainMoves => true
    case WorkerMoves(w) => w < cfg.nworkers
    case HandlerReaps(w) => w < cfg.nworkers
  }

  /** The first `n` events of an infinite schedule. */
  function Take(events: nat -> Event, n: nat): (r: seq<Event>)
    ensures |r| == n && forall i :: 0 <= i < n ==> r[i] == events(i)
  {
    seq(n, (i: nat) => events(i))
  }

  ghost predicate Recurs(events: nat -> Event, e: Event, n: nat) {
    exists m: nat :: m >= n && events(m) == e
  }

  /** Every agent gets its turn again and again. */
  ghost predicate Fair(cfg: Config, events: nat -> Event) {
    forall e, n: nat :: Agent(cfg, e) ==> Recurs(events, e, n)
  }

  ghost function At(cfg: Config, events: nat -> Event, n: nat): State {
    Run(cfg, Take(events, n))
  }

  lemma AtNext(cfg: Config, events: nat -> Event, n: nat)
    requires cfg.Valid()
    ensures WellFormed(cfg, At(cfg, events, n)) && Inv(cfg, At(cfg, events, n))
    ensures At(cfg, events, n + 1) == Next(cfg, At(cfg, events, n), events(n))
  {
    RunInv(cfg, Take(events, n));
    assert Take(events, n + 1)[..n] == Take(events, n);
  }

  lemma {:induction false} FirstChange(f: nat -> State, n: nat, i: nat) returns (j: nat)
    requires i >= n && f(i) != f(n)
    ensures n <= j < i && f(j) == f(n) && f(j + 1) != f(n)
    decreases i - n
  {
    if f(i - 1) == f(n) {
      j := i - 1;
    } else {
      j := FirstChange(f, n, i - 1);
    }
  }

  lemma MoveMeasure(cfg: Config, events: nat -> Event, n: nat)
    requires cfg.Valid() && At(cfg, events, n + 1) != At(cfg, events, n)
    ensures Left(cfg, At(cfg, events, n + 1)).Below(Left(cfg, At(cfg, events, n)))
  {
    AtNext(cfg, events, n);
    StepMeasure(cfg, At(cfg, events, n), events(n));
  }

  lemma MeasureAt(cfg: Config, events: nat -> Event, n: nat)
    requires cfg.Valid()
    ensures Left(cfg, At(cfg, events, n)).NonNegative()
  {
    AtNext(cfg, events, n);
    LeftNonNegative(cfg, At(cfg, events, n));
  }

  /** A change between `n` and a later moment means that less is left then. */
  lemma ChangeMeasure(cfg: Config, events: nat -> Event, n: nat, i: nat) returns (j: nat)
    requires cfg.Valid() && i >= n && At(cfg, events, i) != At(cfg, events, n)
    ensures j >= n && Left(cfg, At(cfg, events, j)).Below(Left(cfg, At(cfg, events, n)))
    ensures Left(cfg, At(cfg, events, n)).NonNegative() && Left(cfg, At(cfg, events, j)).NonNegative()
  {
    var k := FirstMove(cfg, events, n, i);
    MoveMeasure(cfg, events, k);
    MeasureAt(cfg, events, n);
    MeasureAt(cfg, events, k + 1);
    j := k + 1;
  }

  lemma FirstMove(cfg: Config, events: nat -> Event, n: nat, i: nat) returns (k: nat)
    requires i >= n && At(cfg, events, i) != At(cfg, events, n)
    ensures k >= n && At(cfg, events, k) == At(cfg, events, n) && At(cfg, events, k + 1) != At(cfg, events, k)
  {
    var f := (m: nat) => At(cfg, events, m);
    k := FirstChange(f, n, i);
    assert f(k) == f(n) && f(k + 1) != f(n);
  }

  /** No schedule moves for ever, however many crashes it meets. */
  lemma {:induction false} Settles(cfg: Config, events: nat -> Event, n: nat) returns (m: nat)
    requires cfg.Valid()
    ensures m >= n && forall i: nat :: i >= m ==> At(cfg, events, i) == At(cfg, events, m)
    decreases Left(cfg, At(cfg, events, n)).untried, Left(cfg, At(cfg, events, n)).pending,
              Left(cfg, At(cfg, events, n)).laps, Left(cfg, At(cfg, events, n)).walk, Left(cfg, At(cfg, events, n)).rank
  {
    if i: nat :| i >= n && At(cfg, events, i) != At(cfg, events, n) {
      var j := ChangeMeasure(cfg, events, n, i);
      m := Settles(cfg, events, j);
    } else {
      m := n;
    }
  }

  /** Where a fair schedule settles, nobody can move. */
  lemma FairSettlesStuck(cfg: Config, events: nat -> Event, m: nat, e: Event)
    requires cfg.Valid() && Fair(cfg, events)
    requires forall i: nat :: i >= m ==> At(cfg, events, i) == At(cfg, events, m)
    ensures WellFormed(cfg, At(cfg, events, m)) && Next(cfg, At(cfg, events, m), e) == At(cfg, events, m)
  {
    AtNext(cfg, events, m);
    if Agent(cfg, e) {
      assert Recurs(events, e, m);
      var i: nat :| i >= m && events(i) == e;
      AtNext(cfg, events, i);
    }
  }

  // ----- where a fair schedule ends -----

  /** The worker has attempted every input once, in order, and left. */
  ghost predicate Complete(cfg: Config, k: Worker) {
    k.pc.Exited? && k.tried == cfg.inputs
  }

  /** When main is finished, a worker that has not left can move. */
  lemma LastStep(cfg: Config, s: State, w: nat)
    requires Inv(cfg, s) && WellFormed(cfg, s) && s.pc.Finished? && w < cfg.nworkers
    requires WorkerStep(cfg, s, w) == s
    ensures Complete(cfg, s.workers[w])
  {
    LowDone(cfg, s);
    assert WorkerInv(cfg, w, s.workers[w], Published(cfg, s), Filled(cfg, s), Low(cfg, s));
    ChunkShape(cfg, LastChunk(cfg));
    if s.workers[w].pc.Checking? {
      WorkerCanMove(cfg, s, w);
    }
  }

  /** A worker that has left stays where it is. */
  lemma StrayedStays(cfg: Config, s: State, e: Event, w: nat)
    requires cfg.Valid() && WellFormed(cfg, s) && w < cfg.nworkers && Strayed(cfg, s.workers[w]) && !s.workers[w].sigchld
    requires |Next(cfg, s, e).workers| == cfg.nworkers
    ensures Strayed(cfg, Next(cfg, s, e).workers[w])
  {
    if e.HandlerReaps? && e.w == w {
      assert Next(cfg, s, e).workers[w].pc == s.workers[w].pc;
    }
  }

  /** Main never finishes once a worker has strayed. */
  lemma StrayedNotFinished(cfg: Config, s: State, w: nat)
    requires Inv(cfg, s) && w < cfg.nworkers && Strayed(cfg, s.workers[w])
    ensures !s.pc.Finished?
  {
    LowDone(cfg, s);
  }

  /** Worker `w` has left a lap early. */
  predicate StrayedIn(cfg: Config, s: State, w: nat)
    requires cfg.Valid()
  {
    w < |s.workers| && Strayed(cfg, s.workers[w])
  }

  lemma StrayedNext(cfg: Config, events: nat -> Event, n: nat, w: nat)
    requires cfg.Valid() && StrayedIn(cfg, At(cfg, events, n), w)
    ensures StrayedIn(cfg, At(cfg, events, n + 1), w)
  {
    AtNext(cfg, events, n);
    AtNext(cfg, events, n + 1);
    LowDone(cfg, At(cfg, events, n));
    StrayedStays(cfg, At(cfg, events, n), events(n), w);
  }

  lemma {:induction false} StrayedLater(cfg: Config, events: nat -> Event, n: nat, m: nat, w: nat)
    requires cfg.Valid() && n <= m && StrayedIn(cfg, At(cfg, events, n), w)
    ensures StrayedIn(cfg, At(cfg, events, m), w)
    decreases m - n
  {
    if n < m {
      StrayedLater(cfg, events, n, m - 1, w);
      StrayedNext(cfg, events, m - 1, w);
    }
  }

  lemma FinishedNext(cfg: Config, events: nat -> Event, n: nat)
    requires cfg.Valid() && At(cfg, events, n).pc.Finished?
    ensures At(cfg, events, n + 1).pc.Finished?
  {
    AtNext(cfg, events, n);
  }

  lemma {:induction false} FinishedStays(cfg: Config, events: nat -> Event, n: nat, m: nat)
    requires cfg.Valid() && n <= m && At(cfg, events, n).pc.Finished?
    ensures At(cfg, events, m).pc.Finished?
    decreases m - n
  {
    if n < m {
      FinishedStays(cfg, events, n, m - 1);
      FinishedNext(cfg, events, m - 1);
    }
  }

  /** Main gets to the end of its loop. */
  ghost predicate Finishes(cfg: Config, events: nat -> Event)
    requires cfg.Valid()
  {
    exists m: nat :: At(cfg, events, m).pc.Finished?
  }

  /** Some worker leaves a lap early. */
  ghost predicate Strays(cfg: Config, events: nat -> Event)
    requires cfg.Valid()
  {
    exists n: nat, w: nat :: StrayedIn(cfg, At(cfg, events, n), w)
  }

  /** No schedule, fair or not, finishes when a worker strays. */
  lemma StraysNeverFinishes(cfg: Config, events: nat -> Event)
    requires cfg.Valid() && Strays(cfg, events)
    ensures !Finishes(cfg, events)
  {
    var n: nat, w: nat :| StrayedIn(cfg, At(cfg, events, n), w);
    forall m: nat
      ensures !At(cfg, events, m).pc.Finished?
    {
      var last := Max(n, m);
      StrayedLater(cfg, events, n, last, w);
      AtNext(cfg, events, last);
      StrayedNotFinished(cfg, At(cfg, events, last), w);
      if At(cfg, events, m).pc.Finished? {
        FinishedStays(cfg, events, m, last);
      }
    }
  }

  /** A fair schedule settles either with main finished or with main waiting for a worker that has strayed. */
  lemma FairEnd(cfg: Config, events: nat -> Event) returns (m: nat)
    requires cfg.Valid() && Fair(cfg, events)
    ensures forall i: nat :: i >= m ==> At(cfg, events, i) == At(cfg, events, m)
    ensures WellFormed(cfg, At(cfg, events, m)) && Inv(cfg, At(cfg, events, m))
    ensures forall e :: Next(cfg, At(cfg, events, m), e) == At(cfg, events, m)
    ensures At(cfg, events, m).pc.Finished? ||
            (Stranded(cfg, At(cfg, events, m)) && At(cfg, events, m).pc.AwaitWorkers?)
  {
    m := Settles(cfg, events, 0);
    var s := At(cfg, events, m);
    AtNext(cfg, events, m);
    forall e
      ensures Next(cfg, s, e) == s
    {
      FairSettlesStuck(cfg, events, m, e);
    }
    assert MainStep(cfg, s) == Next(cfg, s, MainMoves) == s;
    if !s.pc.Finished? {
      if !Stranded(cfg, s) {
        var e := SomeoneCanMove(cfg, s);
      }
      if !s.pc.AwaitWorkers? {
        MainCanMove(cfg, s);
      }
    }
  }

  /** A fair schedule brings main to the end of its loop if, and only if, on it no worker leaves a lap early. */
  lemma FairFinishes(cfg: Config, events: nat -> Event)
    requires cfg.Valid() && Fair(cfg, events)
    ensures Finishes(cfg, events) <==> !Strays(cfg, events)
  {
    if Strays(cfg, events) {
      StraysNeverFinishes(cfg, events);
    } else {
      var m := FairEnd(cfg, events);
      var s := At(cfg, events, m);
      if Stranded(cfg, s) {
        var w: nat :| w < |s.workers| && Strayed(cfg, s.workers[w]);
        assert StrayedIn(cfg, s, w);
      }
    }
  }

  /** A fair schedule that finishes drains the ring: main has handed exactly the sequential program's records to `process`,
      and every worker has attempted every input once, in order, and left; wherever in the ring the inputs ran out. */
  lemma FairRunComplete(cfg: Config, events: nat -> Event) returns (m: nat)
    requires cfg.Valid() && Fair(cfg, events) && Finishes(cfg, events)
    ensures At(cfg, events, m).pc.Finished? && At(cfg, events, m).log == Sequential(cfg, |cfg.inputs|)
    ensures WellFormed(cfg, At(cfg, events, m))
    ensures forall w: nat :: w < cfg.nworkers ==> Complete(cfg, At(cfg, events, m).workers[w])
  {
    m := FairEnd(cfg, events);
    var s := At(cfg, events, m);
    var n: nat :| At(cfg, events, n).pc.Finished?;
    FinishedStays(cfg, events, n, Max(n, m));
    assert s.pc.Finished?;
    RingRefinesSequential(cfg, Take(events, m));
    forall w: nat | w < cfg.nworkers
      ensures Complete(cfg, s.workers[w])
    {
      assert Next(cfg, s, WorkerMoves(w)) == s;
      LastStep(cfg, s, w);
    }
  }

  /** A fair schedule that does not finish loses the records of the last lap and no others: from some moment on nothing
      happens any more, and main has handed on exactly the chunks in front of the last `nchunks`. */
  lemma FairHangLosesLastLap(cfg: Config, events: nat -> Event) returns (m: nat)
    requires cfg.Valid() && Fair(cfg, events) && !Finishes(cfg, events)
    ensures cfg.nchunks <= LastChunk(cfg)
    ensures forall i: nat :: i >= m ==> At(cfg, events, i) == At(cfg, events, m)
    ensures At(cfg, events, m).pc.AwaitWorkers? && Stranded(cfg, At(cfg, events, m))
    ensures var kept := Start(cfg, LastChunk(cfg) + 1 - cfg.nchunks);
            kept <= |cfg.inputs| && At(cfg, events, m).log == Sequential(cfg, kept)
  {
    m := FairEnd(cfg, events);
    var s := At(cfg, events, m);
    var w: nat :| w < |s.workers| && Strayed(cfg, s.workers[w]);
    ChunkShape(cfg, LastChunk(cfg) + 1 - cfg.nchunks);
    assert LogInv(cfg, s);
  }

  // ----- streams that end in the first lap -----

  /** The stream ends in the first lap of the ring, or there is nobody to leave early. */
  predicate EndsInFirstLap(cfg: Config) {
    cfg.nworkers == 0 || |cfg.inputs| < cfg.nchunks * cfg.nslots
  }

  lemma FirstLap(cfg: Config)
    requires cfg.Valid()
    ensures LastChunk(cfg) < cfg.nchunks <==> |cfg.inputs| < cfg.nchunks * cfg.nslots
  {
    LastChunkBounds(cfg);
    StartIsMultiple(cfg, cfg.nchunks);
    if LastChunk(cfg) < cfg.nchunks {
      StartMonotone(cfg, LastChunk(cfg), cfg.nchunks);
    } else if LastChunk(cfg) > cfg.nchunks {
      StartMonotone(cfg, cfg.nchunks, LastChunk(cfg));
    }
  }

  /** Nobody can leave a lap early when there is only one lap. */
  lemma FirstLapNobodyStrays(cfg: Config, events: nat -> Event)
    requires cfg.Valid() && EndsInFirstLap(cfg)
    ensures !Strays(cfg, events)
  {
    FirstLap(cfg);
    if Strays(cfg, events) {
      var n: nat, w: nat :| StrayedIn(cfg, At(cfg, events, n), w);
      AtNext(cfg, events, n);
    }
  }

  // ----- all other streams can hang -----

  /** Worker 0 has yet to look at `input_count` after the chunk whose place the last chunk will take. */
  ghost predicate Resting(cfg: Config, s: State)
    requires cfg.Valid()
  {
    |s.workers| > 0 && s.workers[0].pos + cfg.nchunks <= LastChunk(cfg)
  }

  /** While it rests, somebody else can move, until main has filled the last chunk. */
  lemma DriveOn(cfg: Config, s: State) returns (e: Event)
    requires Inv(cfg, s) && WellFormed(cfg, s) && Filled(cfg, s) <= LastChunk(cfg) && Resting(cfg, s)
    ensures Resting(cfg, Next(cfg, s, e)) && Left(cfg, Next(cfg, s, e)).Below(Left(cfg, s))
    ensures Filled(cfg, Next(cfg, s, e)) > LastChunk(cfg) ==>
              Next(cfg, s, e).pc.StoreWorkers? && !Next(cfg, s, e).workers[0].pc.Exited?
  {
    NotYetOver(cfg, s);
    e := SomeoneCanMove(cfg, s);
    RestingStep(cfg, s, e);
    StepMeasure(cfg, s, e);
  }

  /** Until main fills the last chunk, everybody else can be driven on while worker 0 rests before its look at
      `input_count`; then that look sends it away. */
  lemma {:induction false} DriveToStray(cfg: Config, schedule: seq<Event>) returns (longer: seq<Event>)
    requires cfg.Valid() && Filled(cfg, Run(cfg, schedule)) <= LastChunk(cfg) && Resting(cfg, Run(cfg, schedule))
    ensures StrayedIn(cfg, Run(cfg, longer), 0)
    decreases Left(cfg, Run(cfg, schedule)).untried, Left(cfg, Run(cfg, schedule)).pending,
              Left(cfg, Run(cfg, schedule)).laps, Left(cfg, Run(cfg, schedule)).walk, Left(cfg, Run(cfg, schedule)).rank
  {
    var s := Run(cfg, schedule);
    RunInv(cfg, schedule);
    var e := DriveOn(cfg, s);
    RunOn(cfg, schedule, e);
    var t := Next(cfg, s, e);
    if Filled(cfg, t) <= LastChunk(cfg) {
      LeftNonNegative(cfg, s);
      LeftNonNegative(cfg, t);
      longer := DriveToStray(cfg, schedule + [e]);
    } else {
      longer := LookNow(cfg, schedule + [e]);
    }
  }

  lemma LookNow(cfg: Config, schedule: seq<Event>) returns (longer: seq<Event>)
    requires cfg.Valid() && Resting(cfg, Run(cfg, schedule)) && Filled(cfg, Run(cfg, schedule)) > LastChunk(cfg)
    requires Run(cfg, schedule).pc.StoreWorkers? && !Run(cfg, schedule).workers[0].pc.Exited?
    ensures StrayedIn(cfg, Run(cfg, longer), 0)
  {
    RunInv(cfg, schedule);
    LookTooLate(cfg, Run(cfg, schedule));
    longer := schedule + [WorkerMoves(0)];
    RunOn(cfg, schedule, WorkerMoves(0));
  }

  lemma RunOn(cfg: Config, schedule: seq<Event>, e: Event)
    requires cfg.Valid()
    ensures WellFormed(cfg, Run(cfg, schedule)) && Run(cfg, schedule + [e]) == Next(cfg, Run(cfg, schedule), e)
    ensures Inv(cfg, Run(cfg, schedule + [e])) && WellFormed(cfg, Run(cfg, schedule + [e]))
  {
    RunInv(cfg, schedule);
    RunInv(cfg, schedule + [e]);
    assert (schedule + [e])[..|schedule|] == schedule;
  }

  lemma NotYetOver(cfg: Config, s: State)
    requires cfg.Valid() && MainInv(cfg, s) && Filled(cfg, s) <= LastChunk(cfg)
    ensures !s.pc.Finished? && !Stranded(cfg, s) && s.pos <= LastChunk(cfg)
  {
  }

  lemma RestingStep(cfg: Config, s: State, e: Event)
    requires Inv(cfg, s) && WellFormed(cfg, s) && cfg.nworkers > 0 && Filled(cfg, s) <= LastChunk(cfg)
    requires s.workers[0].pos + cfg.nchunks <= LastChunk(cfg) && !AtRisk(cfg, s, e)
    ensures |Next(cfg, s, e).workers| > 0
    ensures Next(cfg, s, e).workers[0].pos + cfg.nchunks <= LastChunk(cfg)
    ensures Filled(cfg, Next(cfg, s, e)) > LastChunk(cfg) ==>
              Next(cfg, s, e).pc.StoreWorkers? && !Next(cfg, s, e).workers[0].pc.Exited?
  {
    match e
    case MainMoves =>
      NoneExitedYet(cfg, s);
      RestingMain(cfg, s);
    case WorkerMoves(w) =>
      if w < cfg.nworkers {
        RestingWorker(cfg, s, w);
      }
    case HandlerReaps(w) =>
      if w < cfg.nworkers {
        RestingHandler(cfg, s, w);
      }
  }

  lemma RestingWorker(cfg: Config, s: State, w: nat)
    requires cfg.Valid() && WellFormed(cfg, s) && w < cfg.nworkers && s.workers[0].pos + cfg.nchunks <= LastChunk(cfg)
    requires !AtRisk(cfg, s, WorkerMoves(w))
    ensures var t := WorkerStep(cfg, s, w);
            |t.workers| > 0 && t.workers[0].pos + cfg.nchunks <= LastChunk(cfg) && Filled(cfg, t) == Filled(cfg, s)
  {
  }

  lemma RestingHandler(cfg: Config, s: State, w: nat)
    requires cfg.Valid() && WellFormed(cfg, s) && w < cfg.nworkers
    ensures var t := HandlerStep(cfg, s, w);
            |t.workers| > 0 && t.workers[0].pos == s.workers[0].pos && Filled(cfg, t) == Filled(cfg, s)
  {
  }

  lemma RestingMain(cfg: Config, s: State)
    requires cfg.Valid() && MainInv(cfg, s) && WellFormed(cfg, s) && cfg.nworkers > 0 && Filled(cfg, s) <= LastChunk(cfg)
    ensures var t := MainStep(cfg, s);
            && |t.workers| > 0 && t.workers[0].pos == s.workers[0].pos
            && (Filled(cfg, t) > LastChunk(cfg) ==> t.pc.StoreWorkers? && t.workers == s.workers)
  {
  }

  /** Nobody close behind main's first laps has left before the last chunk is filled. */
  lemma NoneExitedYet(cfg: Config, s: State)
    requires Inv(cfg, s) && WellFormed(cfg, s) && cfg.nworkers > 0 && Filled(cfg, s) <= LastChunk(cfg)
    requires s.workers[0].pos + cfg.nchunks <= LastChunk(cfg)
    ensures !s.workers[0].pc.Exited?
  {
    assert WorkerInv(cfg, 0, s.workers[0], Published(cfg, s), Filled(cfg, s), Low(cfg, s));
  }

  lemma LookTooLate(cfg: Config, s: State)
    requires Inv(cfg, s) && WellFormed(cfg, s) && cfg.nworkers > 0 && s.pc.StoreWorkers? && Filled(cfg, s) > LastChunk(cfg)
    requires s.workers[0].pos + cfg.nchunks <= LastChunk(cfg) && !s.workers[0].pc.Exited?
    ensures Strayed(cfg, WorkerStep(cfg, s, 0).workers[0])
  {
    LowDone(cfg, s);
    CheckReads(cfg, s, 0);
  }

  /** The remainder of `n` by `len`, by repeated subtraction. */
  function Turn(len: nat, n: nat): nat
    requires len > 0
  {
    if n < len then n else Turn(len, n - len)
  }

  lemma {:induction false} TurnAt(len: nat, q: nat, k: nat)
    requires k < len
    ensures q * len + k >= q && Turn(len, q * len + k) == k
    decreases q
  {
    if q > 0 {
      TurnAt(len, q - 1, k);
      assert q * len + k == (q - 1) * len + k + len;
    }
  }

  /** All agents in turn. */
  function RoundRobin(cfg: Config, n: nat): Event {
    var k := Turn(2 * cfg.nworkers + 1, n);
    if k < cfg.nworkers then WorkerMoves(k)
    else if k < 2 * cfg.nworkers then HandlerReaps(k - cfg.nworkers)
    else MainMoves
  }

  /** A finite schedule, then round robin for ever. */
  function Forever(cfg: Config, schedule: seq<Event>): nat -> Event {
    (n: nat) => if n < |schedule| then schedule[n] else RoundRobin(cfg, n)
  }

  lemma ForeverFair(cfg: Config, schedule: seq<Event>)
    ensures Fair(cfg, Forever(cfg, schedule))
  {
    forall e, n: nat | Agent(cfg, e)
      ensures Recurs(Forever(cfg, schedule), e, n)
    {
      var k := match e
        case MainMoves => 2 * cfg.nworkers
        case WorkerMoves(w) => w
        case HandlerReaps(w) => cfg.nworkers + w;
      TurnAt(2 * cfg.nworkers + 1, n + |schedule|, k);
      var m := (n + |schedule|) * (2 * cfg.nworkers + 1) + k;
      assert Forever(cfg, schedule)(m) == e;
    }
  }

  lemma SomeFairScheduleHangs(cfg: Config) returns (events: nat -> Event)
    requires cfg.Valid() && !EndsInFirstLap(cfg)
    ensures Fair(cfg, events) && !Finishes(cfg, events)
  {
    FirstLap(cfg);
    RunInv(cfg, []);
    var schedule := DriveToStray(cfg, []);
    events := Forever(cfg, schedule);
    ForeverFair(cfg, schedule);
    assert Take(events, |schedule|) == schedule;
    assert StrayedIn(cfg, At(cfg, events, |schedule|), 0);
    StraysNeverFinishes(cfg, events);
  }

  // ----- the exact condition -----

  /** Every fair schedule brings main to the end of its loop if, and only if, the stream ends in the first lap or there
      are no workers. */
  lemma FinishesExactlyWhen(cfg: Config)
    requires cfg.Valid()
    ensures (forall events: nat -> Event :: Fair(cfg, events) ==> Finishes(cfg, events)) <==> EndsInFirstLap(cfg)
  {
    if EndsInFirstLap(cfg) {
      forall events: nat -> Event | Fair(cfg, events)
        ensures Finishes(cfg, events)
      {
        FirstLapNobodyStrays(cfg, events);
        FairFinishes(cfg, events);
      }
    } else {
      var events := SomeFairScheduleHangs(cfg);
    }
  }
}
