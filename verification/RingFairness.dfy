/** Exactly when the fuzzer finishes, with its waits made of futex operations.

A fair run lets main, each worker and the handler take a turn again and again, and says nothing about the `sleepy` flags:
any waiter may spin on or go to sleep whenever it likes.
 */
module RingFairness {
  import opened RingPositions
  import opened RingMachine
  import opened RingInvariant
  import opened RingRuns
  import opened RingCompletion
  import opened RingFutex

  function FirstTurns(turns: nat -> Turn, n: nat): (r: seq<Turn>)
    ensures |r| == n && forall i :: 0 <= i < n ==> r[i] == turns(i)
  {
    seq(n, (i: nat) => turns(i))
  }

  ghost function PlayAt(cfg: Config, turns: nat -> Turn, n: nat): Fuzzer
    requires cfg.Valid()
  {
    Play(cfg, FirstTurns(turns, n))
  }

  /** Whose turn it is. */
  function Agents(turns: nat -> Turn): nat -> Event {
    (n: nat) => EventOf(turns(n))
  }

  /** Every agent gets its turn again and again. */
  ghost predicate FairTurns(cfg: Config, turns: nat -> Turn) {
    Fair(cfg, Agents(turns))
  }

  lemma FirstTurnsNext(turns: nat -> Turn, n: nat)
    ensures FirstTurns(turns, n + 1) == FirstTurns(turns, n) + [turns(n)]
  {
  }

  lemma PlayNext(cfg: Config, turns: nat -> Turn, n: nat)
    requires cfg.Valid()
    ensures Coherent(cfg, PlayAt(cfg, turns, n)) && Coherent(cfg, PlayAt(cfg, turns, n + 1))
    ensures PlayAt(cfg, turns, n + 1) == TakeTurn(cfg, PlayAt(cfg, turns, n), turns(n))
  {
    FirstTurnsNext(turns, n);
    PlayOn(cfg, FirstTurns(turns, n), turns(n));
  }

  // ----- the ring's part of a run, as a schedule of the ring machine -----

  /** The turns that move the ring, as events; the others as an event of nobody. */
  ghost function Shadow(cfg: Config, turns: nat -> Turn): nat -> Event
    requires cfg.Valid()
  {
    (n: nat) =>
      if PlayAt(cfg, turns, n + 1).ring == PlayAt(cfg, turns, n).ring then WorkerMoves(cfg.nworkers) else EventOf(turns(n))
  }

  lemma {:induction false} ShadowAt(cfg: Config, turns: nat -> Turn, n: nat)
    requires cfg.Valid()
    ensures At(cfg, Shadow(cfg, turns), n) == PlayAt(cfg, turns, n).ring
  {
    if n > 0 {
      ShadowAt(cfg, turns, n - 1);
      PlayNext(cfg, turns, n - 1);
      AtNext(cfg, Shadow(cfg, turns), n - 1);
      TurnIsStep(cfg, PlayAt(cfg, turns, n - 1), turns(n - 1));
    }
  }

  /** From `m` on the ring stands still. */
  ghost predicate Still(cfg: Config, turns: nat -> Turn, m: nat)
    requires cfg.Valid()
  {
    forall i: nat :: i >= m ==> PlayAt(cfg, turns, i).ring == PlayAt(cfg, turns, m).ring
  }

  /** No run moves the ring for ever. */
  lemma PlaySettles(cfg: Config, turns: nat -> Turn) returns (m: nat)
    requires cfg.Valid()
    ensures Still(cfg, turns, m)
  {
    m := Settles(cfg, Shadow(cfg, turns), 0);
    forall i: nat | i >= m
      ensures PlayAt(cfg, turns, i).ring == PlayAt(cfg, turns, m).ring
    {
      ShadowAt(cfg, turns, i);
      ShadowAt(cfg, turns, m);
    }
  }

  // ----- what comes ever nearer does come -----

  /** At `n` some agent is awaited, and has its turn later on. */
  ghost predicate Brought(awaits: (nat, Event) -> bool, who: nat -> Event, n: nat) {
    exists agent, k: nat :: awaits(n, agent) && k >= n && who(k) == agent
  }

  /** The turn at `n` makes the distance smaller, unless it is somebody else's than the awaited agent's; then the distance
      may stay as it is, and the agent awaited. */
  ghost predicate Lowers(d: nat -> nat, awaits: (nat, Event) -> bool, who: nat -> Event, n: nat, agent: Event) {
    awaits(n, agent) ==> d(n + 1) < d(n) || (who(n) != agent && d(n + 1) == d(n) && awaits(n + 1, agent))
  }

  lemma {:induction false} Descends(d: nat -> nat, awaits: (nat, Event) -> bool, who: nat -> Event, n: nat, agent: Event,
                                    k: nat) returns (j: nat)
    requires n <= k && awaits(n, agent) && who(k) == agent
    requires forall i: nat :: i >= n ==> Lowers(d, awaits, who, i, agent)
    ensures j > n && d(j) < d(n)
    decreases k - n
  {
    j := n + 1;
    assert Lowers(d, awaits, who, n, agent);
    if d(n + 1) >= d(n) {
      j := Descends(d, awaits, who, n + 1, agent, k);
    }
  }

  lemma {:induction false} NoEndlessDescent(d: nat -> nat, awaits: (nat, Event) -> bool, who: nat -> Event, n: nat)
    requires forall i: nat :: i >= n ==> Brought(awaits, who, i)
    requires forall i: nat, agent :: i >= n ==> Lowers(d, awaits, who, i, agent)
    ensures false
    decreases d(n)
  {
    assert Brought(awaits, who, n);
    var agent, k: nat :| awaits(n, agent) && k >= n && who(k) == agent;
    var j := Descends(d, awaits, who, n, agent, k);
    NoEndlessDescent(d, awaits, who, j);
  }

  // ----- where a fair run stands still, nobody in the ring can move -----

  /** An event that has not happened, and an agent that brings it nearer. */
  ghost predicate Awaits(cfg: Config, p: Fuzzer, e: Event, agent: Event) {
    Coherent(cfg, p) && Next(cfg, p.ring, e) != p.ring && Brings(cfg, p, e, agent)
  }

  /** One turn that leaves the ring as it is. */
  lemma AwaitsOn(cfg: Config, p: Fuzzer, e: Event, agent: Event, turn: Turn, q: Fuzzer)
    requires Awaits(cfg, p, e, agent) && q == TakeTurn(cfg, p, turn) && Coherent(cfg, q) && q.ring == p.ring
    ensures Distance(cfg, q, e) < Distance(cfg, p, e) ||
            (EventOf(turn) != agent && Distance(cfg, q, e) == Distance(cfg, p, e) && Awaits(cfg, q, e, agent))
  {
    if EventOf(turn) == agent {
      BringsNearer(cfg, p, e, turn);
    } else {
      OthersNoFarther(cfg, p, e, agent, turn);
    }
  }

  /** The agent that brings an event is one of the machine's. */
  lemma BringerIsAgent(cfg: Config, p: Fuzzer, e: Event, agent: Event)
    requires Awaits(cfg, p, e, agent)
    ensures Agent(cfg, agent)
  {
  }

  lemma StillNext(cfg: Config, turns: nat -> Turn, m: nat, n: nat)
    requires cfg.Valid() && Still(cfg, turns, m) && m <= n
    ensures PlayAt(cfg, turns, n + 1).ring == PlayAt(cfg, turns, n).ring == PlayAt(cfg, turns, m).ring
  {
  }

  ghost function Distances(cfg: Config, turns: nat -> Turn, e: Event): nat -> nat
    requires cfg.Valid()
  {
    (n: nat) => if Shaped(cfg, PlayAt(cfg, turns, n)) then Distance(cfg, PlayAt(cfg, turns, n), e) else 0
  }

  ghost function Awaited(cfg: Config, turns: nat -> Turn, e: Event): (nat, Event) -> bool
    requires cfg.Valid()
  {
    (n: nat, agent) => Awaits(cfg, PlayAt(cfg, turns, n), e, agent)
  }

  /** The agent that brings the event gets its turn. */
  lemma BringerTurn(cfg: Config, turns: nat -> Turn, n: nat, e: Event)
    requires cfg.Valid() && FairTurns(cfg, turns) && Coherent(cfg, PlayAt(cfg, turns, n))
    requires Next(cfg, PlayAt(cfg, turns, n).ring, e) != PlayAt(cfg, turns, n).ring
    ensures Brought(Awaited(cfg, turns, e), Agents(turns), n)
  {
    var agent := Bringer(cfg, PlayAt(cfg, turns, n), e);
    BringerIsAgent(cfg, PlayAt(cfg, turns, n), e, agent);
    assert Recurs(Agents(turns), agent, n);
    var k: nat :| k >= n && Agents(turns)(k) == agent;
    assert Awaited(cfg, turns, e)(n, agent);
  }

  /** Every turn brings it nearer, or at least no farther off. */
  lemma TurnLowers(cfg: Config, turns: nat -> Turn, m: nat, n: nat, e: Event, agent: Event)
    requires cfg.Valid() && m <= n && Still(cfg, turns, m)
    ensures Lowers(Distances(cfg, turns, e), Awaited(cfg, turns, e), Agents(turns), n, agent)
  {
    PlayNext(cfg, turns, n);
    StillNext(cfg, turns, m, n);
    if Awaits(cfg, PlayAt(cfg, turns, n), e, agent) {
      AwaitsOn(cfg, PlayAt(cfg, turns, n), e, agent, turns(n), PlayAt(cfg, turns, n + 1));
    }
  }

  lemma StillMoves(cfg: Config, turns: nat -> Turn, m: nat, n: nat, e: Event)
    requires cfg.Valid() && FairTurns(cfg, turns) && m <= n && Still(cfg, turns, m)
    requires Coherent(cfg, PlayAt(cfg, turns, m)) && Next(cfg, PlayAt(cfg, turns, m).ring, e) != PlayAt(cfg, turns, m).ring
    ensures Brought(Awaited(cfg, turns, e), Agents(turns), n)
  {
    PlayNext(cfg, turns, n);
    StillNext(cfg, turns, m, n);
    BringerTurn(cfg, turns, n, e);
  }

  /** So an event that could move the ring would have happened. */
  lemma StillStuck(cfg: Config, turns: nat -> Turn, m: nat, e: Event)
    requires cfg.Valid() && FairTurns(cfg, turns) && Still(cfg, turns, m)
    ensures Coherent(cfg, PlayAt(cfg, turns, m)) && Next(cfg, PlayAt(cfg, turns, m).ring, e) == PlayAt(cfg, turns, m).ring
  {
    PlayNext(cfg, turns, m);
    if Next(cfg, PlayAt(cfg, turns, m).ring, e) != PlayAt(cfg, turns, m).ring {
      forall n: nat | n >= m
        ensures Brought(Awaited(cfg, turns, e), Agents(turns), n)
      {
        StillMoves(cfg, turns, m, n, e);
      }
      forall n: nat, agent | n >= m
        ensures Lowers(Distances(cfg, turns, e), Awaited(cfg, turns, e), Agents(turns), n, agent)
      {
        TurnLowers(cfg, turns, m, n, e, agent);
      }
      NoEndlessDescent(Distances(cfg, turns, e), Awaited(cfg, turns, e), Agents(turns), m);
    }
  }

  // ----- fair runs with futex waits are fair schedules of the ring machine -----

  /** The schedule of a fair run: its moves of the ring, and when the ring has come to rest, everybody's turns. */
  ghost function Schedule(cfg: Config, turns: nat -> Turn, m: nat): nat -> Event
    requires cfg.Valid()
  {
    (n: nat) => if n < m then Shadow(cfg, turns)(n) else EventOf(turns(n))
  }

  lemma ScheduleNext(cfg: Config, turns: nat -> Turn, m: nat, n: nat)
    requires cfg.Valid() && FairTurns(cfg, turns) && Still(cfg, turns, m) && n >= m
    requires At(cfg, Schedule(cfg, turns, m), n) == PlayAt(cfg, turns, n).ring
    ensures At(cfg, Schedule(cfg, turns, m), n + 1) == PlayAt(cfg, turns, n + 1).ring
  {
    AtNext(cfg, Schedule(cfg, turns, m), n);
    StillNext(cfg, turns, m, n);
    StillStuck(cfg, turns, m, EventOf(turns(n)));
  }

  lemma {:induction false} ScheduleAt(cfg: Config, turns: nat -> Turn, m: nat, n: nat)
    requires cfg.Valid() && FairTurns(cfg, turns) && Still(cfg, turns, m)
    ensures At(cfg, Schedule(cfg, turns, m), n) == PlayAt(cfg, turns, n).ring
  {
    if n <= m {
      ShadowAt(cfg, turns, n);
      assert Take(Schedule(cfg, turns, m), n) == Take(Shadow(cfg, turns), n);
    } else {
      ScheduleAt(cfg, turns, m, n - 1);
      ScheduleNext(cfg, turns, m, n - 1);
    }
  }

  /** Every fair run with futex waits is, state by state, a fair schedule of the ring machine: spinning, sleeping and
      waking cost no agent its turn. */
  lemma FairPlayIsFairRun(cfg: Config, turns: nat -> Turn) returns (events: nat -> Event)
    requires cfg.Valid() && FairTurns(cfg, turns)
    ensures Fair(cfg, events) && forall n: nat :: At(cfg, events, n) == PlayAt(cfg, turns, n).ring
  {
    var m := PlaySettles(cfg, turns);
    events := Schedule(cfg, turns, m);
    forall n: nat
      ensures At(cfg, events, n) == PlayAt(cfg, turns, n).ring
    {
      ScheduleAt(cfg, turns, m, n);
    }
    forall e, n: nat | Agent(cfg, e)
      ensures Recurs(events, e, n)
    {
      assert Recurs(Agents(turns), e, n + m);
      var k: nat :| k >= n + m && Agents(turns)(k) == e;
      assert events(k) == e;
    }
  }

  // ----- when main finishes -----

  ghost predicate PlayFinishes(cfg: Config, turns: nat -> Turn)
    requires cfg.Valid()
  {
    exists n: nat :: PlayAt(cfg, turns, n).ring.pc.Finished?
  }

  ghost predicate PlayStrays(cfg: Config, turns: nat -> Turn)
    requires cfg.Valid()
  {
    exists n: nat, w: nat :: StrayedIn(cfg, PlayAt(cfg, turns, n).ring, w)
  }

  /** A fair run and its schedule finish, or stray, together. */
  lemma SameEnd(cfg: Config, turns: nat -> Turn, events: nat -> Event)
    requires cfg.Valid() && forall n: nat :: At(cfg, events, n) == PlayAt(cfg, turns, n).ring
    ensures PlayFinishes(cfg, turns) <==> Finishes(cfg, events)
    ensures PlayStrays(cfg, turns) <==> Strays(cfg, events)
  {
    if PlayStrays(cfg, turns) {
      var n: nat, w: nat :| StrayedIn(cfg, PlayAt(cfg, turns, n).ring, w);
      assert StrayedIn(cfg, At(cfg, events, n), w);
    }
    if Strays(cfg, events) {
      var n: nat, w: nat :| StrayedIn(cfg, At(cfg, events, n), w);
      assert StrayedIn(cfg, PlayAt(cfg, turns, n).ring, w);
    }
  }

  /** On a fair run, whoever spins or sleeps how long, main gets to the end of its loop if, and only if, no worker leaves a
      lap early. */
  lemma FairPlayFinishes(cfg: Config, turns: nat -> Turn)
    requires cfg.Valid() && FairTurns(cfg, turns)
    ensures PlayFinishes(cfg, turns) <==> !PlayStrays(cfg, turns)
  {
    var events := FairPlayIsFairRun(cfg, turns);
    SameEnd(cfg, turns, events);
    FairFinishes(cfg, events);
  }

  /** A fair run that finishes has handed on exactly the sequential program's records, and every worker has attempted every
      input once, in order, and left. */
  lemma FairPlayComplete(cfg: Config, turns: nat -> Turn) returns (n: nat)
    requires cfg.Valid() && FairTurns(cfg, turns) && PlayFinishes(cfg, turns)
    ensures var s := PlayAt(cfg, turns, n).ring;
            && s.pc.Finished? && s.log == Sequential(cfg, |cfg.inputs|) && WellFormed(cfg, s)
            && forall w: nat :: w < cfg.nworkers ==> Complete(cfg, s.workers[w])
  {
    var events := FairPlayIsFairRun(cfg, turns);
    SameEnd(cfg, turns, events);
    n := FairRunComplete(cfg, events);
  }

  /** A fair run that does not finish loses exactly the records of the last lap, and stands still with main in its wait. */
  lemma FairPlayHangLosesLastLap(cfg: Config, turns: nat -> Turn) returns (m: nat)
    requires cfg.Valid() && FairTurns(cfg, turns) && !PlayFinishes(cfg, turns)
    ensures cfg.nchunks <= LastChunk(cfg) && Still(cfg, turns, m) && PlayAt(cfg, turns, m).ring.pc.AwaitWorkers?
    ensures var kept := RingPositions.Start(cfg, LastChunk(cfg) + 1 - cfg.nchunks);
            kept <= |cfg.inputs| && PlayAt(cfg, turns, m).ring.log == Sequential(cfg, kept)
  {
    var events := FairPlayIsFairRun(cfg, turns);
    SameEnd(cfg, turns, events);
    m := FairHangLosesLastLap(cfg, events);
  }

  // ----- all streams that do not end in the first lap can hang -----

  /** Finitely many turns, then everybody's in turn for ever. */
  function TurnsForever(cfg: Config, turns: seq<Turn>): nat -> Turn {
    (n: nat) => if n < |turns| then turns[n] else TurnOf(RoundRobin(cfg, n))
  }

  lemma TurnsForeverFair(cfg: Config, turns: seq<Turn>)
    ensures FairTurns(cfg, TurnsForever(cfg, turns))
  {
    ForeverFair(cfg, []);
    forall e, n: nat | Agent(cfg, e)
      ensures Recurs(Agents(TurnsForever(cfg, turns)), e, n)
    {
      assert Recurs(Forever(cfg, []), e, n + |turns|);
      var k: nat :| k >= n + |turns| && Forever(cfg, [])(k) == e;
      assert Agents(TurnsForever(cfg, turns))(k) == e;
    }
  }

  lemma SomeFairPlayHangs(cfg: Config) returns (turns: nat -> Turn)
    requires cfg.Valid() && !EndsInFirstLap(cfg)
    ensures FairTurns(cfg, turns) && !PlayFinishes(cfg, turns)
  {
    FirstLap(cfg);
    RunInv(cfg, []);
    var schedule := DriveToStray(cfg, []);
    var prefix := RunIsPlay(cfg, schedule);
    turns := TurnsForever(cfg, prefix);
    TurnsForeverFair(cfg, prefix);
    assert FirstTurns(turns, |prefix|) == prefix;
    assert StrayedIn(cfg, PlayAt(cfg, turns, |prefix|).ring, 0);
    FairPlayFinishes(cfg, turns);
  }

  /** With futex waits too, every fair run brings main to the end of its loop if, and only if, the stream ends in the first
      lap or there are no workers. */
  lemma PlayFinishesExactlyWhen(cfg: Config)
    requires cfg.Valid()
    ensures (forall turns: nat -> Turn :: FairTurns(cfg, turns) ==> PlayFinishes(cfg, turns)) <==> EndsInFirstLap(cfg)
  {
    if EndsInFirstLap(cfg) {
      forall turns: nat -> Turn | FairTurns(cfg, turns)
        ensures PlayFinishes(cfg, turns)
      {
        var events := FairPlayIsFairRun(cfg, turns);
        SameEnd(cfg, turns, events);
        FirstLapNobodyStrays(cfg, events);
        FairFinishes(cfg, events);
      }
    } else {
      var turns := SomeFairPlayHangs(cfg);
    }
  }
}
