/** Waiting on one shared cell: `mish_atomic_wait_for` and `mish_atomic_notify` under sequential consistency.

A waiter spins for a while, then registers in `waiters` and asks the kernel to sleep; the kernel compares the cell with
the value the waiter last saw and sleeps only if they are equal, in one atomic step.  A writer stores first, looks at
`waiters` second, and wakes everybody if it saw anyone.  The SIGCHLD handler stores without waking: it runs on the
thread of one waiter, whose system call it interrupts.
 */
module Futex {
  import opened Common

  datatype WaiterPc =
    | Loading                 // about to load the cell
    | Loaded(seen: nat)       // saw a value other than the target
    | Registered(seen: nat)   // counted in `waiters`, about to ask the kernel
    | Asleep(seen: nat)
    | Leaving                 // about to be uncounted
    | Returned

  datatype Waiter = Waiter(target: nat, pc: WaiterPc)

  datatype WriterPc = Idle | Stored | Waking

  /** `notify(v, v')` says whether a writer that changes the cell from `v` to `v'` goes on to notify. */
  datatype Cell = Cell(val: nat, count: nat, waiters: seq<Waiter>, writers: seq<WriterPc>)

  datatype Event =
    | WaiterMoves(i: nat, sleepy: bool)
    | Store(j: nat, v: nat)
    | WriterMoves(j: nat)
    | HandlerStores(i: nat, v: nat)

  type Discipline = (nat, nat) -> bool

  /** Whoever stores a value that somebody waits for must notify. */
  ghost predicate Disciplined(notify: Discipline, c: Cell) {
    forall i: nat, v: nat {:trigger c.waiters[i], notify(c.val, v)} ::
      i < |c.waiters| && c.waiters[i].target == v ==> notify(c.val, v)
  }

  predicate Counted(pc: WaiterPc) {
    pc.Registered? || pc.Asleep? || pc.Leaving?
  }

  function SetWaiter(c: Cell, i: nat, pc: WaiterPc): Cell
    requires i < |c.waiters|
  {
    c.(waiters := c.waiters[i := c.waiters[i].(pc := pc)])
  }

  function WaiterStep(c: Cell, i: nat, sleepy: bool): Cell
    requires i < |c.waiters|
  {
    match c.waiters[i].pc
    case Loading => SetWaiter(c, i, if c.val == c.waiters[i].target then Returned else Loaded(c.val))
    case Loaded(seen) =>
      if sleepy then SetWaiter(c, i, Registered(seen)).(count := c.count + 1) else SetWaiter(c, i, Loading)
    case Registered(seen) => SetWaiter(c, i, if c.val == seen then Asleep(seen) else Leaving)
    case Asleep(_) => c
    case Leaving => SetWaiter(c, i, Loading).(count := if c.count == 0 then U32_MOD - 1 else c.count - 1)
    case Returned => c
  }

  function Woken(w: Waiter): Waiter {
    if w.pc.Asleep? then w.(pc := Leaving) else w
  }

  function WriterStep(c: Cell, j: nat): Cell
    requires j < |c.writers|
  {
    match c.writers[j]
    case Idle => c
    case Stored => c.(writers := c.writers[j := if c.count != 0 then Waking else Idle])
    case Waking =>
      c.(writers := c.writers[j := Idle],
         waiters := seq(|c.waiters|, i requires 0 <= i < |c.waiters| => Woken(c.waiters[i])))
  }

  /** The handler's store on the thread of waiter `i`: a sleeping system call is restarted, and checks again. */
  function HandlerStep(c: Cell, i: nat, v: nat): Cell
    requires i < |c.waiters|
  {
    var w := c.waiters[i];
    SetWaiter(c, i, if w.pc.Asleep? then Registered(w.pc.seen) else w.pc).(val := v)
  }

  /** The handler may only touch a cell on which nobody else waits for the value it stores. */
  predicate HandlerAllowed(c: Cell, i: nat, v: nat) {
    i < |c.waiters| && forall k: nat :: k < |c.waiters| && k != i ==> c.waiters[k].target != v
  }

  ghost function Next(notify: Discipline, c: Cell, e: Event): Cell {
    match e
    case WaiterMoves(i, sleepy) => if i < |c.waiters| then WaiterStep(c, i, sleepy) else c
    case Store(j, v) =>
      if j < |c.writers| && c.writers[j].Idle? then
        c.(val := v, writers := if notify(c.val, v) then c.writers[j := Stored] else c.writers)
      else c
    case WriterMoves(j) => if j < |c.writers| then WriterStep(c, j) else c
    case HandlerStores(i, v) => if HandlerAllowed(c, i, v) then HandlerStep(c, i, v) else c
  }

  /** The number of registered waiters. */
  function Registrations(ws: seq<Waiter>): nat {
    if ws == [] then 0 else (if Counted(ws[0].pc) then 1 else 0) + Registrations(ws[1..])
  }

  ghost predicate NotifyPending(c: Cell) {
    exists j :: 0 <= j < |c.writers| && !c.writers[j].Idle?
  }

  ghost predicate Inv(c: Cell) {
    && c.count == Registrations(c.waiters)
    && (forall i :: 0 <= i < |c.waiters| ==>
          var w := c.waiters[i];
          && (w.pc.Loaded? || w.pc.Registered? || w.pc.Asleep? ==> w.pc.seen != w.target)
          && (w.pc.Asleep? && c.val == w.target ==> NotifyPending(c)))
  }

  lemma {:induction false} RegistrationsUpdate(ws: seq<Waiter>, i: nat, w: Waiter)
    requires i < |ws|
    ensures Registrations(ws[i := w]) ==
            Registrations(ws) - (if Counted(ws[i].pc) then 1 else 0) + (if Counted(w.pc) then 1 else 0)
  {
    if i == 0 {
      assert ws[i := w][1..] == ws[1..];
    } else {
      RegistrationsUpdate(ws[1..], i - 1, w);
      assert ws[i := w][1..] == ws[1..][i - 1 := w];
    }
  }

  lemma {:induction false} RegistrationsSame(a: seq<Waiter>, b: seq<Waiter>)
    requires |a| == |b| && forall i :: 0 <= i < |a| ==> Counted(a[i].pc) == Counted(b[i].pc)
    ensures Registrations(a) == Registrations(b)
  {
    if a != [] {
      RegistrationsSame(a[1..], b[1..]);
    }
  }

  lemma {:induction false} RegistrationsPositive(ws: seq<Waiter>, i: nat)
    requires i < |ws| && Counted(ws[i].pc)
    ensures Registrations(ws) > 0
  {
    if i > 0 {
      RegistrationsPositive(ws[1..], i - 1);
    }
  }

  lemma WaiterStepInv(c: Cell, i: nat, sleepy: bool)
    requires Inv(c) && i < |c.waiters|
    ensures Inv(WaiterStep(c, i, sleepy))
  {
    var t := WaiterStep(c, i, sleepy);
    if t != c {
      RegistrationsUpdate(c.waiters, i, t.waiters[i]);
      assert t.waiters == c.waiters[i := t.waiters[i]];
      assert NotifyPending(c) ==> NotifyPending(t);
    }
  }

  lemma StoreInv(notify: Discipline, c: Cell, j: nat, v: nat)
    requires Inv(c) && Disciplined(notify, c)
    ensures Inv(Next(notify, c, Store(j, v)))
  {
    var t := Next(notify, c, Store(j, v));
    if j < |c.writers| && c.writers[j].Idle? {
      forall i | 0 <= i < |t.waiters| && t.waiters[i].pc.Asleep? && t.val == t.waiters[i].target
        ensures NotifyPending(t)
      {
        assert notify(c.val, v);
        assert !t.writers[j].Idle?;
      }
    }
  }

  lemma WriterStepInv(c: Cell, j: nat)
    requires Inv(c) && j < |c.writers|
    ensures Inv(WriterStep(c, j))
  {
    var t := WriterStep(c, j);
    RegistrationsSame(c.waiters, t.waiters);
    forall i | 0 <= i < |t.waiters| && t.waiters[i].pc.Asleep? && t.val == t.waiters[i].target
      ensures NotifyPending(t)
    {
      RegistrationsPositive(c.waiters, i);
      var k :| 0 <= k < |c.writers| && !c.writers[k].Idle?;
      assert !t.writers[k].Idle?;
    }
  }

  lemma HandlerStepInv(c: Cell, i: nat, v: nat)
    requires Inv(c) && HandlerAllowed(c, i, v)
    ensures Inv(HandlerStep(c, i, v))
  {
    var t := HandlerStep(c, i, v);
    RegistrationsUpdate(c.waiters, i, t.waiters[i]);
  }

  lemma NextInv(notify: Discipline, c: Cell, e: Event)
    requires Inv(c) && Disciplined(notify, c)
    ensures Inv(Next(notify, c, e))
  {
    match e
    case WaiterMoves(i, sleepy) => if i < |c.waiters| { WaiterStepInv(c, i, sleepy); }
    case Store(j, v) => StoreInv(notify, c, j, v);
    case WriterMoves(j) => if j < |c.writers| { WriterStepInv(c, j); }
    case HandlerStores(i, v) => if HandlerAllowed(c, i, v) { HandlerStepInv(c, i, v); }
  }

  // ----- runs -----

  ghost function Run(notify: Discipline, c: Cell, schedule: seq<Event>): Cell {
    if schedule == [] then c
    else Next(notify, Run(notify, c, schedule[..|schedule| - 1]), schedule[|schedule| - 1])
  }

  /** Nobody waiting yet, nothing being written. */
  predicate Fresh(c: Cell) {
    && c.count == 0
    && (forall i :: 0 <= i < |c.waiters| ==> c.waiters[i].pc.Loading?)
    && (forall j :: 0 <= j < |c.writers| ==> c.writers[j].Idle?)
  }

  /** The discipline in terms of the waiters' targets, which never change. */
  ghost predicate Covers(notify: Discipline, c: Cell) {
    forall i: nat, u: nat {:trigger notify(u, c.waiters[i].target)} :: i < |c.waiters| ==> notify(u, c.waiters[i].target)
  }

  lemma {:induction false} FreshRegistrations(ws: seq<Waiter>)
    requires forall i :: 0 <= i < |ws| ==> ws[i].pc.Loading?
    ensures Registrations(ws) == 0
  {
    if ws != [] {
      FreshRegistrations(ws[1..]);
    }
  }

  predicate SameTargets(a: Cell, b: Cell) {
    |a.waiters| == |b.waiters| && forall i :: 0 <= i < |a.waiters| ==> a.waiters[i].target == b.waiters[i].target
  }

  lemma NextTargets(notify: Discipline, c: Cell, e: Event)
    ensures SameTargets(c, Next(notify, c, e))
  {
  }

  lemma CoversDisciplined(notify: Discipline, c: Cell, s: Cell)
    requires Covers(notify, c) && SameTargets(c, s)
    ensures Disciplined(notify, s)
  {
    forall i: nat, v: nat | i < |s.waiters| && s.waiters[i].target == v
      ensures notify(s.val, v)
    {
      assert notify(s.val, c.waiters[i].target);
    }
  }

  lemma {:induction false} RunInv(notify: Discipline, c: Cell, schedule: seq<Event>)
    requires Fresh(c) && Covers(notify, c)
    ensures Inv(Run(notify, c, schedule)) && SameTargets(c, Run(notify, c, schedule))
  {
    if schedule == [] {
      FreshRegistrations(c.waiters);
    } else {
      var s := Run(notify, c, schedule[..|schedule| - 1]);
      RunInv(notify, c, schedule[..|schedule| - 1]);
      CoversDisciplined(notify, c, s);
      NextInv(notify, s, schedule[|schedule| - 1]);
      NextTargets(notify, s, schedule[|schedule| - 1]);
    }
  }

  /** No wake-up is lost: in every state of every schedule, a waiter that sleeps although the cell holds its target is
      about to be woken, because some writer has stored and not yet finished notifying. */
  lemma NoLostWakeup(notify: Discipline, c: Cell, schedule: seq<Event>, i: nat)
    requires Fresh(c) && Covers(notify, c) && i < |c.waiters|
    ensures var s := Run(notify, c, schedule);
            i < |s.waiters| && (s.waiters[i].pc.Asleep? && s.val == s.waiters[i].target ==> NotifyPending(s))
  {
    RunInv(notify, c, schedule);
  }

  /** Moves a waiter needs once the cell holds its target and nobody else moves. */
  function MovesLeft(pc: WaiterPc): nat {
    match pc
    case Returned => 0
    case Loading => 1
    case Leaving => 2
    case Registered(_) => 3
    case Loaded(_) => 4
    case Asleep(_) => 5
  }

  ghost predicate Quiet(c: Cell, i: nat) {
    Inv(c) && i < |c.waiters| && c.val == c.waiters[i].target && !NotifyPending(c)
  }

  lemma QuietMove(notify: Discipline, c: Cell, i: nat, sleepy: bool)
    requires Quiet(c, i)
    ensures Quiet(Next(notify, c, WaiterMoves(i, sleepy)), i)
    ensures var pc, now := c.waiters[i].pc, Next(notify, c, WaiterMoves(i, sleepy)).waiters[i].pc;
            MovesLeft(pc) < 5 && (MovesLeft(now) < MovesLeft(pc) || pc == now == Returned)
  {
    WaiterStepInv(c, i, sleepy);
  }

  /** Once the writers are done and the cell holds its target, a waiter returns within four moves of its own. */
  lemma WaiterReturns(notify: Discipline, c: Cell, schedule: seq<Event>, i: nat, sleepy: bool)
    requires Fresh(c) && Covers(notify, c) && i < |c.waiters|
    requires var s := Run(notify, c, schedule); !NotifyPending(s) && s.val == c.waiters[i].target
    ensures var s := Run(notify, c, schedule);
            var m := WaiterMoves(i, sleepy);
            var t := Next(notify, Next(notify, Next(notify, Next(notify, s, m), m), m), m);
            i < |t.waiters| && t.waiters[i].pc.Returned?
  {
    RunInv(notify, c, schedule);
    var s0, m := Run(notify, c, schedule), WaiterMoves(i, sleepy);
    QuietMove(notify, s0, i, sleepy);
    var s1 := Next(notify, s0, m);
    QuietMove(notify, s1, i, sleepy);
    var s2 := Next(notify, s1, m);
    QuietMove(notify, s2, i, sleepy);
    QuietMove(notify, Next(notify, s2, m), i, sleepy);
  }

  // ----- the two cells of the ring -----

  /** `remaining_workers`: only main waits, for 0; a worker notifies when its decrement found 1; the handler is silent. */
  function RemainingDiscipline(): Discipline {
    (old': nat, new': nat) => new' == 0
  }

  /** `generation`: every worker waits, for some generation; main always notifies. */
  function GenerationDiscipline(): Discipline {
    (old': nat, new': nat) => true
  }

  lemma RingCells(c: Cell)
    ensures (forall i :: 0 <= i < |c.waiters| ==> c.waiters[i].target == 0) ==> Covers(RemainingDiscipline(), c)
    ensures Covers(GenerationDiscipline(), c)
  {
  }
}
