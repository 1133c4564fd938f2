/** Every step keeps the invariant; one lemma a step. */
module RingSteps {
  import opened Common
  import opened RingPositions
  import opened RingMachine
  import opened RingInvariant

  lemma InitInv(cfg: Config)
    requires cfg.Valid()
    ensures Inv(cfg, Init(cfg))
  {
    LastChunkBounds(cfg);
  }

  /** How the counters of main relate. */
  lemma Bounds(cfg: Config, s: State)
    requires cfg.Valid() && MainInv(cfg, s)
    ensures Published(cfg, s) <= Counted(cfg, s) <= Filled(cfg, s) <= LastChunk(cfg) + 1
    ensures Filled(cfg, s) <= Published(cfg, s) + 1
    ensures Filled(cfg, s) - cfg.nchunks <= Low(cfg, s)
  {
  }

  lemma LowDone(cfg: Config, s: State)
    requires Inv(cfg, s)
    ensures forall w: nat :: w < cfg.nworkers ==> Low(cfg, s) <= Done(s.workers[w]) <= Published(cfg, s)
    ensures forall w: nat :: w < cfg.nworkers && (s.workers[w].pc.Decoding? || s.workers[w].pc.Crashed?) ==>
              s.workers[w].pos < Published(cfg, s)
    ensures forall w: nat :: w < cfg.nworkers && s.workers[w].sigchld ==> s.workers[w].pc.Crashed?
  {
    forall w: nat | w < cfg.nworkers
      ensures Low(cfg, s) <= Done(s.workers[w]) <= Published(cfg, s)
      ensures s.workers[w].pc.Decoding? || s.workers[w].pc.Crashed? ==> s.workers[w].pos < Published(cfg, s)
      ensures s.workers[w].sigchld ==> s.workers[w].pc.Crashed?
    {
      assert WorkerInv(cfg, w, s.workers[w], Published(cfg, s), Filled(cfg, s), Low(cfg, s));
    }
  }

  /** What a worker reads at its own index: chunk `p` if main has filled it and not yet replaced it. */
  lemma HeldChunk(cfg: Config, s: State, w: nat)
    requires Inv(cfg, s) && w < cfg.nworkers
    requires s.workers[w].pos < Published(cfg, s) && Low(cfg, s) <= s.workers[w].pos
    ensures s.workers[w].idx < cfg.nchunks
    ensures Carries(cfg, s.chunks[s.workers[w].idx].inputs, s.workers[w].pos)
    ensures s.chunks[s.workers[w].idx].generation == s.workers[w].gen
  {
    Bounds(cfg, s);
    assert WorkerInv(cfg, w, s.workers[w], Published(cfg, s), Filled(cfg, s), Low(cfg, s));
  }

  /** In every state of the invariant, each index the next step uses is in bounds. */
  lemma InvWellFormed(cfg: Config, s: State)
    requires Inv(cfg, s)
    ensures WellFormed(cfg, s)
  {
    forall c | 0 <= c < cfg.nchunks
      ensures |s.chunks[c].inputs| <= cfg.nslots
    {
      if c < Filled(cfg, s) {
        var p := Holder(cfg, Filled(cfg, s), c);
      }
    }
    forall w | 0 <= w < cfg.nworkers
      ensures s.workers[w].idx < cfg.nchunks && s.workers[w].startIdx < cfg.nchunks
      ensures |s.workers[w].out| == cfg.nchunks
      ensures forall c :: 0 <= c < cfg.nchunks ==>
                            && |s.workers[w].out[c].outputs| == cfg.nslots
                            && s.workers[w].out[c].remaining <= |s.chunks[c].inputs|
    {
      assert WorkerInv(cfg, w, s.workers[w], Published(cfg, s), Filled(cfg, s), Low(cfg, s));
      if s.workers[w].out[s.workers[w].idx].remaining > 0 {
        HeldChunk(cfg, s, w);
      }
    }
  }

  // ----- counting owing workers -----

  lemma OwingAll(cfg: Config, s: State, p: nat)
    requires |s.workers| == cfg.nworkers
    requires forall w: nat :: w < cfg.nworkers ==> Done(s.workers[w]) <= p && (s.workers[w].sigchld ==> s.workers[w].pos < p)
    ensures |Owing(s.workers, p)| == cfg.nworkers
  {
    assert Owing(s.workers, p) == Below(cfg.nworkers);
  }

  ghost function Below(n: nat): (r: set<nat>)
    ensures |r| == n && forall w: nat :: w in r <==> w < n
  {
    if n == 0 then {} else Below(n - 1) + {n - 1}
  }

  /** A change of one worker that keeps what `Owing` looks at keeps every counter right. */
  lemma CountersKept(cfg: Config, s: State, w: nat, k: Worker, counted: nat)
    requires cfg.Valid() && |s.chunks| == cfg.nchunks && w < |s.workers|
    requires CountersInv(cfg, s.chunks, s.workers, counted)
    requires Done(k) == Done(s.workers[w]) && k.sigchld == s.workers[w].sigchld && (k.sigchld ==> k.pos == s.workers[w].pos)
    ensures CountersInv(cfg, s.chunks, s.workers[w := k], counted)
  {
    forall p: nat
      ensures Owing(s.workers[w := k], p) == Owing(s.workers, p)
    {
    }
  }

  /** Worker `w` stops being counted for chunk `p`, and only for it. */
  lemma CountersDown(cfg: Config, s: State, w: nat, k: Worker, p: nat, counted: nat)
    requires cfg.Valid() && |s.chunks| == cfg.nchunks && w < |s.workers|
    requires CountersInv(cfg, s.chunks, s.workers, counted)
    requires counted - cfg.nchunks <= p < counted
    requires w in Owing(s.workers, p) && w !in Owing(s.workers[w := k], p)
    requires forall q: nat :: q != p ==> (w in Owing(s.workers, q) <==> w in Owing(s.workers[w := k], q))
    ensures s.chunks[Idx(cfg, p)].remainingWorkers > 0
    ensures CountersInv(cfg, AddRemaining(s, Idx(cfg, p), Decrement(s.chunks[Idx(cfg, p)].remainingWorkers)).chunks,
                        s.workers[w := k], counted)
  {
    IdxWindow(cfg, p);
    assert Owing(s.workers[w := k], p) == Owing(s.workers, p) - {w};
    forall q: nat | q != p
      ensures Owing(s.workers[w := k], q) == Owing(s.workers, q)
    {
    }
    assert forall c: nat :: counted <= c < cfg.nchunks ==> Idx(cfg, c) == c;
  }

  /** Worker `w` is counted again for chunk `p`, and only for it. */
  lemma OneMoreOwes(cfg: Config, workers: seq<Worker>, w: nat, k: Worker, p: nat)
    requires cfg.Valid() && w < |workers| == cfg.nworkers
    requires w !in Owing(workers, p) && w in Owing(workers[w := k], p)
    ensures |Owing(workers[w := k], p)| == |Owing(workers, p)| + 1 <= cfg.nworkers
  {
    assert Owing(workers[w := k], p) == Owing(workers, p) + {w};
    SubsetCard(Owing(workers[w := k], p), Below(cfg.nworkers));
  }

  lemma CountersUp(cfg: Config, s: State, w: nat, k: Worker, p: nat, counted: nat)
    requires cfg.Valid() && |s.chunks| == cfg.nchunks && w < |s.workers| == cfg.nworkers
    requires CountersInv(cfg, s.chunks, s.workers, counted)
    requires counted - cfg.nchunks <= p < counted
    requires w !in Owing(s.workers, p) && w in Owing(s.workers[w := k], p)
    requires forall q: nat :: q != p ==> (w in Owing(s.workers, q) <==> w in Owing(s.workers[w := k], q))
    ensures CountersInv(cfg, AddRemaining(s, Idx(cfg, p), U32(s.chunks[Idx(cfg, p)].remainingWorkers + 1)).chunks,
                        s.workers[w := k], counted)
  {
    IdxWindow(cfg, p);
    OneMoreOwes(cfg, s.workers, w, k, p);
    forall q: nat | q != p
      ensures Owing(s.workers[w := k], q) == Owing(s.workers, q)
    {
    }
    assert forall c: nat :: counted <= c < cfg.nchunks ==> Idx(cfg, c) == c;
  }

  // ----- worker() -----

  lemma Assemble(cfg: Config, s: State)
    requires cfg.Valid()
    requires MainInv(cfg, s)
    requires ChunksInv(cfg, s.chunks, Filled(cfg, s), Published(cfg, s))
    requires WorkersInv(cfg, s.workers, Published(cfg, s), Filled(cfg, s), Low(cfg, s))
    requires CountersInv(cfg, s.chunks, s.workers, Counted(cfg, s))
    requires ScanInv(cfg, s)
    requires LogInv(cfg, s)
    ensures Inv(cfg, s)
  {
  }

  /** The same with the counters given by value. */
  lemma AssembleAt(cfg: Config, s: State, h: nat, pub: nat, counted: nat, low: int)
    requires cfg.Valid()
    requires h == Filled(cfg, s) && pub == Published(cfg, s) && counted == Counted(cfg, s) && low == Low(cfg, s)
    requires MainInv(cfg, s)
    requires ChunksInv(cfg, s.chunks, h, pub)
    requires WorkersInv(cfg, s.workers, pub, h, low)
    requires CountersInv(cfg, s.chunks, s.workers, counted)
    requires ScanInv(cfg, s)
    requires LogInv(cfg, s)
    ensures Inv(cfg, s)
  {
  }

  lemma ScanKept(cfg: Config, s: State, w: nat, k: Worker, t: State)
    requires |s.workers| == cfg.nworkers && w < cfg.nworkers && ScanInv(cfg, s)
    requires t == s.(workers := s.workers[w := k], chunks := t.chunks)
    requires Done(k) >= Done(s.workers[w])
    requires s.workers[w].sigchld ==> k.sigchld && k.pos == s.workers[w].pos
    ensures ScanInv(cfg, t)
  {
    if s.pc.Scan? && !s.pc.restarted {
      forall v: nat | v < cfg.nworkers
        ensures || Done(t.workers[v]) > t.pos - cfg.nchunks
                || (v >= t.pc.next && t.workers[v].sigchld && t.workers[v].pos == t.pos - cfg.nchunks)
      {
        assert || Done(s.workers[v]) > s.pos - cfg.nchunks
               || (v >= s.pc.next && s.workers[v].sigchld && s.workers[v].pos == s.pos - cfg.nchunks);
      }
    }
  }

  lemma WorkersKept(cfg: Config, workers: seq<Worker>, w: nat, k: Worker, pub: nat, h: nat, low: int)
    requires cfg.Valid() && WorkersInv(cfg, workers, pub, h, low) && w < cfg.nworkers
    requires WorkerInv(cfg, w, k, pub, h, low)
    ensures WorkersInv(cfg, workers[w := k], pub, h, low)
  {
  }

  lemma ChunksKept(cfg: Config, a: seq<Chunk>, b: seq<Chunk>, h: nat, pub: nat)
    requires cfg.Valid() && ChunksInv(cfg, a, h, pub) && |b| == |a|
    requires forall c: nat :: c < cfg.nchunks ==> b[c].inputs == a[c].inputs
    requires forall c: nat :: c < cfg.nchunks ==> b[c].generation == a[c].generation
    ensures ChunksInv(cfg, b, h, pub)
  {
  }

  lemma MainKept(cfg: Config, s: State, t: State)
    requires cfg.Valid() && MainInv(cfg, s) && LogInv(cfg, s)
    requires t == s.(workers := t.workers, chunks := t.chunks)
    ensures MainInv(cfg, t) && LogInv(cfg, t)
    ensures Published(cfg, t) == Published(cfg, s) && Filled(cfg, t) == Filled(cfg, s)
    ensures Counted(cfg, t) == Counted(cfg, s) && Low(cfg, t) == Low(cfg, s)
  {
  }

  /** A step of one worker leaves main's own part of the invariant alone. */
  lemma WorkerFrame(cfg: Config, s: State, w: nat, k: Worker, t: State)
    requires Inv(cfg, s) && w < cfg.nworkers
    requires t == s.(workers := s.workers[w := k], chunks := t.chunks)
    requires |t.chunks| == cfg.nchunks
    requires forall c: nat :: c < cfg.nchunks ==> t.chunks[c].inputs == s.chunks[c].inputs
    requires forall c: nat :: c < cfg.nchunks ==> t.chunks[c].generation == s.chunks[c].generation
    requires WorkerInv(cfg, w, k, Published(cfg, s), Filled(cfg, s), Low(cfg, s))
    requires CountersInv(cfg, t.chunks, t.workers, Counted(cfg, s))
    requires || (s.pc.Scan? && s.pc.restarted)
             || (Done(k) >= Done(s.workers[w]) && (s.workers[w].sigchld ==> k.sigchld && k.pos == s.workers[w].pos))
    ensures Inv(cfg, t)
  {
    if !(s.pc.Scan? && s.pc.restarted) {
      ScanKept(cfg, s, w, k, t);
    }
    WorkersKept(cfg, s.workers, w, k, Published(cfg, s), Filled(cfg, s), Low(cfg, s));
    MainKept(cfg, s, t);
    ChunksKept(cfg, s.chunks, t.chunks, Filled(cfg, s), Published(cfg, s));
    Assemble(cfg, t);
  }

  /** A worker changes its own fields, and nothing `Owing` looks at. */
  lemma WorkerAlone(cfg: Config, s: State, w: nat, k: Worker)
    requires Inv(cfg, s) && w < cfg.nworkers
    requires WorkerInv(cfg, w, k, Published(cfg, s), Filled(cfg, s), Low(cfg, s))
    requires Done(k) == Done(s.workers[w]) && k.sigchld == s.workers[w].sigchld && (k.sigchld ==> k.pos == s.workers[w].pos)
    ensures Inv(cfg, SetWorker(s, w, k))
  {
    CountersKept(cfg, s, w, k, Counted(cfg, s));
    WorkerFrame(cfg, s, w, k, SetWorker(s, w, k));
  }

  /** A worker stops being counted for its chunk: it signs off, or the handler finds it dead. */
  lemma WorkerDown(cfg: Config, s: State, w: nat, k: Worker, c: nat)
    requires Inv(cfg, s) && w < cfg.nworkers && c < cfg.nchunks
    requires WorkerInv(cfg, w, k, Published(cfg, s), Filled(cfg, s), Low(cfg, s))
    requires c == s.workers[w].idx && k.pos == s.workers[w].pos < Published(cfg, s)
    requires Done(s.workers[w]) == k.pos && !s.workers[w].sigchld
    requires (Done(k) == k.pos + 1 && !k.sigchld) || (Done(k) == k.pos && k.sigchld)
    ensures Inv(cfg, AddRemaining(SetWorker(s, w, k), c, Decrement(s.chunks[c].remainingWorkers)))
  {
    Bounds(cfg, s);
    LowDone(cfg, s);
    CounterIndex(cfg, s, w);
    assert w in Owing(s.workers, k.pos);
    CountersDown(cfg, s, w, k, k.pos, Counted(cfg, s));
    WorkerFrame(cfg, s, w, k, AddRemaining(SetWorker(s, w, k), c, Decrement(s.chunks[c].remainingWorkers)));
  }

  lemma CounterIndex(cfg: Config, s: State, w: nat)
    requires Inv(cfg, s) && w < cfg.nworkers
    ensures s.workers[w].idx == Idx(cfg, s.workers[w].pos)
    ensures s.workers[w].gen == U32(Gen(cfg, s.workers[w].pos))
  {
    assert WorkerInv(cfg, w, s.workers[w], Published(cfg, s), Filled(cfg, s), Low(cfg, s));
  }

  /** The generation at the index of chunk `q` tells whether `q` is published, if the reader is at most one lap behind. */
  lemma GenerationAt(cfg: Config, chunks: seq<Chunk>, h: nat, pub: nat, q: nat)
    requires cfg.Valid() && ChunksInv(cfg, chunks, h, pub) && pub - cfg.nchunks <= q <= pub
    ensures chunks[Idx(cfg, q)].generation == U32(Gen(cfg, q)) <==> q < pub
  {
    if q == pub && q >= cfg.nchunks {
      assert Idx(cfg, q - cfg.nchunks) == Idx(cfg, q);
    }
  }

  /** The generation test of a waiting worker is exact: it succeeds when, and only when, its chunk is published. */
  lemma GenerationTest(cfg: Config, s: State, w: nat)
    requires Inv(cfg, s) && w < cfg.nworkers && s.workers[w].pc.Waiting?
    ensures s.workers[w].idx < cfg.nchunks
    ensures s.chunks[s.workers[w].idx].generation == s.workers[w].gen <==> s.workers[w].pos < Published(cfg, s)
  {
    Bounds(cfg, s);
    LowDone(cfg, s);
    CounterIndex(cfg, s, w);
    GenerationAt(cfg, s.chunks, Filled(cfg, s), Published(cfg, s), s.workers[w].pos);
  }

  lemma BeginWorker(cfg: Config, w: nat, k: Worker, pub: nat, h: nat, low: int)
    requires cfg.Valid() && WorkerInv(cfg, w, k, pub, h, low) && k.pc.Waiting? && k.pos < pub
    ensures k.out[k.idx].remaining <= Count(cfg, k.pos)
    ensures WorkerInv(cfg, w, Begin(k, Count(cfg, k.pos)), pub, h, low)
  {
    var k' := Begin(k, Count(cfg, k.pos));
    assert forall c :: 0 <= c < cfg.nchunks ==> k'.out[c].outputs == k.out[c].outputs;
    assert Progress(cfg, w, k', pub);
  }

  lemma BeginInv(cfg: Config, s: State, w: nat)
    requires Inv(cfg, s) && WellFormed(cfg, s) && w < cfg.nworkers && s.workers[w].pc.Waiting?
    requires s.chunks[s.workers[w].idx].generation == s.workers[w].gen
    ensures s.workers[w].out[s.workers[w].idx].remaining <= |s.chunks[s.workers[w].idx].inputs|
    ensures Inv(cfg, SetWorker(s, w, Begin(s.workers[w], |s.chunks[s.workers[w].idx].inputs|)))
  {
    GenerationTest(cfg, s, w);
    LowDone(cfg, s);
    HeldChunk(cfg, s, w);
    BeginWorker(cfg, w, s.workers[w], Published(cfg, s), Filled(cfg, s), Low(cfg, s));
    WorkerAlone(cfg, s, w, Begin(s.workers[w], |s.chunks[s.workers[w].idx].inputs|));
  }

  /** Different chunks hold different inputs. */
  lemma ChunksApart(cfg: Config, p: nat, j: nat, q: nat, i: nat)
    requires cfg.Valid() && p <= LastChunk(cfg) && q <= LastChunk(cfg) && p != q
    requires j < Count(cfg, p) && i < Count(cfg, q)
    ensures Before(cfg, p) + j != Before(cfg, q) + i
  {
    ChunkShape(cfg, p);
    ChunkShape(cfg, q);
    if p < q {
      BeforeMonotone(cfg, p + 1, q);
    } else {
      BeforeMonotone(cfg, q + 1, p);
    }
  }

  lemma AnsweredApart(cfg: Config, w: nat, outputs: seq<OutputSlot>, p: nat, q: nat, i: nat)
    requires cfg.Valid() && p <= LastChunk(cfg) && q <= LastChunk(cfg) && p != q && i < Count(cfg, q)
    requires |outputs| == cfg.nslots
    requires Answered(cfg, w, outputs, p, Before(cfg, q) + i)
    ensures Answered(cfg, w, outputs, p, Before(cfg, q) + i + 1)
  {
    forall j: nat | j < Count(cfg, p) && Before(cfg, p) + j < Before(cfg, q) + i + 1
      ensures outputs[j] == Answer(cfg, w, Before(cfg, p) + j)
    {
      ChunksApart(cfg, p, j, q, i);
    }
  }

  /** Writing slot `i` of chunk `q` disturbs no other answer, and settles at most that one slot. */
  lemma SlotWritten(cfg: Config, w: nat, k: Worker, q: nat, i: nat, o: OutChunk, m: nat, pub: nat, h: nat)
    requires cfg.Valid() && Shape(cfg, k) && k.pos == q && h - cfg.nchunks <= q < pub <= h <= LastChunk(cfg) + 1
    requires i < Count(cfg, q) && |o.outputs| == cfg.nslots
    requires forall p: nat :: h - cfg.nchunks <= p < pub ==>
               Answered(cfg, w, k.out[Idx(cfg, p)].outputs, p, Before(cfg, q) + i)
    requires forall j: nat :: j < i ==> o.outputs[j] == k.out[k.idx].outputs[j]
    requires || m == Before(cfg, q) + i
             || (m == Before(cfg, q) + i + 1 && m <= |cfg.inputs| && o.outputs[i] == Answer(cfg, w, m - 1))
    ensures forall p: nat :: h - cfg.nchunks <= p < pub ==>
              Answered(cfg, w, k.out[k.idx := o][Idx(cfg, p)].outputs, p, m)
  {
    forall p: nat | h - cfg.nchunks <= p < pub
      ensures Answered(cfg, w, k.out[k.idx := o][Idx(cfg, p)].outputs, p, m)
    {
      assert Answered(cfg, w, k.out[Idx(cfg, p)].outputs, p, Before(cfg, q) + i);
      if p != q {
        IdxApart(cfg, p, q);
        AnsweredApart(cfg, w, k.out[Idx(cfg, p)].outputs, p, q, i);
      }
    }
  }

  lemma IdxApart(cfg: Config, p: nat, q: nat)
    requires cfg.nchunks > 0 && p - cfg.nchunks < q < p + cfg.nchunks && p != q
    ensures Idx(cfg, p) != Idx(cfg, q)
  {
    IdxWindow(cfg, p);
  }

  lemma DecodeWorker(cfg: Config, w: nat, k: Worker, inputs: seq<InputSlot>, pub: nat, h: nat, low: int)
    requires cfg.Valid() && WorkerInv(cfg, w, k, pub, h, low) && k.pc.Decoding?
    requires h - cfg.nchunks <= low && pub <= h <= LastChunk(cfg) + 1
    requires Carries(cfg, inputs, k.pos) && k.i < |inputs|
    requires |inputs| <= cfg.nslots
    ensures WorkerInv(cfg, w, DecodeSlot(cfg, w, k, inputs), pub, h, low)
  {
    var k' := DecodeSlot(cfg, w, k, inputs);
    DecodeProgress(cfg, w, k, inputs, pub);
    SlotWritten(cfg, w, k, k.pos, k.i, k'.out[k.idx], Settled(k'), pub, h);
    assert k'.out == k.out[k.idx := k'.out[k.idx]];
  }

  /** What one turn of the slot loop does to the worker's own counters. */
  ghost predicate Attempted(cfg: Config, w: nat, k: Worker, k': Worker, pub: nat)
    requires cfg.Valid()
  {
    && Shape(cfg, k') && k'.idx == k.idx && Progress(cfg, w, k', pub)
    && Settled(k') >= |k.tried| == Before(cfg, k.pos) + k.i
    && (Settled(k') == |k.tried| ||
        (Settled(k') == |k.tried| + 1 <= |cfg.inputs| && k.i < cfg.nslots
         && k'.out[k.idx].outputs[k.i] == Answer(cfg, w, Settled(k') - 1)))
  }

  lemma DecodeProgress(cfg: Config, w: nat, k: Worker, inputs: seq<InputSlot>, pub: nat)
    requires cfg.Valid() && Shape(cfg, k) && Progress(cfg, w, k, pub) && k.pc.Decoding? && !k.reaped
    requires Carries(cfg, inputs, k.pos) && k.i < |inputs| <= cfg.nslots
    ensures Attempted(cfg, w, k, DecodeSlot(cfg, w, k, inputs), pub)
  {
    assert inputs[k.i] == cfg.inputs[Before(cfg, k.pos) + k.i];
    if cfg.decode(w, |k.tried|, inputs[k.i]).Decoded? {
      DecodedProgress(cfg, w, k, inputs, pub);
    } else {
      DiedProgress(cfg, w, k, inputs, pub);
    }
  }

  lemma DecodedProgress(cfg: Config, w: nat, k: Worker, inputs: seq<InputSlot>, pub: nat)
    requires cfg.Valid() && Shape(cfg, k) && Progress(cfg, w, k, pub) && k.pc.Decoding? && !k.reaped
    requires Carries(cfg, inputs, k.pos) && k.i < |inputs| <= cfg.nslots
    requires |k.tried| < |cfg.inputs| && inputs[k.i] == cfg.inputs[|k.tried|]
    requires cfg.decode(w, |k.tried|, inputs[k.i]).Decoded?
    ensures Attempted(cfg, w, k, DecodeSlot(cfg, w, k, inputs), pub)
  {
  }

  lemma DiedProgress(cfg: Config, w: nat, k: Worker, inputs: seq<InputSlot>, pub: nat)
    requires cfg.Valid() && Shape(cfg, k) && Progress(cfg, w, k, pub) && k.pc.Decoding? && !k.reaped
    requires Carries(cfg, inputs, k.pos) && k.i < |inputs| <= cfg.nslots
    requires |k.tried| < |cfg.inputs| && inputs[k.i] == cfg.inputs[|k.tried|]
    requires cfg.decode(w, |k.tried|, inputs[k.i]).Died?
    ensures Attempted(cfg, w, k, DecodeSlot(cfg, w, k, inputs), pub)
  {
  }

  lemma DecodeInv(cfg: Config, s: State, w: nat)
    requires Inv(cfg, s) && WellFormed(cfg, s) && w < cfg.nworkers && s.workers[w].pc.Decoding?
    requires s.workers[w].i < |s.chunks[s.workers[w].idx].inputs|
    ensures Inv(cfg, SetWorker(s, w, DecodeSlot(cfg, w, s.workers[w], s.chunks[s.workers[w].idx].inputs)))
  {
    var k := s.workers[w];
    Bounds(cfg, s);
    LowDone(cfg, s);
    HeldChunk(cfg, s, w);
    DecodeWorker(cfg, w, k, s.chunks[k.idx].inputs, Published(cfg, s), Filled(cfg, s), Low(cfg, s));
    WorkerAlone(cfg, s, w, DecodeSlot(cfg, w, k, s.chunks[k.idx].inputs));
  }

  lemma FinishInv(cfg: Config, s: State, w: nat)
    requires Inv(cfg, s) && WellFormed(cfg, s) && w < cfg.nworkers && s.workers[w].pc.Decoding?
    requires s.workers[w].i >= |s.chunks[s.workers[w].idx].inputs|
    ensures Inv(cfg, WorkerStep(cfg, s, w))
  {
    LowDone(cfg, s);
    HeldChunk(cfg, s, w);
    FinishWorker(cfg, w, s.workers[w], Published(cfg, s), Filled(cfg, s), Low(cfg, s));
    WorkerDown(cfg, s, w, s.workers[w].(pc := Checking), s.workers[w].idx);
  }

  lemma FinishWorker(cfg: Config, w: nat, k: Worker, pub: nat, h: nat, low: int)
    requires cfg.Valid() && WorkerInv(cfg, w, k, pub, h, low) && k.pc.Decoding? && k.i >= Count(cfg, k.pos)
    ensures WorkerInv(cfg, w, k.(pc := Checking), pub, h, low)
  {
  }

  /** The input_count a worker reads after signing off chunk `p` is that of chunk `p`, or of its successor at the
      same index if main has been quick: short exactly when that chunk is the last. */
  lemma CheckReads(cfg: Config, s: State, w: nat)
    requires Inv(cfg, s) && w < cfg.nworkers && s.workers[w].pc.Checking?
    ensures s.workers[w].idx < cfg.nchunks
    ensures |s.chunks[s.workers[w].idx].inputs| != cfg.nslots <==>
            s.workers[w].pos == LastChunk(cfg) || StrayAt(cfg, s.workers[w].pos, Filled(cfg, s))
  {
    var k := s.workers[w];
    var h := Filled(cfg, s);
    Bounds(cfg, s);
    assert WorkerInv(cfg, w, k, Published(cfg, s), h, Low(cfg, s));
    var p := if k.pos >= h - cfg.nchunks then k.pos else k.pos + cfg.nchunks;
    assert Idx(cfg, p) == k.idx;
    assert h - cfg.nchunks <= p < h;
    ChunkShape(cfg, p);
  }

  lemma ExitWorker(cfg: Config, w: nat, k: Worker, pub: nat, h: nat, low: int)
    requires cfg.Valid() && WorkerInv(cfg, w, k, pub, h, low) && k.pc.Checking?
    requires k.pos == LastChunk(cfg) || StrayAt(cfg, k.pos, h)
    ensures WorkerInv(cfg, w, k.(pc := Exited), pub, h, low)
  {
  }

  lemma NextWorker(cfg: Config, w: nat, k: Worker, pub: nat, h: nat, low: int)
    requires cfg.Valid() && WorkerInv(cfg, w, k, pub, h, low) && k.pc.Checking? && k.pos < LastChunk(cfg)
    ensures WorkerInv(cfg, w, NextChunk(cfg, k), pub, h, low)
  {
    NextShape(cfg, k);
    NextProgress(cfg, w, k, pub);
  }

  lemma NextShape(cfg: Config, k: Worker)
    requires cfg.Valid() && Shape(cfg, k) && k.pos < LastChunk(cfg) && k.out[k.idx].remaining == 0
    ensures Shape(cfg, NextChunk(cfg, k))
  {
    NextPosition(cfg, k.pos);
  }

  lemma NextProgress(cfg: Config, w: nat, k: Worker, pub: nat)
    requires cfg.Valid() && Shape(cfg, k) && Shape(cfg, NextChunk(cfg, k))
    requires k.pc.Checking? && k.pos < LastChunk(cfg) && Progress(cfg, w, k, pub)
    ensures Progress(cfg, w, NextChunk(cfg, k), pub)
  {
    ChunkShape(cfg, k.pos);
    NextPosition(cfg, k.pos);
    if cfg.nchunks > 1 {
      IdxDistinct(cfg, k.pos, k.pos + 1);
    }
    assert NextChunk(cfg, k).out[NextChunk(cfg, k).idx].remaining == 0;
  }

  lemma CheckInv(cfg: Config, s: State, w: nat)
    requires Inv(cfg, s) && WellFormed(cfg, s) && w < cfg.nworkers && s.workers[w].pc.Checking?
    ensures Inv(cfg, WorkerStep(cfg, s, w))
  {
    var k := s.workers[w];
    CheckReads(cfg, s, w);
    if |s.chunks[k.idx].inputs| != cfg.nslots {
      ExitWorker(cfg, w, k, Published(cfg, s), Filled(cfg, s), Low(cfg, s));
      WorkerAlone(cfg, s, w, k.(pc := Exited));
    } else {
      NextWorker(cfg, w, k, Published(cfg, s), Filled(cfg, s), Low(cfg, s));
      WorkerAlone(cfg, s, w, NextChunk(cfg, k));
    }
  }

  // ----- sigchld_handler() -----

  function Reaped(k: Worker, gen: nat, count: nat): Worker
    requires k.idx < |k.out| && 0 < k.out[k.idx].remaining <= count <= |k.out[k.idx].outputs|
  {
    k.(reaped := true, sigchld := true, startGen := gen, startIdx := k.idx,
       out := k.out[k.idx := MarkCrash(k.out[k.idx], count)])
  }

  /** The slot the handler marks is the one being decoded when the worker died. */
  lemma ReapWorker(cfg: Config, w: nat, k: Worker, pub: nat, h: nat, low: int)
    requires cfg.Valid() && WorkerInv(cfg, w, k, pub, h, low) && k.pc.Crashed? && !k.reaped
    requires h - cfg.nchunks <= low && pub <= h <= LastChunk(cfg) + 1
    ensures FirstBusy(k.out, 0) == Some(k.idx)
    ensures k.out[k.idx].remaining == Count(cfg, k.pos) - k.i
    ensures Count(cfg, k.pos) <= cfg.nslots
    ensures WorkerInv(cfg, w, Reaped(k, k.gen, Count(cfg, k.pos)), pub, h, low)
  {
    ChunkShape(cfg, k.pos);
    var k' := Reaped(k, k.gen, Count(cfg, k.pos));
    assert k'.out[k.idx].outputs == k.out[k.idx].outputs[k.i := k.out[k.idx].outputs[k.i].(status := S_CRASH)];
    assert Shape(cfg, k');
    assert Progress(cfg, w, k', pub);
    SlotWritten(cfg, w, k, k.pos, k.i, k'.out[k.idx], Settled(k'), pub, h);
  }

  lemma ReapCrashInv(cfg: Config, s: State, w: nat)
    requires Inv(cfg, s) && WellFormed(cfg, s) && w < cfg.nworkers && s.workers[w].pc.Crashed? && !s.workers[w].reaped
    ensures Inv(cfg, HandlerStep(cfg, s, w))
  {
    var k := s.workers[w];
    Bounds(cfg, s);
    LowDone(cfg, s);
    HeldChunk(cfg, s, w);
    ReapWorker(cfg, w, k, Published(cfg, s), Filled(cfg, s), Low(cfg, s));
    WorkerDown(cfg, s, w, Reaped(k, k.gen, Count(cfg, k.pos)), k.idx);
  }

  lemma NothingBusy(out: seq<OutChunk>)
    requires forall c :: 0 <= c < |out| ==> out[c].remaining == 0
    ensures FirstBusy(out, 0) == None
  {
  }

  lemma ReapExitWorker(cfg: Config, w: nat, k: Worker, pub: nat, h: nat, low: int)
    requires cfg.Valid() && WorkerInv(cfg, w, k, pub, h, low) && k.pc.Exited?
    ensures WorkerInv(cfg, w, k.(reaped := true), pub, h, low)
    ensures FirstBusy(k.out, 0) == None
  {
    NothingBusy(k.out);
  }

  /** A worker that left in the ordinary way is ignored. */
  lemma ReapExitInv(cfg: Config, s: State, w: nat)
    requires Inv(cfg, s) && WellFormed(cfg, s) && w < cfg.nworkers && s.workers[w].pc.Exited? && !s.workers[w].reaped
    ensures HandlerStep(cfg, s, w) == SetWorker(s, w, s.workers[w].(reaped := true))
    ensures Inv(cfg, HandlerStep(cfg, s, w))
  {
    var k := s.workers[w];
    ReapExitWorker(cfg, w, k, Published(cfg, s), Filled(cfg, s), Low(cfg, s));
    WorkerAlone(cfg, s, w, k.(reaped := true));
  }

  // ----- main() -----

  /** `wait_for` has returned: whoever still owes the chunk has crashed in it and been reaped. */
  lemma AwaitInv(cfg: Config, s: State)
    requires Inv(cfg, s) && WellFormed(cfg, s) && s.pc.AwaitWorkers? && s.chunks[s.idx].remainingWorkers == 0
    ensures Inv(cfg, MainStep(cfg, s))
  {
    var t := s.(pc := Scan(0, false));
    forall w: nat | w < cfg.nworkers
      ensures Done(s.workers[w]) > s.pos - cfg.nchunks || (s.workers[w].sigchld && s.workers[w].pos == s.pos - cfg.nchunks)
    {
      if s.pos >= cfg.nchunks {
        assert Idx(cfg, s.pos - cfg.nchunks) == s.idx;
        assert |Owing(s.workers, s.pos - cfg.nchunks)| == 0;
        assert w !in Owing(s.workers, s.pos - cfg.nchunks);
      }
    }
    assert ScanInv(cfg, t);
    LowDone(cfg, s);
    MainOnlyInv(cfg, s, t);
  }

  lemma WorkersLow(cfg: Config, workers: seq<Worker>, pub: nat, h: nat, low: int, low': int)
    requires cfg.Valid() && WorkersInv(cfg, workers, pub, h, low)
    requires forall w: nat :: w < cfg.nworkers ==> low' <= Done(workers[w])
    ensures WorkersInv(cfg, workers, pub, h, low')
  {
    forall w: nat | w < cfg.nworkers
      ensures WorkerInv(cfg, w, workers[w], pub, h, low')
    {
      assert WorkerInv(cfg, w, workers[w], pub, h, low);
    }
  }

  /** Main moves without touching the ring or its counters. */
  lemma MainOnlyInv(cfg: Config, s: State, t: State)
    requires Inv(cfg, s)
    requires t.chunks == s.chunks && t.workers == s.workers
    requires MainInv(cfg, t) && ScanInv(cfg, t) && LogInv(cfg, t)
    requires Filled(cfg, t) == Filled(cfg, s) && Published(cfg, t) == Published(cfg, s) && Counted(cfg, t) == Counted(cfg, s)
    requires forall w: nat :: w < cfg.nworkers ==> Low(cfg, t) <= Done(s.workers[w])
    ensures Inv(cfg, t)
  {
    WorkersLow(cfg, s.workers, Published(cfg, s), Filled(cfg, s), Low(cfg, s), Low(cfg, t));
    Assemble(cfg, t);
  }

  lemma RestartWorker(cfg: Config, w: nat, k: Worker, pub: nat, h: nat, low: int)
    requires cfg.Valid() && WorkerInv(cfg, w, k, pub, h, low) && k.sigchld
    ensures WorkerInv(cfg, w, Revive(k), pub, h, low)
  {
  }

  /** The worker main restarts is counted again. */
  lemma WorkerUp(cfg: Config, s: State, w: nat, k: Worker, c: nat)
    requires Inv(cfg, s) && w < cfg.nworkers && c < cfg.nchunks && s.pc.Scan? && s.pc.restarted
    requires WorkerInv(cfg, w, k, Published(cfg, s), Filled(cfg, s), Low(cfg, s))
    requires c == s.workers[w].idx && k.pos == s.workers[w].pos < Published(cfg, s)
    requires Done(s.workers[w]) == Done(k) == k.pos && s.workers[w].sigchld && !k.sigchld
    ensures Inv(cfg, AddRemaining(SetWorker(s, w, k), c, U32(s.chunks[c].remainingWorkers + 1)))
  {
    Bounds(cfg, s);
    LowDone(cfg, s);
    CounterIndex(cfg, s, w);
    assert w !in Owing(s.workers, k.pos);
    assert w in Owing(s.workers[w := k], k.pos);
    CountersUp(cfg, s, w, k, k.pos, Counted(cfg, s));
    WorkerFrame(cfg, s, w, k, AddRemaining(SetWorker(s, w, k), c, U32(s.chunks[c].remainingWorkers + 1)));
  }

  lemma RestartScanned(cfg: Config, s: State, w: nat)
    requires Inv(cfg, s) && s.pc.Scan? && s.pc.restarted && w < cfg.nworkers && s.workers[w].sigchld
    requires s.workers[w].startIdx < cfg.nchunks
    ensures Inv(cfg, Restart(s, w))
  {
    var k := Revive(s.workers[w]);
    var c := s.workers[w].startIdx;
    RestartedWorker(cfg, s, w);
    WorkerUp(cfg, s, w, k, c);
    assert Restart(s, w) == AddRemaining(SetWorker(s, w, k), c, U32(s.chunks[c].remainingWorkers + 1));
  }

  lemma RestartInv(cfg: Config, s: State)
    requires Inv(cfg, s) && s.pc.Scan? && s.pc.next < cfg.nworkers && s.workers[s.pc.next].sigchld
    requires s.workers[s.pc.next].startIdx < cfg.nchunks
    ensures Inv(cfg, Restart(s, s.pc.next).(pc := Scan(s.pc.next + 1, true)))
  {
    var w := s.pc.next;
    var on := s.(pc := Scan(w + 1, true));
    ScanOn(cfg, s);
    RestartScanned(cfg, on, w);
    RestartThenScan(s, w, on.pc);
  }

  lemma RestartThenScan(s: State, w: nat, pc: MainPc)
    requires w < |s.workers| && s.workers[w].startIdx < |s.chunks|
    ensures Restart(s.(pc := pc), w) == Restart(s, w).(pc := pc)
  {
  }

  lemma ScanOn(cfg: Config, s: State)
    requires Inv(cfg, s) && s.pc.Scan? && s.pc.next < cfg.nworkers
    ensures Inv(cfg, s.(pc := Scan(s.pc.next + 1, true)))
  {
    LowDone(cfg, s);
    MainOnlyInv(cfg, s, s.(pc := Scan(s.pc.next + 1, true)));
  }

  lemma RestartedWorker(cfg: Config, s: State, w: nat)
    requires Inv(cfg, s) && w < cfg.nworkers && s.workers[w].sigchld
    ensures s.workers[w].startIdx == s.workers[w].idx
    ensures s.workers[w].pc.Crashed? && s.workers[w].pos < Published(cfg, s)
    ensures WorkerInv(cfg, w, Revive(s.workers[w]), Published(cfg, s), Filled(cfg, s), Low(cfg, s))
  {
    LowDone(cfg, s);
    RestartWorker(cfg, w, s.workers[w], Published(cfg, s), Filled(cfg, s), Low(cfg, s));
  }

  lemma SkipMain(cfg: Config, s: State, t: State)
    requires cfg.Valid() && MainInv(cfg, s) && LogInv(cfg, s) && |s.workers| == cfg.nworkers && ScanInv(cfg, s)
    requires s.pc.Scan? && s.pc.next < cfg.nworkers && !s.workers[s.pc.next].sigchld
    requires t == s.(pc := Scan(s.pc.next + 1, s.pc.restarted))
    ensures MainInv(cfg, t) && LogInv(cfg, t) && ScanInv(cfg, t)
  {
  }

  lemma SkipInv(cfg: Config, s: State)
    requires Inv(cfg, s) && s.pc.Scan? && s.pc.next < cfg.nworkers && !s.workers[s.pc.next].sigchld
    ensures Inv(cfg, s.(pc := Scan(s.pc.next + 1, s.pc.restarted)))
  {
    SkipMain(cfg, s, s.(pc := Scan(s.pc.next + 1, s.pc.restarted)));
    LowDone(cfg, s);
    MainOnlyInv(cfg, s, s.(pc := Scan(s.pc.next + 1, s.pc.restarted)));
  }

  lemma WaitAgainInv(cfg: Config, s: State)
    requires Inv(cfg, s) && WellFormed(cfg, s) && s.pc.Scan? && s.pc.next >= cfg.nworkers && s.pc.restarted
    ensures Inv(cfg, MainStep(cfg, s))
  {
    LowDone(cfg, s);
    MainOnlyInv(cfg, s, MainStep(cfg, s));
  }

  /** After a scan that restarted nobody, every worker has signed off the chunk main waited for. */
  lemma ScanDone(cfg: Config, s: State)
    requires Inv(cfg, s) && s.pc.Scan? && s.pc.next >= cfg.nworkers && !s.pc.restarted
    ensures forall w: nat :: w < cfg.nworkers ==> Done(s.workers[w]) > s.pos - cfg.nchunks
  {
  }

  lemma StartProcessInv(cfg: Config, s: State)
    requires Inv(cfg, s) && WellFormed(cfg, s) && s.pc.Scan? && s.pc.next >= cfg.nworkers && !s.pc.restarted && s.gen > 1
    ensures Inv(cfg, MainStep(cfg, s))
  {
    ScanDone(cfg, s);
    MainOnlyInv(cfg, s, MainStep(cfg, s));
  }

  lemma SettledPast(cfg: Config, w: nat, k: Worker, pub: nat, h: nat, low: int, p: nat)
    requires cfg.Valid() && WorkerInv(cfg, w, k, pub, h, low) && p < Done(k)
    ensures Settled(k) >= Before(cfg, p) + Count(cfg, p)
  {
    ChunkShape(cfg, p);
    if p < k.pos {
      BeforeMonotone(cfg, p + 1, k.pos);
    }
  }

  /** After main's wait, every worker's answer for every slot of the chunk is in place. */
  lemma AnswerInPlace(cfg: Config, w: nat, k: Worker, pub: nat, h: nat, low: int, p: nat, i: nat)
    requires cfg.Valid() && WorkerInv(cfg, w, k, pub, h, low)
    requires p < Done(k) && h - cfg.nchunks <= p < pub && p <= LastChunk(cfg) && i < Count(cfg, p)
    ensures |k.out| == cfg.nchunks && |k.out[Idx(cfg, p)].outputs| == cfg.nslots && i < cfg.nslots
    ensures Before(cfg, p) + i < |cfg.inputs|
    ensures k.out[Idx(cfg, p)].outputs[i] == Answer(cfg, w, Before(cfg, p) + i)
  {
    SettledPast(cfg, w, k, pub, h, low, p);
    ChunkShape(cfg, p);
    assert Answered(cfg, w, k.out[Idx(cfg, p)].outputs, p, Settled(k));
  }

  /** What main hands to `process` is the record of the sequential program. */
  lemma RecordIsSequential(cfg: Config, s: State)
    requires Inv(cfg, s) && WellFormed(cfg, s) && s.pc.Process? && s.pc.next < |s.chunks[s.idx].inputs|
    ensures s.pos >= cfg.nchunks && Idx(cfg, s.pos - cfg.nchunks) == s.idx
    ensures Carries(cfg, s.chunks[s.idx].inputs, s.pos - cfg.nchunks)
    ensures Logged(cfg, s) < |cfg.inputs|
    ensures RecordAt(s, s.idx, s.pc.next) == SequentialRecord(cfg, Logged(cfg, s))
  {
    ProcessedChunk(cfg, s);
    forall w: nat | w < cfg.nworkers
      ensures s.workers[w].out[s.idx].outputs[s.pc.next] == Answer(cfg, w, Logged(cfg, s))
    {
      AnswerOfWorker(cfg, s, w);
    }
    assert RecordAt(s, s.idx, s.pc.next).outputs == SequentialRecord(cfg, Logged(cfg, s)).outputs;
  }

  lemma AnswerOfWorker(cfg: Config, s: State, w: nat)
    requires Inv(cfg, s) && s.pc.Process? && s.pos >= cfg.nchunks && s.pc.next < Count(cfg, s.pos - cfg.nchunks)
    requires w < cfg.nworkers
    ensures |s.workers[w].out| == cfg.nchunks && |s.workers[w].out[s.idx].outputs| == cfg.nslots
    ensures s.pc.next < cfg.nslots && Logged(cfg, s) < |cfg.inputs|
    ensures s.workers[w].out[s.idx].outputs[s.pc.next] == Answer(cfg, w, Logged(cfg, s))
  {
    Bounds(cfg, s);
    LowDone(cfg, s);
    assert Idx(cfg, s.pos - cfg.nchunks) == s.idx;
    AnswerInPlace(cfg, w, s.workers[w], Published(cfg, s), Filled(cfg, s), Low(cfg, s), s.pos - cfg.nchunks, s.pc.next);
  }

  lemma ProcessMain(cfg: Config, s: State, t: State)
    requires cfg.Valid() && MainInv(cfg, s) && LogInv(cfg, s) && s.pc.Process? && s.pc.next < Count(cfg, s.pos - cfg.nchunks)
    requires Logged(cfg, s) < |cfg.inputs|
    requires t == s.(pc := Process(s.pc.next + 1), log := s.log + [SequentialRecord(cfg, Logged(cfg, s))])
    ensures MainInv(cfg, t) && LogInv(cfg, t)
  {
  }

  lemma ProcessInv(cfg: Config, s: State)
    requires Inv(cfg, s) && WellFormed(cfg, s) && s.pc.Process? && s.pc.next < |s.chunks[s.idx].inputs|
    ensures Inv(cfg, s.(pc := Process(s.pc.next + 1), log := s.log + [RecordAt(s, s.idx, s.pc.next)]))
  {
    RecordIsSequential(cfg, s);
    var t := s.(pc := Process(s.pc.next + 1), log := s.log + [RecordAt(s, s.idx, s.pc.next)]);
    ProcessMain(cfg, s, t);
    LowDone(cfg, s);
    MainOnlyInv(cfg, s, t);
  }

  /** Main leaves the loop exactly when it is back at the short chunk, one lap after filling it. */
  lemma ExitTest(cfg: Config, s: State)
    requires cfg.Valid() && MainInv(cfg, s) && (s.pc.Scan? || s.pc.Process?)
    ensures s.idx == s.exitIdx <==> s.pos == LastChunk(cfg) + cfg.nchunks
    ensures s.exitIdx == cfg.nchunks <==> s.pos <= LastChunk(cfg)
  {
    if LastChunk(cfg) < s.pos < LastChunk(cfg) + cfg.nchunks {
      IdxDistinct(cfg, LastChunk(cfg), s.pos);
    }
  }

  lemma AfterScan(cfg: Config, s: State, t: State)
    requires cfg.Valid() && MainInv(cfg, s) && LogInv(cfg, s) && s.pc.Scan? && s.gen <= 1
    requires t == AfterProcess(cfg, s)
    ensures MainInv(cfg, t) && LogInv(cfg, t) && Filled(cfg, t) == Filled(cfg, s)
    ensures Published(cfg, t) == Published(cfg, s) && Counted(cfg, t) == Counted(cfg, s)
  {
    ExitTest(cfg, s);
  }

  lemma AfterChunk(cfg: Config, s: State, t: State)
    requires cfg.Valid() && MainInv(cfg, s) && LogInv(cfg, s) && s.pc.Process? && s.pc.next >= Count(cfg, s.pos - cfg.nchunks)
    requires t == AfterProcess(cfg, s)
    ensures MainInv(cfg, t) && LogInv(cfg, t) && Filled(cfg, t) == Filled(cfg, s)
    ensures Published(cfg, t) == Published(cfg, s) && Counted(cfg, t) == Counted(cfg, s)
  {
    ExitTest(cfg, s);
    ChunkShape(cfg, s.pos - cfg.nchunks);
  }

  lemma AfterProcessInv(cfg: Config, s: State)
    requires Inv(cfg, s) && WellFormed(cfg, s)
    requires || (s.pc.Scan? && s.pc.next >= cfg.nworkers && !s.pc.restarted && s.gen <= 1)
             || (s.pc.Process? && s.pc.next >= |s.chunks[s.idx].inputs|)
    ensures Inv(cfg, AfterProcess(cfg, s))
  {
    var t := AfterProcess(cfg, s);
    LowDone(cfg, s);
    if s.pc.Scan? {
      ScanDone(cfg, s);
      AfterScan(cfg, s, t);
    } else {
      ProcessedChunk(cfg, s);
      AfterChunk(cfg, s, t);
    }
    MainOnlyInv(cfg, s, t);
  }

  /** The chunk main processes is the one it filled a lap ago. */
  lemma ProcessedChunk(cfg: Config, s: State)
    requires Inv(cfg, s) && s.pc.Process?
    ensures s.pos >= cfg.nchunks && Idx(cfg, s.pos - cfg.nchunks) == s.idx
    ensures Carries(cfg, s.chunks[s.idx].inputs, s.pos - cfg.nchunks)
  {
    Bounds(cfg, s);
    assert Idx(cfg, s.pos - cfg.nchunks) == s.idx;
  }

  lemma FillChunks(cfg: Config, chunks: seq<Chunk>, p: nat)
    requires cfg.Valid() && ChunksInv(cfg, chunks, p, p)
    ensures ChunksInv(cfg, chunks[Idx(cfg, p) := chunks[Idx(cfg, p)].(inputs := Batch(cfg, Before(cfg, p)))], p + 1, p)
  {
    BatchCarries(cfg, p);
    IdxWindow(cfg, p);
  }

  lemma FillWorker(cfg: Config, w: nat, k: Worker, p: nat, low: int)
    requires cfg.Valid() && p <= LastChunk(cfg) && WorkerInv(cfg, w, k, p, p, low)
    ensures WorkerInv(cfg, w, k, p, p + 1, low)
  {
  }

  lemma FillWorkers(cfg: Config, workers: seq<Worker>, p: nat, low: int)
    requires cfg.Valid() && WorkersInv(cfg, workers, p, p, low) && p <= LastChunk(cfg)
    ensures WorkersInv(cfg, workers, p, p + 1, low)
  {
    forall w: nat | w < cfg.nworkers
      ensures WorkerInv(cfg, w, workers[w], p, p + 1, low)
    {
      FillWorker(cfg, w, workers[w], p, low);
    }
  }

  /** The mutator runs dry exactly on the last chunk. */
  lemma FillMain(cfg: Config, s: State, t: State)
    requires cfg.Valid() && MainInv(cfg, s) && LogInv(cfg, s) && s.pc.Fill? && s.fed <= |cfg.inputs|
    requires t == s.(pc := StoreWorkers, fed := s.fed + |Batch(cfg, s.fed)|,
                     exitIdx := if |Batch(cfg, s.fed)| < cfg.nslots then s.idx else s.exitIdx, chunks := t.chunks)
    ensures MainInv(cfg, t) && LogInv(cfg, t)
  {
    ChunkShape(cfg, s.pos);
  }

  /** Before and after a fill, the counters are all the number of the chunk that is filled, but for `Filled` behind it. */
  lemma FillPlaces(cfg: Config, s: State, t: State)
    requires cfg.Valid() && MainInv(cfg, s) && s.pc.Fill? && t.pc.StoreWorkers? && t.pos == s.pos
    ensures Filled(cfg, s) == Published(cfg, s) == Counted(cfg, s) == s.pos <= LastChunk(cfg)
    ensures Filled(cfg, t) == s.pos + 1 && Published(cfg, t) == Counted(cfg, t) == s.pos && Low(cfg, t) == Low(cfg, s)
    ensures s.fed == Before(cfg, s.pos) && s.idx == Idx(cfg, s.pos)
  {
  }

  lemma FillParts(cfg: Config, s: State, t: State, p: nat, low: int)
    requires Inv(cfg, s) && WellFormed(cfg, s) && s.pc.Fill? && t == FillStep(cfg, s)
    requires p == s.pos && low == Low(cfg, s)
    ensures MainInv(cfg, t) && LogInv(cfg, t) && ScanInv(cfg, t)
    ensures ChunksInv(cfg, t.chunks, p + 1, p) && WorkersInv(cfg, t.workers, p, p + 1, low)
    ensures CountersInv(cfg, t.chunks, t.workers, p)
  {
    FillPlaces(cfg, s, t);
    FillMain(cfg, s, t);
    FillChunks(cfg, s.chunks, p);
    FillWorkers(cfg, s.workers, p, low);
    FillCounters(cfg, s.chunks, t.chunks, s.workers, p);
  }

  lemma FillInv(cfg: Config, s: State)
    requires Inv(cfg, s) && WellFormed(cfg, s) && s.pc.Fill?
    ensures Inv(cfg, FillStep(cfg, s))
  {
    var t := FillStep(cfg, s);
    FillPlaces(cfg, s, t);
    FillParts(cfg, s, t, s.pos, Low(cfg, s));
    AssembleAt(cfg, t, s.pos + 1, s.pos, s.pos, Low(cfg, s));
  }

  lemma FillCounters(cfg: Config, a: seq<Chunk>, b: seq<Chunk>, workers: seq<Worker>, counted: nat)
    requires cfg.Valid() && |a| == |b| == cfg.nchunks && CountersInv(cfg, a, workers, counted)
    requires forall c: nat :: c < cfg.nchunks ==> b[c].remainingWorkers == a[c].remainingWorkers
    ensures CountersInv(cfg, b, workers, counted)
  {
  }

  lemma StoreWorkersCounters(cfg: Config, chunks: seq<Chunk>, workers: seq<Worker>, p: nat)
    requires cfg.Valid() && |chunks| == cfg.nchunks && CountersInv(cfg, chunks, workers, p)
    requires |Owing(workers, p)| == cfg.nworkers
    ensures CountersInv(cfg, chunks[Idx(cfg, p) := chunks[Idx(cfg, p)].(remainingWorkers := cfg.nworkers)], workers, p + 1)
  {
    IdxWindow(cfg, p);
  }

  lemma StoreWorkersInv(cfg: Config, s: State)
    requires Inv(cfg, s) && s.pc.StoreWorkers?
    ensures Inv(cfg, AddRemaining(s, s.idx, cfg.nworkers).(pc := StoreGeneration))
  {
    var t := AddRemaining(s, s.idx, cfg.nworkers).(pc := StoreGeneration);
    AllOwe(cfg, s);
    StoreWorkersCounters(cfg, s.chunks, s.workers, s.pos);
    ChunksKept(cfg, s.chunks, t.chunks, Filled(cfg, s), Published(cfg, s));
    StoreWorkersMain(cfg, s, t);
    Assemble(cfg, t);
  }

  lemma StoreWorkersMain(cfg: Config, s: State, t: State)
    requires cfg.Valid() && MainInv(cfg, s) && LogInv(cfg, s) && s.pc.StoreWorkers?
    requires t == s.(pc := StoreGeneration, chunks := t.chunks)
    ensures MainInv(cfg, t) && LogInv(cfg, t)
  {
  }

  /** No worker has begun, let alone finished, a chunk that is not published. */
  lemma AllOwe(cfg: Config, s: State)
    requires Inv(cfg, s) && s.pc.StoreWorkers?
    ensures |Owing(s.workers, s.pos)| == cfg.nworkers
  {
    LowDone(cfg, s);
    OwingAll(cfg, s, s.pos);
  }

  lemma StoreGenerationChunks(cfg: Config, chunks: seq<Chunk>, p: nat)
    requires cfg.Valid() && ChunksInv(cfg, chunks, p + 1, p)
    ensures ChunksInv(cfg, chunks[Idx(cfg, p) := chunks[Idx(cfg, p)].(generation := U32(Gen(cfg, p)))], p + 1, p + 1)
  {
    IdxWindow(cfg, p);
  }

  /** Nothing of a chunk is attempted before it is published. */
  lemma PublishWorker(cfg: Config, w: nat, k: Worker, p: nat, low: int)
    requires cfg.Valid() && p <= LastChunk(cfg) && WorkerInv(cfg, w, k, p, p + 1, low)
    ensures WorkerInv(cfg, w, k, p + 1, p + 1, low)
  {
    TriedBefore(cfg, w, k, p);
    PublishAnswers(cfg, w, k, p);
  }

  lemma PublishAnswers(cfg: Config, w: nat, k: Worker, p: nat)
    requires cfg.Valid() && Shape(cfg, k) && Settled(k) <= Before(cfg, p)
    requires forall q: nat {:trigger k.out[Idx(cfg, q)]} ::
               p + 1 - cfg.nchunks <= q < p ==> Answered(cfg, w, k.out[Idx(cfg, q)].outputs, q, Settled(k))
    ensures forall q: nat {:trigger k.out[Idx(cfg, q)]} ::
              p + 1 - cfg.nchunks <= q < p + 1 ==> Answered(cfg, w, k.out[Idx(cfg, q)].outputs, q, Settled(k))
  {
  }

  /** A worker has tried nothing of a chunk that is not published. */
  lemma TriedBefore(cfg: Config, w: nat, k: Worker, p: nat)
    requires cfg.Valid() && Shape(cfg, k) && Progress(cfg, w, k, p) && p <= LastChunk(cfg) && Done(k) <= p
    ensures Settled(k) <= |k.tried| <= Before(cfg, p)
  {
    ChunkShape(cfg, k.pos);
    if k.pos < p {
      BeforeMonotone(cfg, k.pos + 1, p);
    }
  }

  lemma PublishWorkers(cfg: Config, workers: seq<Worker>, p: nat, low: int)
    requires cfg.Valid() && WorkersInv(cfg, workers, p, p + 1, low) && p <= LastChunk(cfg)
    ensures WorkersInv(cfg, workers, p + 1, p + 1, low)
  {
    forall w: nat | w < cfg.nworkers
      ensures WorkerInv(cfg, w, workers[w], p + 1, p + 1, low)
    {
      PublishWorker(cfg, w, workers[w], p, low);
    }
  }

  lemma StoreGenerationMain(cfg: Config, s: State, t: State)
    requires cfg.Valid() && MainInv(cfg, s) && LogInv(cfg, s) && s.pc.StoreGeneration?
    requires t == s.(pc := Advance, chunks := t.chunks)
    ensures MainInv(cfg, t) && LogInv(cfg, t)
  {
  }

  lemma PublishPlaces(cfg: Config, s: State, t: State)
    requires cfg.Valid() && MainInv(cfg, s) && s.pc.StoreGeneration? && t.pc.Advance? && t.pos == s.pos
    ensures Filled(cfg, s) == Counted(cfg, s) == s.pos + 1 && Published(cfg, s) == s.pos <= LastChunk(cfg)
    ensures Filled(cfg, t) == Counted(cfg, t) == Published(cfg, t) == s.pos + 1 && Low(cfg, t) == Low(cfg, s)
    ensures s.idx == Idx(cfg, s.pos) && s.gen == Gen(cfg, s.pos)
  {
  }

  lemma StoreGenerationInv(cfg: Config, s: State)
    requires Inv(cfg, s) && s.pc.StoreGeneration?
    ensures Inv(cfg, s.(pc := Advance, chunks := s.chunks[s.idx := s.chunks[s.idx].(generation := U32(s.gen))]))
  {
    var t := s.(pc := Advance, chunks := s.chunks[s.idx := s.chunks[s.idx].(generation := U32(s.gen))]);
    PublishPlaces(cfg, s, t);
    StoreGenerationMain(cfg, s, t);
    StoreGenerationChunks(cfg, s.chunks, s.pos);
    PublishWorkers(cfg, s.workers, s.pos, Low(cfg, s));
    FillCounters(cfg, s.chunks, t.chunks, s.workers, s.pos + 1);
    AssembleAt(cfg, t, s.pos + 1, s.pos + 1, s.pos + 1, Low(cfg, s));
  }

  lemma AdvanceMain(cfg: Config, s: State, t: State)
    requires cfg.Valid() && MainInv(cfg, s) && LogInv(cfg, s) && s.pc.Advance? && t == AdvanceStep(cfg, s)
    ensures MainInv(cfg, t) && LogInv(cfg, t) && Filled(cfg, t) == Filled(cfg, s)
    ensures Published(cfg, t) == Published(cfg, s) && Counted(cfg, t) == Counted(cfg, s) && Low(cfg, t) == Low(cfg, s)
  {
    NextPosition(cfg, s.pos);
  }

  lemma AdvanceInv(cfg: Config, s: State)
    requires Inv(cfg, s) && s.pc.Advance?
    ensures Inv(cfg, AdvanceStep(cfg, s))
  {
    AdvanceMain(cfg, s, AdvanceStep(cfg, s));
    LowDone(cfg, s);
    MainOnlyInv(cfg, s, AdvanceStep(cfg, s));
  }

  lemma ScanNextInv(cfg: Config, s: State)
    requires Inv(cfg, s) && WellFormed(cfg, s) && s.pc.Scan? && s.pc.next < cfg.nworkers
    ensures Inv(cfg, MainStep(cfg, s))
  {
    if s.workers[s.pc.next].sigchld {
      assert MainStep(cfg, s) == Restart(s, s.pc.next).(pc := Scan(s.pc.next + 1, true));
      RestartInv(cfg, s);
    } else {
      assert MainStep(cfg, s) == s.(pc := Scan(s.pc.next + 1, s.pc.restarted));
      SkipInv(cfg, s);
    }
  }

  lemma ScanEndInv(cfg: Config, s: State)
    requires Inv(cfg, s) && WellFormed(cfg, s) && s.pc.Scan? && s.pc.next >= cfg.nworkers
    ensures Inv(cfg, MainStep(cfg, s))
  {
    if s.pc.restarted {
      WaitAgainInv(cfg, s);
    } else if s.gen > 1 {
      StartProcessInv(cfg, s);
    } else {
      AfterProcessInv(cfg, s);
    }
  }

  lemma ScanStepInv(cfg: Config, s: State)
    requires Inv(cfg, s) && WellFormed(cfg, s) && s.pc.Scan?
    ensures Inv(cfg, MainStep(cfg, s))
  {
    if s.pc.next < cfg.nworkers {
      ScanNextInv(cfg, s);
    } else {
      ScanEndInv(cfg, s);
    }
  }

  /** The three stores behind a refill, and the step to the next index. */
  lemma RefillStepInv(cfg: Config, s: State)
    requires Inv(cfg, s) && WellFormed(cfg, s)
    requires s.pc.Fill? || s.pc.StoreWorkers? || s.pc.StoreGeneration? || s.pc.Advance?
    ensures Inv(cfg, MainStep(cfg, s))
  {
    match s.pc
    case Fill => FillInv(cfg, s);
    case StoreWorkers => StoreWorkersInv(cfg, s);
    case StoreGeneration => StoreGenerationInv(cfg, s);
    case Advance => AdvanceInv(cfg, s);
  }

  lemma ProcessStepInv(cfg: Config, s: State)
    requires Inv(cfg, s) && WellFormed(cfg, s) && s.pc.Process?
    ensures Inv(cfg, MainStep(cfg, s))
  {
    if s.pc.next < |s.chunks[s.idx].inputs| {
      ProcessInv(cfg, s);
      assert MainStep(cfg, s) == s.(pc := Process(s.pc.next + 1), log := s.log + [RecordAt(s, s.idx, s.pc.next)]);
    } else {
      AfterProcessInv(cfg, s);
      assert MainStep(cfg, s) == AfterProcess(cfg, s);
    }
  }

  lemma MainStepInv(cfg: Config, s: State)
    requires Inv(cfg, s) && WellFormed(cfg, s)
    ensures Inv(cfg, MainStep(cfg, s))
  {
    match s.pc
    case AwaitWorkers =>
      if s.chunks[s.idx].remainingWorkers == 0 {
        AwaitInv(cfg, s);
      }
    case Scan(_, _) => ScanStepInv(cfg, s);
    case Process(_) => ProcessStepInv(cfg, s);
    case Finished =>
    case _ => RefillStepInv(cfg, s);
  }

  lemma WorkerStepInv(cfg: Config, s: State, w: nat)
    requires Inv(cfg, s) && WellFormed(cfg, s) && w < cfg.nworkers
    ensures Inv(cfg, WorkerStep(cfg, s, w))
  {
    var k := s.workers[w];
    match k.pc
    case Waiting =>
      if s.chunks[k.idx].generation == k.gen { BeginInv(cfg, s, w); }
    case Decoding =>
      if k.i < |s.chunks[k.idx].inputs| { DecodeInv(cfg, s, w); } else { FinishInv(cfg, s, w); }
    case Checking => CheckInv(cfg, s, w);
    case Exited =>
    case Crashed =>
  }

  lemma HandlerStepInv(cfg: Config, s: State, w: nat)
    requires Inv(cfg, s) && WellFormed(cfg, s) && w < cfg.nworkers
    ensures Inv(cfg, HandlerStep(cfg, s, w))
  {
    var k := s.workers[w];
    if k.pc.Crashed? && !k.reaped {
      ReapCrashInv(cfg, s, w);
    } else if k.pc.Exited? && !k.reaped {
      ReapExitInv(cfg, s, w);
    }
  }

  lemma NextInv(cfg: Config, s: State, e: Event)
    requires Inv(cfg, s) && WellFormed(cfg, s)
    ensures Inv(cfg, Next(cfg, s, e))
  {
    match e
    case MainMoves => MainStepInv(cfg, s);
    case WorkerMoves(w) => if w < cfg.nworkers { WorkerStepInv(cfg, s, w); }
    case HandlerReaps(w) => if w < cfg.nworkers { HandlerStepInv(cfg, s, w); }
  }
}
