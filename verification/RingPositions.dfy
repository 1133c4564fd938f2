/** Positions in the chunk ring.

The chunks that main fills are numbered 0, 1, 2, ... in filling order; number `p` lives at ring index
`Idx(p)` and carries generation `Gen(p)`.  Both are defined lap by lap, so that no proof about the ring
needs multiplication; `PositionFormula` gives the closed form.
 */
module RingPositions {
  import opened Common

  /** What one call of `try_decode` does: it fills the slot, or the process dies leaving the slot half written. */
  datatype Outcome = Decoded(out: OutputSlot) | Died(partial: OutputSlot)

  /** `decode(w, t, input)` is the outcome of worker `w`'s call number `t`. */
  datatype Config = Config(
    nworkers: nat,
    nchunks: nat,
    nslots: nat,
    inputs: seq<InputSlot>,
    decode: (nat, nat, InputSlot) -> Outcome)
  {
    ghost predicate Valid() {
      && nworkers <= MAX_NWORKERS
      && 0 < nchunks
      && 0 < nslots < U32_MOD
    }
  }

  function Idx(cfg: Config, p: nat): (c: nat)
    requires cfg.nchunks > 0
    ensures c < cfg.nchunks
    decreases p
  {
    if p < cfg.nchunks then p else Idx(cfg, p - cfg.nchunks)
  }

  function Gen(cfg: Config, p: nat): (g: nat)
    requires cfg.nchunks > 0
    ensures g > 0 && (g == 1 <==> p < cfg.nchunks)
    decreases p
  {
    if p < cfg.nchunks then 1 else Gen(cfg, p - cfg.nchunks) + 1
  }

  /** How many inputs lie in front of chunk `p`. */
  function Start(cfg: Config, p: nat): nat {
    if p == 0 then 0 else Start(cfg, p - 1) + cfg.nslots
  }

  /** The number of full chunks in a stream of `n` inputs. */
  function FullChunks(cfg: Config, n: nat): nat
    requires cfg.nslots > 0
  {
    if n < cfg.nslots then 0 else FullChunks(cfg, n - cfg.nslots) + 1
  }

  lemma {:induction false} FullChunksBounds(cfg: Config, n: nat)
    requires cfg.nslots > 0
    ensures Start(cfg, FullChunks(cfg, n)) <= n < Start(cfg, FullChunks(cfg, n)) + cfg.nslots
    decreases n
  {
    if n >= cfg.nslots {
      FullChunksBounds(cfg, n - cfg.nslots);
    }
  }

  lemma {:induction false} PositionFormula(cfg: Config, p: nat)
    requires cfg.nchunks > 0
    ensures p == (Gen(cfg, p) - 1) * cfg.nchunks + Idx(cfg, p)
    decreases p
  {
    if p >= cfg.nchunks {
      PositionFormula(cfg, p - cfg.nchunks);
      assert (Gen(cfg, p) - 1) * cfg.nchunks == (Gen(cfg, p - cfg.nchunks) - 1) * cfg.nchunks + cfg.nchunks;
    }
  }

  /** The step both main and the workers take: next index, and next generation after the last index. */
  lemma {:induction false} NextPosition(cfg: Config, p: nat)
    requires cfg.nchunks > 0
    ensures Idx(cfg, p + 1) == if Idx(cfg, p) + 1 == cfg.nchunks then 0 else Idx(cfg, p) + 1
    ensures Gen(cfg, p + 1) == if Idx(cfg, p) + 1 == cfg.nchunks then Gen(cfg, p) + 1 else Gen(cfg, p)
    decreases p
  {
    if p >= cfg.nchunks {
      NextPosition(cfg, p - cfg.nchunks);
    }
  }

  lemma {:induction false} IdxDistinct(cfg: Config, p: nat, q: nat)
    requires cfg.nchunks > 0
    requires p < q < p + cfg.nchunks
    ensures Idx(cfg, p) != Idx(cfg, q)
    decreases p
  {
    if p >= cfg.nchunks {
      IdxDistinct(cfg, p - cfg.nchunks, q - cfg.nchunks);
    }
  }

  /** Less than one lap apart, two different chunk numbers live at different indices. */
  lemma IdxWindow(cfg: Config, p: nat)
    requires cfg.nchunks > 0
    ensures forall q: nat :: p - cfg.nchunks < q < p + cfg.nchunks && q != p ==> Idx(cfg, q) != Idx(cfg, p)
  {
    forall q: nat | p - cfg.nchunks < q < p + cfg.nchunks && q != p
      ensures Idx(cfg, q) != Idx(cfg, p)
    {
      if q < p {
        IdxDistinct(cfg, q, p);
      } else {
        IdxDistinct(cfg, p, q);
      }
    }
  }

  /** Among any lap of chunk numbers below `h`, exactly one lives at index `c`. */
  lemma {:induction false} Holder(cfg: Config, h: nat, c: nat) returns (p: nat)
    requires c < cfg.nchunks && c < h
    ensures h - cfg.nchunks <= p < h && Idx(cfg, p) == c
    decreases h
  {
    if h <= cfg.nchunks {
      p := c;
    } else if c < h - cfg.nchunks {
      p := Holder(cfg, h - cfg.nchunks, c);
      p := p + cfg.nchunks;
    } else {
      p := c;
    }
  }

  lemma {:induction false} StartIsMultiple(cfg: Config, p: nat)
    ensures Start(cfg, p) == p * cfg.nslots
  {
    if p > 0 {
      StartIsMultiple(cfg, p - 1);
      assert p * cfg.nslots == (p - 1) * cfg.nslots + cfg.nslots;
    }
  }

  lemma {:induction false} StartMonotone(cfg: Config, p: nat, q: nat)
    requires p < q
    ensures Start(cfg, p) + cfg.nslots <= Start(cfg, q)
    decreases q
  {
    if p + 1 < q {
      StartMonotone(cfg, p, q - 1);
    }
  }
}
