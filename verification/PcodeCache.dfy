/** The p-code cacher: a pool of varnodes that moves when it grows, and label references patched at the end.

Pointers are addresses counted in varnodes, 0 being null, and the memory allocator picks the address of each new
pool.  The abstraction `Contents` forgets addresses: it is what an array that never moves would hold.
 */
module PcodeCache {
  import opened Arithmetic
  import opened Common

  const UNPLACED: nat := 0xbadbeef
  const INITIAL_POOL: nat := 600
  const LEAST_INCREASE: nat := 100

  datatype VarnodeData = VarnodeData(space: nat, offset: nat, size: nat)

  datatype PcodeData = PcodeData(opc: nat, outvar: int, invar: int, isize: int)

  datatype RelativeRecord = RelativeRecord(dataptr: int, callingIndex: nat)

  // ----- the cacher without addresses -----

  datatype Operation = Operation(opc: nat, outvar: Option<nat>, invar: Option<nat>, isize: int)

  datatype Reference = Reference(varnode: nat, callingIndex: nat)

  datatype Contents = Contents(vars: seq<VarnodeData>, ops: seq<Operation>, refs: seq<Reference>, labels: seq<nat>)

  /** `addLabel`: pad with the marker, then store the index of the next operation. */
  function PlaceLabel(labels: seq<nat>, id: nat, index: nat): (r: seq<nat>)
    ensures |r| > id && |r| >= |labels|
    decreases id - |labels|
  {
    if |labels| <= id then PlaceLabel(labels + [UNPLACED], id, index) else labels[id := index]
  }

  predicate Placed(labels: seq<nat>, id: nat) {
    id < |labels| && labels[id] != UNPLACED
  }

  /** 256 to the power of the width, as `calc_mask` plus one; eight bytes and more are all of a `uintb`. */
  function Modulus(size: nat): (m: nat)
    ensures m > 0
  {
    if size == 0 then 1
    else if size == 1 then 0x100
    else if size == 2 then 0x1_0000
    else if size == 3 then 0x100_0000
    else if size == 4 then 0x1_0000_0000
    else if size == 5 then 0x100_0000_0000
    else if size == 6 then 0x1_0000_0000_0000
    else if size == 7 then 0x100_0000_0000_0000
    else 0x1_0000_0000_0000_0000
  }

  /** `(target - from) & calc_mask(size)` in 64-bit arithmetic. */
  function Relative(target: nat, from: nat, size: nat): (r: nat)
    ensures r < Modulus(size)
  {
    ((target - from) % 0x1_0000_0000_0000_0000) % Modulus(size)
  }

  predicate RefsInRange(vars: seq<VarnodeData>, refs: seq<Reference>) {
    forall i :: 0 <= i < |refs| ==> refs[i].varnode < |vars|
  }

  /** Patch the references in order; the flag is false when `resolveRelatives` throws, which leaves the rest unpatched. */
  function Resolve(vars: seq<VarnodeData>, refs: seq<Reference>, labels: seq<nat>): (r: (seq<VarnodeData>, bool))
    requires RefsInRange(vars, refs)
    ensures |r.0| == |vars|
    decreases |refs|
  {
    if refs == [] then (vars, true)
    else
      var k := refs[0].varnode;
      var id := vars[k].offset % 0x1_0000_0000;
      if !Placed(labels, id) then (vars, false)
      else
        Resolve(vars[k := vars[k].(offset := Relative(labels[id], refs[0].callingIndex, vars[k].size))], refs[1..], labels)
  }

  // ----- what the patching achieves -----

  /** The mask keeps as many bytes as the varnode has, and all of them from eight on. */
  lemma MaskWidth(size: nat)
    ensures Modulus(size) == Power256(Min(size, 8))
  {
    assert Power256(2) == 256 * Power256(1) && Power256(1) == 256 * Power256(0);
    assert Power256(4) == 256 * Power256(3) && Power256(3) == 256 * Power256(2);
    assert Power256(6) == 256 * Power256(5) && Power256(5) == 256 * Power256(4);
    assert Power256(8) == 256 * Power256(7) && Power256(7) == 256 * Power256(6);
  }

  /** Every width divides the 64 bits of the subtraction. */
  lemma ModulusDivides(size: nat) returns (c: nat)
    ensures Modulus(size) * c == 0x1_0000_0000_0000_0000
  {
    c := 0x1_0000_0000_0000_0000 / Modulus(size);
  }

  lemma RelativeCongruent(target: nat, from: nat, size: nat)
    ensures (from + Relative(target, from, size)) % Modulus(size) == target % Modulus(size)
  {
    var m := Modulus(size);
    var c := ModulusDivides(size);
    var q := (target - from) / 0x1_0000_0000_0000_0000;
    var y := (target - from) % 0x1_0000_0000_0000_0000;
    var t := y / m;
    assert target == from + y + m * c * q;
    assert y == m * t + y % m;
    assert m * c * q == m * (c * q);
    assert target == from + Relative(target, from, size) + m * (t + c * q);
    ModShift(from + Relative(target, from, size), t + c * q, m);
  }

  predicate DistinctRefs(refs: seq<Reference>) {
    forall i, j :: 0 <= i < j < |refs| ==> refs[i].varnode != refs[j].varnode
  }

  /** With each varnode registered at most once, patching throws if and only if some referenced label was never placed. */
  lemma {:induction false} ResolveThrows(vars: seq<VarnodeData>, refs: seq<Reference>, labels: seq<nat>)
    requires RefsInRange(vars, refs) && DistinctRefs(refs)
    ensures Resolve(vars, refs, labels).1 <==>
            forall i :: 0 <= i < |refs| ==> Placed(labels, vars[refs[i].varnode].offset % 0x1_0000_0000)
    decreases |refs|
  {
    if refs != [] && Placed(labels, vars[refs[0].varnode].offset % 0x1_0000_0000) {
      var k := refs[0].varnode;
      var target := labels[vars[k].offset % 0x1_0000_0000];
      var vars' := vars[k := vars[k].(offset := Relative(target, refs[0].callingIndex, vars[k].size))];
      ResolveThrows(vars', refs[1..], labels);
      assert forall i :: 0 <= i < |refs| - 1 ==> refs[1..][i] == refs[i + 1];
      assert forall i :: 1 <= i < |refs| ==> refs[i] == refs[1..][i - 1];
    }
  }

  /** The varnode `v` of a label reference has become `w`: the distance to its label, modulo its width, in the same
      space and of the same size. */
  predicate Patched(v: VarnodeData, w: VarnodeData, from: nat, labels: seq<nat>) {
    && Placed(labels, v.offset % 0x1_0000_0000)
    && w == v.(offset := w.offset) && w.offset < Power256(Min(v.size, 8))
    && (from + w.offset) % Power256(Min(v.size, 8)) == labels[v.offset % 0x1_0000_0000] % Power256(Min(v.size, 8))
  }

  lemma PatchOne(v: VarnodeData, from: nat, labels: seq<nat>)
    requires Placed(labels, v.offset % 0x1_0000_0000)
    ensures Patched(v, v.(offset := Relative(labels[v.offset % 0x1_0000_0000], from, v.size)), from, labels)
  {
    MaskWidth(v.size);
    RelativeCongruent(labels[v.offset % 0x1_0000_0000], from, v.size);
  }

  /** ... and otherwise every reference ends up patched, and no other varnode changes. */
  lemma {:induction false} ResolvePatches(vars: seq<VarnodeData>, refs: seq<Reference>, labels: seq<nat>)
    requires RefsInRange(vars, refs) && DistinctRefs(refs) && Resolve(vars, refs, labels).1
    ensures var out := Resolve(vars, refs, labels).0;
            forall i :: 0 <= i < |refs| ==>
              Patched(vars[refs[i].varnode], out[refs[i].varnode], refs[i].callingIndex, labels)
    ensures var out := Resolve(vars, refs, labels).0;
            forall k :: 0 <= k < |vars| && (forall i :: 0 <= i < |refs| ==> refs[i].varnode != k) ==> out[k] == vars[k]
    decreases |refs|
  {
    if refs != [] {
      var v := vars[refs[0].varnode];
      PatchOne(v, refs[0].callingIndex, labels);
      var w := v.(offset := Relative(labels[v.offset % 0x1_0000_0000], refs[0].callingIndex, v.size));
      ResolvePatches(vars[refs[0].varnode := w], refs[1..], labels);
      PatchRest(vars, refs, labels, w, Resolve(vars, refs, labels).0);
    }
  }

  /** From the rest of the references to all of them. */
  lemma PatchRest(vars: seq<VarnodeData>, refs: seq<Reference>, labels: seq<nat>, w: VarnodeData, out: seq<VarnodeData>)
    requires RefsInRange(vars, refs) && DistinctRefs(refs) && refs != [] && |out| == |vars|
    requires Patched(vars[refs[0].varnode], w, refs[0].callingIndex, labels)
    requires var vars', rest := vars[refs[0].varnode := w], refs[1..];
             && (forall i :: 0 <= i < |rest| ==>
                   Patched(vars'[rest[i].varnode], out[rest[i].varnode], rest[i].callingIndex, labels))
             && forall k :: 0 <= k < |vars| && (forall i :: 0 <= i < |rest| ==> rest[i].varnode != k) ==> out[k] == vars'[k]
    ensures forall i :: 0 <= i < |refs| ==>
              Patched(vars[refs[i].varnode], out[refs[i].varnode], refs[i].callingIndex, labels)
    ensures forall k :: 0 <= k < |vars| && (forall i :: 0 <= i < |refs| ==> refs[i].varnode != k) ==> out[k] == vars[k]
  {
    var rest := refs[1..];
    assert forall i :: 1 <= i < |refs| ==> refs[i] == rest[i - 1];
    assert forall i :: 0 <= i < |rest| ==> rest[i] == refs[i + 1];
    assert out[refs[0].varnode] == w;
  }

  /** Placing a label makes it, and only it, refer to the next operation; unless that operation's index is the marker. */
  lemma {:induction false} PlaceLabelPlaces(labels: seq<nat>, id: nat, index: nat)
    ensures var r := PlaceLabel(labels, id, index);
            && r[id] == index
            && (Placed(r, id) <==> index != UNPLACED)
            && forall j: nat :: j != id ==> (Placed(r, j) <==> Placed(labels, j)) && (Placed(r, j) ==> r[j] == labels[j])
    decreases id - |labels|
  {
    if |labels| <= id {
      PlaceLabelPlaces(labels + [UNPLACED], id, index);
    }
  }

  // ----- whole instructions -----

  /** What the builder asks of the cacher while it generates one instruction. */
  datatype Action =
    | Allocate(added: seq<VarnodeData>)
    | SetVar(k: nat, v: VarnodeData)
    | Issue
    | SetOp(k: nat, op: Operation)
    | Refer(k: nat)
    | Label(id: nat)

  /** The operands are null or lie in the pool. */
  predicate OperandsIn(op: Operation, n: nat) {
    (op.outvar.Some? ==> op.outvar.value <= n) && (op.invar.Some? ==> op.invar.value <= n)
  }

  function Apply(c: Contents, a: Action): Contents {
    match a
    case Allocate(added) => c.(vars := c.vars + added)
    case SetVar(k, v) => if k < |c.vars| then c.(vars := c.vars[k := v]) else c
    case Issue => c.(ops := c.ops + [Operation(0, None, None, 0)])
    case SetOp(k, op) => if k < |c.ops| && OperandsIn(op, |c.vars|) then c.(ops := c.ops[k := op]) else c
    case Refer(k) => if k < |c.vars| then c.(refs := c.refs + [Reference(k, |c.ops|)]) else c
    case Label(id) => c.(labels := PlaceLabel(c.labels, id, |c.ops|))
  }

  function Play(actions: seq<Action>): Contents {
    if actions == [] then Contents([], [], [], [])
    else Apply(Play(actions[..|actions| - 1]), actions[|actions| - 1])
  }

  lemma {:induction false} PlayRefsInRange(actions: seq<Action>)
    ensures RefsInRange(Play(actions).vars, Play(actions).refs)
    decreases |actions|
  {
    if actions != [] {
      PlayRefsInRange(actions[..|actions| - 1]);
    }
  }

  // ----- what the contents mean, in terms of the requests -----

  /** How many operations have been issued. */
  function Issued(actions: seq<Action>): nat {
    |set i: nat | i < |actions| && actions[i].Issue?|
  }

  /** How many varnodes have been allocated. */
  function Allocated(actions: seq<Action>): nat {
    if actions == [] then 0
    else Allocated(actions[..|actions| - 1]) + match actions[|actions| - 1] case Allocate(added) => |added| case _ => 0
  }

  /** What request `j` writes into varnode `k`, if anything. */
  function WroteVar(actions: seq<Action>, j: nat, k: nat): Option<VarnodeData>
    requires j < |actions|
  {
    var n := Allocated(actions[..j]);
    match actions[j]
    case Allocate(added) => if n <= k < n + |added| then Some(added[k - n]) else None
    case SetVar(i, v) => if i == k < n then Some(v) else None
    case _ => None
  }

  /** What request `j` writes into operation `k`: issuing it leaves it without operands. */
  function WroteOp(actions: seq<Action>, j: nat, k: nat): Option<Operation>
    requires j < |actions|
  {
    match actions[j]
    case Issue => if k == Issued(actions[..j]) then Some(Operation(0, None, None, 0)) else None
    case SetOp(i, op) =>
      if i == k < Issued(actions[..j]) && OperandsIn(op, Allocated(actions[..j])) then Some(op) else None
    case _ => None
  }

  /** Request `j` makes varnode `k` a label reference. */
  predicate Refers(actions: seq<Action>, j: nat, k: nat) {
    j < |actions| && actions[j] == Refer(k) && k < Allocated(actions[..j])
  }

  /** Request `j` is the last to place the label. */
  predicate LastPlaced(actions: seq<Action>, id: nat, j: nat) {
    j < |actions| && actions[j] == Label(id) && forall i :: j < i < |actions| ==> actions[i] != Label(id)
  }

  lemma IssuedSnoc(pre: seq<Action>, a: Action)
    ensures Issued(pre + [a]) == Issued(pre) + if a.Issue? then 1 else 0
  {
    var old', new' := set i: nat | i < |pre| && pre[i].Issue?, set i: nat | i < |pre + [a]| && (pre + [a])[i].Issue?;
    assert new' == old' + if a.Issue? then {|pre|} else {};
  }

  lemma {:induction false} PlayCounts(actions: seq<Action>)
    ensures |Play(actions).ops| == Issued(actions) && |Play(actions).vars| == Allocated(actions)
    decreases |actions|
  {
    if actions != [] {
      var pre, a := actions[..|actions| - 1], actions[|actions| - 1];
      PlayCounts(pre);
      IssuedSnoc(pre, a);
      assert actions == pre + [a];
    }
  }

  /** A varnode holds what was last written into it. */
  lemma {:induction false} PlayVars(actions: seq<Action>, k: nat) returns (j: nat)
    requires k < Allocated(actions)
    ensures j < |actions| && k < |Play(actions).vars| && WroteVar(actions, j, k) == Some(Play(actions).vars[k])
    ensures forall i :: j < i < |actions| ==> WroteVar(actions, i, k) == None
    decreases |actions|
  {
    var n := |actions| - 1;
    var pre := actions[..n];
    PlayCounts(actions);
    PlayCounts(pre);
    if WroteVar(actions, n, k).Some? {
      j := n;
    } else {
      j := PlayVars(pre, k);
      forall i | 0 <= i < n
        ensures WroteVar(actions, i, k) == WroteVar(pre, i, k)
      {
        assert pre[..i] == actions[..i];
      }
    }
  }

  /** So does an operation. */
  lemma {:induction false} PlayOps(actions: seq<Action>, k: nat) returns (j: nat)
    requires k < Issued(actions)
    ensures j < |actions| && k < |Play(actions).ops| && WroteOp(actions, j, k) == Some(Play(actions).ops[k])
    ensures forall i :: j < i < |actions| ==> WroteOp(actions, i, k) == None
    decreases |actions|
  {
    var n := |actions| - 1;
    var pre := actions[..n];
    PlayCounts(actions);
    PlayCounts(pre);
    if WroteOp(actions, n, k).Some? {
      j := n;
    } else {
      j := PlayOps(pre, k);
      forall i | 0 <= i < n
        ensures WroteOp(actions, i, k) == WroteOp(pre, i, k)
      {
        assert pre[..i] == actions[..i];
      }
    }
  }

  /** Every label reference was made by some request, and belongs to the operation issued after it. */
  lemma {:induction false} PlayRefs(actions: seq<Action>, i: nat) returns (j: nat)
    requires i < |Play(actions).refs|
    ensures Refers(actions, j, Play(actions).refs[i].varnode) && Play(actions).refs[i].callingIndex == Issued(actions[..j])
    decreases |actions|
  {
    var n := |actions| - 1;
    var pre := actions[..n];
    PlayCounts(pre);
    if i < |Play(pre).refs| {
      j := PlayRefs(pre, i);
      assert pre[..j] == actions[..j];
    } else {
      j := n;
    }
  }

  lemma {:induction false} RefsPlayed(actions: seq<Action>, j: nat, k: nat) returns (i: nat)
    requires Refers(actions, j, k)
    ensures i < |Play(actions).refs| && Play(actions).refs[i] == Reference(k, Issued(actions[..j]))
    decreases |actions|
  {
    var n := |actions| - 1;
    var pre := actions[..n];
    PlayCounts(pre);
    if j < n {
      assert pre[..j] == actions[..j];
      i := RefsPlayed(pre, j, k);
    } else {
      i := |Play(pre).refs|;
    }
  }

  /** The label table holds, for each label that was placed, how many operations stood in front of its last place. */
  lemma {:induction false} LabelTable(actions: seq<Action>, id: nat)
    requires Issued(actions) < UNPLACED
    ensures Placed(Play(actions).labels, id) <==> Label(id) in actions
    ensures forall j: nat :: LastPlaced(actions, id, j) ==>
              id < |Play(actions).labels| && Play(actions).labels[id] == Issued(actions[..j])
    decreases |actions|
  {
    if actions != [] {
      var n := |actions| - 1;
      var pre, a := actions[..n], actions[n];
      assert actions == pre + [a];
      IssuedSnoc(pre, a);
      PlayCounts(pre);
      LabelTable(pre, id);
      if a.Label? {
        PlaceLabelPlaces(Play(pre).labels, a.id, |Play(pre).ops|);
      }
      forall j: nat | LastPlaced(actions, id, j)
        ensures id < |Play(actions).labels| && Play(actions).labels[id] == Issued(actions[..j])
      {
        if j < n {
          assert LastPlaced(pre, id, j) && pre[..j] == actions[..j];
          assert Placed(Play(pre).labels, id);
        }
      }
    }
  }

  lemma {:induction false} LastPlace(actions: seq<Action>, id: nat) returns (j: nat)
    requires Label(id) in actions
    ensures LastPlaced(actions, id, j)
    decreases |actions|
  {
    var n := |actions| - 1;
    assert actions == actions[..n] + [actions[n]];
    if actions[n] == Label(id) {
      j := n;
    } else {
      j := LastPlace(actions[..n], id);
    }
  }

  // ----- relative branches -----

  /** The varnode `v`, a label reference made by request `j`, has become `w`, of the same space and size: its offset, added
      to the number of operations before the reference, gives the number of operations before the label whose id were the
      low 32 bits of `v`'s offset, modulo the width of the varnode. */
  ghost predicate Leads(actions: seq<Action>, j: nat, v: VarnodeData, w: VarnodeData)
    requires j < |actions|
  {
    && w == v.(offset := w.offset) && w.offset < Power256(Min(v.size, 8))
    && exists l: nat :: LastPlaced(actions, v.offset % 0x1_0000_0000, l) &&
         (Issued(actions[..j]) + w.offset) % Power256(Min(v.size, 8)) == Issued(actions[..l]) % Power256(Min(v.size, 8))
  }

  /** Relative branches of a whole instruction.  With fewer operations than the marker and each varnode referred to at most
      once, `resolveRelatives` throws exactly when some referenced label was never placed; otherwise every reference leads
      to its label. */
  lemma RelativeBranches(actions: seq<Action>)
    requires Issued(actions) < UNPLACED && DistinctRefs(Play(actions).refs)
    ensures var c := Play(actions); RefsInRange(c.vars, c.refs) && |c.vars| == Allocated(actions)
    ensures var c := Play(actions);
            Resolve(c.vars, c.refs, c.labels).1 <==>
            forall j: nat, k: nat :: Refers(actions, j, k) && k < |c.vars| ==>
              Label(c.vars[k].offset % 0x1_0000_0000) in actions
    ensures var c := Play(actions); var r := Resolve(c.vars, c.refs, c.labels);
            r.1 ==> forall j: nat, k: nat :: Refers(actions, j, k) && k < |c.vars| ==> Leads(actions, j, c.vars[k], r.0[k])
    ensures var c := Play(actions); var r := Resolve(c.vars, c.refs, c.labels);
            r.1 ==> forall k: nat :: k < |c.vars| && (forall j: nat :: !Refers(actions, j, k)) ==> r.0[k] == c.vars[k]
  {
    var c := Play(actions);
    PlayRefsInRange(actions);
    PlayCounts(actions);
    ResolveThrows(c.vars, c.refs, c.labels);
    forall i | 0 <= i < |c.refs|
      ensures Placed(c.labels, c.vars[c.refs[i].varnode].offset % 0x1_0000_0000) <==>
              Label(c.vars[c.refs[i].varnode].offset % 0x1_0000_0000) in actions
    {
      LabelTable(actions, c.vars[c.refs[i].varnode].offset % 0x1_0000_0000);
    }
    forall i: nat | i < |c.refs|
      ensures exists j: nat :: Refers(actions, j, c.refs[i].varnode)
    {
      var j := PlayRefs(actions, i);
    }
    forall j: nat, k: nat | Refers(actions, j, k)
      ensures exists i :: 0 <= i < |c.refs| && c.refs[i].varnode == k
    {
      var i := RefsPlayed(actions, j, k);
      assert c.refs[i].varnode == k;
    }
    if Resolve(c.vars, c.refs, c.labels).1 {
      forall j: nat, k: nat | Refers(actions, j, k) && k < |c.vars|
        ensures Leads(actions, j, c.vars[k], Resolve(c.vars, c.refs, c.labels).0[k])
      {
        ReferenceLeads(actions, j, k);
      }
      ResolvePatches(c.vars, c.refs, c.labels);
    }
  }

  lemma ReferenceLeads(actions: seq<Action>, j: nat, k: nat)
    requires Issued(actions) < UNPLACED && DistinctRefs(Play(actions).refs) && Refers(actions, j, k)
    requires RefsInRange(Play(actions).vars, Play(actions).refs) && k < |Play(actions).vars|
    requires Resolve(Play(actions).vars, Play(actions).refs, Play(actions).labels).1
    ensures var c := Play(actions); Leads(actions, j, c.vars[k], Resolve(c.vars, c.refs, c.labels).0[k])
  {
    var c := Play(actions);
    var i := RefsPlayed(actions, j, k);
    ResolvePatches(c.vars, c.refs, c.labels);
    var id := c.vars[k].offset % 0x1_0000_0000;
    assert Patched(c.vars[k], Resolve(c.vars, c.refs, c.labels).0[k], c.refs[i].callingIndex, c.labels);
    LabelTable(actions, id);
    var l := LastPlace(actions, id);
  }

  // ----- pointers -----

  /** Null, or into a pool whose used part is [start, cur). */
  predicate PointerOk(p: int, start: int, cur: int) {
    p == 0 || start <= p <= cur
  }

  predicate OpsOk(issued: seq<PcodeData>, start: int, cur: int) {
    forall i :: 0 <= i < |issued| ==> PointerOk(issued[i].outvar, start, cur) && PointerOk(issued[i].invar, start, cur)
  }

  predicate RefsOk(labelRefs: seq<RelativeRecord>, start: int, cur: int) {
    forall i :: 0 <= i < |labelRefs| ==> start <= labelRefs[i].dataptr < cur
  }

  function Logical(p: int, start: int, cur: int): Option<nat>
    requires PointerOk(p, start, cur)
  {
    if p == 0 then None else Some(p - start)
  }

  function LogicalOps(issued: seq<PcodeData>, start: int, cur: int): seq<Operation>
    requires OpsOk(issued, start, cur)
  {
    seq(|issued|, i requires 0 <= i < |issued| =>
          Operation(issued[i].opc, Logical(issued[i].outvar, start, cur),
                    Logical(issued[i].invar, start, cur), issued[i].isize))
  }

  function LogicalRefs(labelRefs: seq<RelativeRecord>, start: int, cur: int): seq<Reference>
    requires RefsOk(labelRefs, start, cur)
  {
    seq(|labelRefs|, i requires 0 <= i < |labelRefs| => Reference(labelRefs[i].dataptr - start, labelRefs[i].callingIndex))
  }

  /** Using more of the pool changes nothing that is denoted already. */
  lemma GrowthKept(ops: seq<PcodeData>, refs: seq<RelativeRecord>, start: int, cur: int, cur': int)
    requires OpsOk(ops, start, cur) && RefsOk(refs, start, cur) && cur <= cur'
    ensures OpsOk(ops, start, cur') && LogicalOps(ops, start, cur') == LogicalOps(ops, start, cur)
    ensures RefsOk(refs, start, cur') && LogicalRefs(refs, start, cur') == LogicalRefs(refs, start, cur)
  {
  }

  // ----- the cacher itself -----

  class PcodeCacher {
    var pool: array<VarnodeData>
    var poolstart: int
    var curpool: int
    var endpool: int
    var issued: seq<PcodeData>
    var labelRefs: seq<RelativeRecord>
    var labels: seq<nat>

    predicate InPool(p: int)
      reads this
    {
      PointerOk(p, poolstart, curpool)
    }

    ghost predicate Valid()
      reads this
    {
      && 0 < poolstart <= curpool <= endpool == poolstart + pool.Length
      && OpsOk(issued, poolstart, curpool)
      && RefsOk(labelRefs, poolstart, curpool)
    }

    /** The same cacher without addresses. */
    ghost function Abs(): Contents
      reads this, pool
      requires Valid()
    {
      Contents(pool[..curpool - poolstart], LogicalOps(issued, poolstart, curpool),
               LogicalRefs(labelRefs, poolstart, curpool), labels)
    }

    constructor (base: int)
      requires base > 0
      ensures Valid() && fresh(pool)
      ensures Abs() == Contents([], [], [], [])
    {
      pool := new VarnodeData[INITIAL_POOL];
      poolstart, curpool, endpool := base, base, base + INITIAL_POOL;
      issued, labelRefs, labels := [], [], [];
    }

    /** Update the operand pointers of the issued operations to the new pool: they keep what they denote. */
    static method RelocateIssued(issued: seq<PcodeData>, from: int, cur: int, to: int) returns (ops: seq<PcodeData>)
      requires OpsOk(issued, from, cur) && to > 0
      ensures OpsOk(ops, to, to + (cur - from)) && LogicalOps(ops, to, to + (cur - from)) == LogicalOps(issued, from, cur)
    {
      ops := issued;
      for i := 0 to |ops|
        invariant |ops| == |issued|
        invariant forall j :: i <= j < |ops| ==> ops[j] == issued[j]
        invariant OpsOk(ops[..i], to, to + (cur - from))
        invariant forall j :: 0 <= j < i ==>
                    && ops[j].opc == issued[j].opc && ops[j].isize == issued[j].isize
                    && Logical(ops[j].outvar, to, to + (cur - from)) == Logical(issued[j].outvar, from, cur)
                    && Logical(ops[j].invar, to, to + (cur - from)) == Logical(issued[j].invar, from, cur)
      {
        var outvar, invar := ops[i].outvar, ops[i].invar;
        if outvar != 0 {
          outvar := to + (outvar - from);
        }
        if invar != 0 {
          invar := to + (invar - from);
        }
        ops := ops[i := ops[i].(outvar := outvar, invar := invar)];
      }
    }

    /** Update the label references to the new pool: they keep what they denote. */
    static method RelocateRefs(labelRefs: seq<RelativeRecord>, from: int, cur: int, to: int)
        returns (refs: seq<RelativeRecord>)
      requires RefsOk(labelRefs, from, cur)
      ensures RefsOk(refs, to, to + (cur - from))
      ensures LogicalRefs(refs, to, to + (cur - from)) == LogicalRefs(labelRefs, from, cur)
    {
      refs := labelRefs;
      for i := 0 to |refs|
        invariant |refs| == |labelRefs|
        invariant forall j :: i <= j < |refs| ==> refs[j] == labelRefs[j]
        invariant forall j :: 0 <= j < i ==> refs[j] == labelRefs[j].(dataptr := to + (labelRefs[j].dataptr - from))
      {
        refs := refs[i := refs[i].(dataptr := to + (refs[i].dataptr - from))];
      }
    }

    /** A larger pool with the used part of the old one. */
    method CopyPool(newsize: nat) returns (newpool: array<VarnodeData>)
      requires Valid() && newsize >= pool.Length
      ensures fresh(newpool) && newpool.Length == newsize
      ensures newpool[..curpool - poolstart] == pool[..curpool - poolstart]
    {
      newpool := new VarnodeData[newsize];
      for i := 0 to curpool - poolstart
        invariant newpool[..i] == pool[..i]
      {
        newpool[i] := pool[i];
      }
    }

    /** Make room for `size` more varnodes and take them; `base` is where the allocator puts the new pool.  If there is room
        already, nothing is taken. */
    method ExpandPool(size: nat, base: int) returns (ptr: int)
      requires Valid() && base > 0
      modifies this
      ensures Valid() && (pool == old(pool) || fresh(pool))
      ensures ptr == poolstart + |old(Abs()).vars|
      ensures Abs().ops == old(Abs()).ops && Abs().refs == old(Abs()).refs && Abs().labels == old(Abs()).labels
      ensures old(curpool + size <= endpool) ==> pool == old(pool) && curpool == ptr && Abs() == old(Abs())
      ensures old(curpool + size > endpool) ==>
                curpool == ptr + size && |Abs().vars| == |old(Abs()).vars| + size && old(Abs()).vars <= Abs().vars
      ensures pool.Length == Max(old(pool.Length), Max(old(curpool - poolstart) + size,
                                 if old(curpool + size > endpool) then old(pool.Length) + LEAST_INCREASE else 0))
    {
      if curpool + size <= endpool {
        return curpool;
      }
      var curmax := endpool - poolstart;
      var cursize := curpool - poolstart;
      var increase := cursize + size - curmax;
      if increase < LEAST_INCREASE {
        increase := LEAST_INCREASE;
      }
      var newsize := curmax + increase;
      var newpool := CopyPool(newsize);
      var ops := RelocateIssued(issued, poolstart, curpool, base);
      var refs := RelocateRefs(labelRefs, poolstart, curpool, base);
      GrowthKept(ops, refs, base, base + cursize, base + cursize + size);
      pool := newpool;
      poolstart := base;
      curpool := base + (cursize + size);
      endpool := base + newsize;
      issued, labelRefs := ops, refs;
      ptr := base + cursize;
    }

    /** The new varnodes follow all earlier ones, and whatever the cacher refers to keeps its meaning. */
    method AllocateVarnodes(size: nat, base: int) returns (ptr: int)
      requires Valid() && base > 0
      modifies this
      ensures Valid() && (pool == old(pool) || fresh(pool))
      ensures ptr == poolstart + |old(Abs()).vars| && curpool == ptr + size
      ensures |Abs().vars| == |old(Abs()).vars| + size && old(Abs()).vars <= Abs().vars
      ensures Abs().ops == old(Abs()).ops && Abs().refs == old(Abs()).refs && Abs().labels == old(Abs()).labels
    {
      if curpool + size <= endpool {
        ptr := curpool;
        GrowthKept(issued, labelRefs, poolstart, curpool, curpool + size);
        curpool := curpool + size;
      } else {
        ptr := ExpandPool(size, base);
      }
    }

    /** A new operation without operands; the caller fills it in through `SetOperation`. */
    method AllocateInstruction() returns (index: nat)
      requires Valid()
      modifies this`issued
      ensures Valid() && index == |old(Abs()).ops|
      ensures Abs() == old(Abs()).(ops := old(Abs()).ops + [Operation(0, None, None, 0)])
    {
      index := |issued|;
      issued := issued + [PcodeData(0, 0, 0, 0)];
    }

    method SetOperation(index: nat, opc: nat, outvar: int, invar: int, isize: int)
      requires Valid() && index < |issued| && InPool(outvar) && InPool(invar)
      modifies this`issued
      ensures Valid()
      ensures var op := Operation(opc, Logical(outvar, poolstart, curpool), Logical(invar, poolstart, curpool), isize);
              Abs() == old(Abs()).(ops := old(Abs()).ops[index := op])
    {
      issued := issued[index := PcodeData(opc, outvar, invar, isize)];
    }

    method SetVarnode(ptr: int, v: VarnodeData)
      requires Valid() && poolstart <= ptr < curpool
      modifies pool
      ensures Valid() && Abs() == old(Abs()).(vars := old(Abs()).vars[ptr - poolstart := v])
    {
      pool[ptr - poolstart] := v;
    }

    /** The reference belongs to the operation that is issued next. */
    method AddLabelRef(ptr: int)
      requires Valid() && poolstart <= ptr < curpool
      modifies this`labelRefs
      ensures Valid()
      ensures Abs() == old(Abs()).(refs := old(Abs()).refs + [Reference(ptr - poolstart, |old(Abs()).ops|)])
    {
      labelRefs := labelRefs + [RelativeRecord(ptr, |issued|)];
    }

    method AddLabel(id: nat)
      requires Valid()
      modifies this`labels
      ensures Valid() && Abs() == old(Abs()).(labels := PlaceLabel(old(Abs()).labels, id, |old(Abs()).ops|))
    {
      ghost var before := labels;
      while |labels| <= id
        invariant PlaceLabel(labels, id, |issued|) == PlaceLabel(before, id, |issued|)
        decreases id - |labels|
      {
        labels := labels + [UNPLACED];
      }
      labels := labels[id := |issued|];
    }

    method Clear()
      requires Valid()
      modifies this
      ensures Valid() && pool == old(pool) && Abs() == Contents([], [], [], [])
    {
      curpool := poolstart;
      issued, labelRefs, labels := [], [], [];
    }

    /** `ok` is false where the source throws. */
    method ResolveRelatives() returns (ok: bool)
      requires Valid()
      modifies pool
      ensures Valid() && RefsInRange(old(Abs()).vars, old(Abs()).refs)
      ensures (Abs().vars, ok) == Resolve(old(Abs()).vars, old(Abs()).refs, labels)
      ensures Abs() == old(Abs()).(vars := Abs().vars)
    {
      ghost var refs := Abs().refs;
      ghost var result := Resolve(Abs().vars, refs, labels);
      var i := 0;
      while i < |labelRefs|
        invariant 0 <= i <= |labelRefs| && Valid()
        invariant Abs() == old(Abs()).(vars := Abs().vars)
        invariant RefsInRange(Abs().vars, refs[i..])
        invariant Resolve(Abs().vars, refs[i..], labels) == result
      {
        var at := labelRefs[i].dataptr - poolstart;
        assert refs[i..][0] == Reference(at, labelRefs[i].callingIndex);
        var id := U32(pool[at].offset);
        if id >= |labels| || labels[id] == UNPLACED {
          return false;
        }
        ghost var before := Abs().vars;
        var res := Relative(labels[id], labelRefs[i].callingIndex, pool[at].size);
        pool[at] := pool[at].(offset := res);
        assert Abs().vars == before[at := before[at].(offset := res)];
        assert refs[i..][1..] == refs[i + 1..];
        i := i + 1;
      }
      return true;
    }

    // ----- whole instructions, with the pool wherever the allocator puts it -----

    /** Allocate and initialize. */
    method AllocateAll(added: seq<VarnodeData>)
      requires Valid()
      modifies this, pool
      ensures Valid() && (pool == old(pool) || fresh(pool))
      ensures Abs() == old(Abs()).(vars := old(Abs()).vars + added)
    {
      var base: int := *;
      if base <= 0 {
        base := 1;
      }
      ghost var before := Abs();
      var ptr := AllocateVarnodes(|added|, base);
      ghost var n, now, home := |before.vars|, Abs(), pool;
      for i := 0 to |added|
        modifies pool
        invariant Valid() && pool == home && ptr == poolstart + n
        invariant Abs() == now.(vars := Abs().vars) && |Abs().vars| == n + |added|
        invariant forall j :: 0 <= j < n ==> Abs().vars[j] == before.vars[j]
        invariant forall j :: 0 <= j < i ==> Abs().vars[n + j] == added[j]
      {
        SetVarnode(ptr + i, added[i]);
      }
      assert Abs().vars == before.vars + added;
    }

    function PointerTo(operand: Option<nat>): int
      reads this
    {
      if operand.None? then 0 else poolstart + operand.value
    }

    /** One request of the builder, through the current address of the pool. */
    method Perform(a: Action)
      requires Valid()
      modifies this, pool
      ensures Valid() && (pool == old(pool) || fresh(pool))
      ensures Abs() == Apply(old(Abs()), a)
    {
      var used := curpool - poolstart;
      match a
      case Allocate(added) => AllocateAll(added);
      case SetVar(k, v) =>
        if k < used {
          SetVarnode(poolstart + k, v);
        }
      case Issue =>
        var index := AllocateInstruction();
      case SetOp(k, op) =>
        if k < |issued| && OperandsIn(op, used) {
          SetOperation(k, op.opc, PointerTo(op.outvar), PointerTo(op.invar), op.isize);
        }
      case Refer(k) =>
        if k < used {
          AddLabelRef(poolstart + k);
        }
      case Label(id) => AddLabel(id);
    }

    /** Any sequence of requests since `clear` leaves what the same requests leave in an array that never moves, however
        often and wherever the pool has moved in between. */
    method PerformAll(actions: seq<Action>)
      requires Valid()
      modifies this, pool
      ensures Valid() && (pool == old(pool) || fresh(pool))
      ensures Abs() == Play(actions)
    {
      Clear();
      for n := 0 to |actions|
        invariant Valid() && (pool == old(pool) || fresh(pool))
        invariant Abs() == Play(actions[..n])
      {
        assert actions[..n + 1][..n] == actions[..n];
        Perform(actions[n]);
      }
      assert actions[..|actions|] == actions;
    }

    /** A whole instruction on the moving pool: built by any requests, then patched.  It throws exactly when a referenced
        label was never placed; otherwise every reference in the pool leads to its label, and nothing else has changed. */
    method BuildInstruction(actions: seq<Action>) returns (ok: bool)
      requires Valid() && Issued(actions) < UNPLACED && DistinctRefs(Play(actions).refs)
      modifies this, pool
      ensures Valid() && |Abs().vars| == |Play(actions).vars| == Allocated(actions)
      ensures Abs() == Play(actions).(vars := Abs().vars)
      ensures ok <==> forall j: nat, k: nat :: Refers(actions, j, k) && k < Allocated(actions) ==>
                        Label(Play(actions).vars[k].offset % 0x1_0000_0000) in actions
      ensures ok ==> forall j: nat, k: nat :: Refers(actions, j, k) && k < Allocated(actions) ==>
                       Leads(actions, j, Play(actions).vars[k], Abs().vars[k])
      ensures ok ==> forall k: nat :: k < Allocated(actions) && (forall j: nat :: !Refers(actions, j, k)) ==>
                       Abs().vars[k] == Play(actions).vars[k]
    {
      PerformAll(actions);
      RelativeBranches(actions);
      ok := ResolveRelatives();
    }
  }
}
