/** Ordering the analysis passes: the dependency graph and its topological sort. */
module PassOrder {
  import opened Common

  /** A pass must not run before the passes it names. */
  datatype Pass = Pass(name: string, notBefore: seq<string>)

  type Edge = (Pass, Pass)

  datatype Graph = Graph(nodes: seq<Pass>, edges: seq<Edge>)

  datatype OrderError = MissingPass(name: string) | Cyclic

  datatype Result<+T> = Ok(value: T) | Err(error: OrderError)

  /** What `verify!` checks before anything is ordered. */
  predicate UniqueNames(passes: seq<Pass>) {
    forall i, j :: 0 <= i < j < |passes| ==> passes[i].name != passes[j].name
  }

  /** `u` has to come before `v`. */
  predicate Before(passes: seq<Pass>, u: Pass, v: Pass) {
    u in passes && v in passes && u.name in v.notBefore
  }

  /** Some pass has this name. */
  ghost predicate Named(passes: seq<Pass>, name: string) {
    exists u :: u in passes && u.name == name
  }

  ghost predicate KnownNames(passes: seq<Pass>) {
    forall v, n :: v in passes && n in v.notBefore ==> Named(passes, n)
  }

  /** A closed walk, of one step or more. */
  predicate IsCycle(passes: seq<Pass>, walk: seq<Pass>) {
    |walk| >= 2 && walk[0] == walk[|walk| - 1] &&
    forall i :: 0 <= i < |walk| - 1 ==> Before(passes, walk[i], walk[i + 1])
  }

  ghost predicate HasCycle(passes: seq<Pass>) {
    exists walk :: IsCycle(passes, walk)
  }

  /** All the passes, each once, every pass after those it must not run before. */
  ghost predicate IsOrder(passes: seq<Pass>, order: seq<Pass>) {
    && multiset(order) == multiset(passes)
    && forall i, j :: 0 <= i < |order| && 0 <= j < |order| && Before(passes, order[i], order[j]) ==> i < j
  }

  // ----- building the graph -----

  method Find(passes: seq<Pass>, name: string) returns (r: Option<Pass>)
    ensures r.Some? ==> r.value in passes && r.value.name == name
    ensures r.None? ==> forall p :: p in passes ==> p.name != name
  {
    for i := 0 to |passes|
      invariant forall j :: 0 <= j < i ==> passes[j].name != name
    {
      if passes[i].name == name {
        return Some(passes[i]);
      }
    }
    return None;
  }

  lemma SameName(passes: seq<Pass>, u: Pass, v: Pass)
    requires UniqueNames(passes) && u in passes && v in passes && u.name == v.name
    ensures u == v
  {
  }

  method BuildGraph(passes: seq<Pass>) returns (r: Result<Graph>)
    requires UniqueNames(passes)
    ensures r.Ok? <==> KnownNames(passes)
    ensures r.Ok? ==> r.value.nodes == passes
    ensures r.Ok? ==> forall u, v :: (u, v) in r.value.edges <==> Before(passes, u, v)
    ensures r.Err? ==> r.error.MissingPass? && forall p :: p in passes ==> p.name != r.error.name
  {
    var nodes: seq<Pass>, edges: seq<Edge> := [], [];
    for i := 0 to |passes|
      invariant nodes == passes[..i]
      invariant forall u, v :: (u, v) in edges <==> Before(passes, u, v) && v in passes[..i]
      invariant forall v, n :: v in passes[..i] && n in v.notBefore ==> Named(passes, n)
    {
      var pass := passes[i];
      nodes := nodes + [pass];
      for k := 0 to |pass.notBefore|
        invariant forall u, v :: (u, v) in edges <==>
                    Before(passes, u, v) && (v in passes[..i] || (v == pass && u.name in pass.notBefore[..k]))
        invariant forall n :: n in pass.notBefore[..k] ==> Named(passes, n)
      {
        var pred := Find(passes, pass.notBefore[k]);
        if pred.None? {
          assert pass in passes && pass.notBefore[k] in pass.notBefore && !Named(passes, pass.notBefore[k]);
          return Err(MissingPass(pass.notBefore[k]));
        }
        assert Named(passes, pass.notBefore[k]);
        assert pass.notBefore[..k + 1] == pass.notBefore[..k] + [pass.notBefore[k]];
        edges := edges + [(pred.value, pass)];
        forall u, v
          ensures (u, v) in edges <==>
                  Before(passes, u, v) && (v in passes[..i] || (v == pass && u.name in pass.notBefore[..k + 1]))
        {
          if v == pass && u in passes && u.name == pass.notBefore[k] {
            SameName(passes, u, pred.value);
          }
        }
      }
      assert pass.notBefore[..|pass.notBefore|] == pass.notBefore;
      assert passes[..i + 1] == passes[..i] + [pass];
    }
    assert passes[..|passes|] == passes;
    return Ok(Graph(nodes, edges));
  }

  // ----- the sort -----

  /** Ruby's `Array#delete`: every occurrence goes. */
  function Delete(edges: seq<Edge>, e: Edge): (r: seq<Edge>)
    ensures forall x :: x in r <==> x in edges && x != e
  {
    if edges == [] then []
    else if edges[0] == e then Delete(edges[1..], e)
    else [edges[0]] + Delete(edges[1..], e)
  }

  /** Ruby's `select`: the successors of a node, in the order of the nodes. */
  function Successors(nodes: seq<Pass>, edges: seq<Edge>, node: Pass): (r: seq<Pass>)
    requires Distinct(nodes)
    ensures forall s :: s in r <==> s in nodes && (node, s) in edges
    ensures Distinct(r)
  {
    if nodes == [] then []
    else
      var rest := Successors(nodes[1..], edges, node);
      if (node, nodes[0]) in edges then [nodes[0]] + rest else rest
  }

  predicate Incoming(edges: seq<Edge>, node: Pass) {
    exists i :: 0 <= i < |edges| && edges[i].1 == node
  }

  lemma {:induction false} DistinctCard<T>(s: seq<T>)
    requires Distinct(s)
    ensures |set x | x in s| == |s|
  {
    if s != [] {
      DistinctCard(s[1..]);
      assert (set x | x in s) == {s[0]} + (set x | x in s[1..]);
    }
  }

  /** Distinct elements of `b` are at most as many as `b` is long. */
  lemma DistinctFits<T>(a: seq<T>, b: seq<T>)
    requires Distinct(a) && Distinct(b) && forall x :: x in a ==> x in b
    ensures |a| <= |b|
  {
    DistinctCard(a);
    DistinctCard(b);
    SubsetCard((set x | x in a), (set x | x in b));
  }

  /** The state of the sort between two nodes: an edge is still there as long as its source is not ordered, and a node is
      ordered or queued exactly when no remaining edge leads to it. */
  ghost predicate Sorting(nodes: seq<Pass>, all: seq<Edge>, edges: seq<Edge>, ordered: seq<Pass>, queue: seq<Pass>) {
    && Distinct(ordered + queue)
    && (forall n :: n in ordered + queue ==> n in nodes)
    && (forall e :: e in edges <==> e in all && e.0 !in ordered)
    && (forall n :: n in nodes ==> (n in ordered + queue <==> !Incoming(edges, n)))
    && (forall e, i :: e in all && 0 <= i < |ordered| && ordered[i] == e.1 ==> e.0 in ordered[..i])
  }

  method TopologicalSort(g: Graph) returns (ordered: seq<Pass>, edges: seq<Edge>)
    requires Distinct(g.nodes) && forall e :: e in g.edges ==> e.0 in g.nodes && e.1 in g.nodes
    ensures Sorting(g.nodes, g.edges, edges, ordered, [])
  {
    var nodeSet := [];
    ordered, edges := [], g.edges;
    for i := 0 to |g.nodes|
      invariant Distinct(nodeSet)
      invariant forall n :: n in nodeSet <==> n in g.nodes[..i] && !Incoming(edges, n)
    {
      assert g.nodes[..i + 1] == g.nodes[..i] + [g.nodes[i]];
      if !Incoming(edges, g.nodes[i]) {
        nodeSet := nodeSet + [g.nodes[i]];
      }
    }
    assert g.nodes[..|g.nodes|] == g.nodes;
    assert ordered + nodeSet == nodeSet;
    while nodeSet != []
      invariant Sorting(g.nodes, g.edges, edges, ordered, nodeSet)
      decreases |g.nodes| - |ordered|
    {
      DistinctFits(ordered + nodeSet, g.nodes);
      var node := nodeSet[0];
      edges, nodeSet := Expand(g, ordered, edges, nodeSet);
      ordered := ordered + [node];
    }
    assert nodeSet == [];
  }

  /** The state inside a round, `gone` being the successors that have been looked at. */
  ghost predicate Freeing(nodes: seq<Pass>, edges0: seq<Edge>, edges: seq<Edge>, node: Pass,
                          gone: seq<Pass>, known: seq<Pass>)
  {
    && Distinct(known)
    && (forall n :: n in known ==> n in nodes)
    && (forall e :: e in edges <==> e in edges0 && !(e.0 == node && e.1 in gone))
    && (forall n :: n in nodes ==> (n in known <==> !Incoming(edges, n)))
  }

  /** One round: the first queued node is ordered, its edges go, and the nodes this frees are queued. */
  method Expand(g: Graph, ordered: seq<Pass>, edges0: seq<Edge>, queue0: seq<Pass>)
      returns (edges: seq<Edge>, queue: seq<Pass>)
    requires Distinct(g.nodes) && (forall e :: e in g.edges ==> e.0 in g.nodes && e.1 in g.nodes)
    requires queue0 != [] && Sorting(g.nodes, g.edges, edges0, ordered, queue0)
    ensures Sorting(g.nodes, g.edges, edges, ordered + [queue0[0]], queue)
  {
    var node := queue0[0];
    queue := queue0[1..];
    edges := edges0;
    var done := ordered + [node];
    assert done + queue == ordered + queue0;
    var succs := Successors(g.nodes, edges, node);
    for k := 0 to |succs|
      invariant Freeing(g.nodes, edges0, edges, node, succs[..k], done + queue)
    {
      var succ := succs[k];
      ghost var before := edges;
      edges := Delete(edges, (node, succ));
      Freed(g.nodes, edges0, before, edges, node, succs, k, done + queue);
      if !Incoming(edges, succ) {
        assert done + (queue + [succ]) == done + queue + [succ];
        queue := queue + [succ];
      }
    }
    assert succs[..|succs|] == succs;
    Expanded(g, ordered, edges0, queue0, edges, queue);
  }

  /** Dropping the edges out of the node just ordered keeps the two clauses about edges. */
  lemma Expanded(g: Graph, ordered: seq<Pass>, edges0: seq<Edge>, queue0: seq<Pass>, edges: seq<Edge>, queue: seq<Pass>)
    requires forall e :: e in g.edges ==> e.0 in g.nodes && e.1 in g.nodes
    requires queue0 != [] && Sorting(g.nodes, g.edges, edges0, ordered, queue0)
    requires Distinct(ordered + [queue0[0]] + queue)
    requires forall n :: n in ordered + [queue0[0]] + queue ==> n in g.nodes
    requires forall e :: e in edges <==> e in edges0 && e.0 != queue0[0]
    requires forall n :: n in g.nodes ==> (n in ordered + [queue0[0]] + queue <==> !Incoming(edges, n))
    ensures Sorting(g.nodes, g.edges, edges, ordered + [queue0[0]], queue)
  {
    var node := queue0[0];
    var done := ordered + [node];
    forall e, i | e in g.edges && 0 <= i < |done| && done[i] == e.1
      ensures e.0 in done[..i]
    {
      if i < |ordered| {
        assert done[..i] == ordered[..i];
      } else {
        assert done[..i] == ordered;
        assert node in ordered + queue0;
        assert e in edges0 ==> Incoming(edges0, node);
      }
    }
  }

  /** A successor is queued when the last edge to it goes. */
  lemma Freed(nodes: seq<Pass>, edges0: seq<Edge>, before: seq<Edge>, after: seq<Edge>, node: Pass,
              succs: seq<Pass>, k: nat, known: seq<Pass>)
    requires k < |succs| && Distinct(succs) && succs[k] in nodes && (node, succs[k]) in edges0
    requires Freeing(nodes, edges0, before, node, succs[..k], known)
    requires forall e :: e in after <==> e in before && e != (node, succs[k])
    ensures Freeing(nodes, edges0, after, node, succs[..k + 1],
                    if Incoming(after, succs[k]) then known else known + [succs[k]])
  {
    var succ := succs[k];
    assert succs[..k + 1] == succs[..k] + [succ];
    assert (node, succ) in before;
    assert Incoming(before, succ);
    StillIncoming(before, after, node, succ);
  }

  lemma StillIncoming(before: seq<Edge>, after: seq<Edge>, node: Pass, succ: Pass)
    requires forall e :: e in after <==> e in before && e != (node, succ)
    ensures forall n :: n != succ ==> (Incoming(after, n) <==> Incoming(before, n))
  {
    forall n | n != succ
      ensures Incoming(after, n) <==> Incoming(before, n)
    {
      if Incoming(before, n) {
        var i :| 0 <= i < |before| && before[i].1 == n;
        assert before[i] in after;
      }
      if Incoming(after, n) {
        var i :| 0 <= i < |after| && after[i].1 == n;
        assert after[i] in before;
      }
    }
  }

  // ----- left-over edges mean a cycle -----

  ghost predicate Preceded(passes: seq<Pass>, u: set<Pass>, v: Pass) {
    exists w :: w in u && Before(passes, w, v)
  }

  ghost predicate WalkIn(passes: seq<Pass>, u: set<Pass>, walk: seq<Pass>) {
    && (forall i :: 0 <= i < |walk| ==> walk[i] in u)
    && (forall i :: 0 <= i < |walk| - 1 ==> Before(passes, walk[i], walk[i + 1]))
  }

  lemma Prepend(passes: seq<Pass>, u: set<Pass>, w: Pass, rest: seq<Pass>)
    requires WalkIn(passes, u, rest) && rest != [] && w in u && Before(passes, w, rest[0])
    ensures WalkIn(passes, u, [w] + rest)
  {
    var walk := [w] + rest;
    forall i | 0 <= i < |walk| - 1
      ensures Before(passes, walk[i], walk[i + 1])
    {
      assert i > 0 ==> walk[i] == rest[i - 1] && Before(passes, rest[i - 1], rest[i - 1 + 1]);
    }
  }

  /** Walk backwards inside a set in which every member has a predecessor. */
  lemma {:induction false} WalkBack(passes: seq<Pass>, u: set<Pass>, n: nat) returns (walk: seq<Pass>)
    requires u != {} && forall v :: v in u ==> Preceded(passes, u, v)
    ensures |walk| == n + 1 && WalkIn(passes, u, walk)
  {
    if n == 0 {
      var v :| v in u;
      walk := [v];
    } else {
      var rest := WalkBack(passes, u, n - 1);
      assert rest[0] in u;
      var w :| w in u && Before(passes, w, rest[0]);
      Prepend(passes, u, w, rest);
      walk := [w] + rest;
    }
  }

  /** A walk longer than the set it stays in meets itself. */
  lemma Pigeonhole(u: set<Pass>, walk: seq<Pass>) returns (i: nat, j: nat)
    requires |walk| > |u| && forall k :: 0 <= k < |walk| ==> walk[k] in u
    ensures i < j < |walk| && walk[i] == walk[j]
  {
    if Distinct(walk) {
      DistinctCard(walk);
      SubsetCard((set x | x in walk), u);
      assert false;
    }
    i, j :| 0 <= i < j < |walk| && walk[i] == walk[j];
  }

  lemma PredecessorClosedCycle(passes: seq<Pass>, u: set<Pass>)
    requires u != {} && forall v :: v in u ==> Preceded(passes, u, v)
    ensures HasCycle(passes)
  {
    var walk := WalkBack(passes, u, |u|);
    var i, j := Pigeonhole(u, walk);
    CutCycle(passes, u, walk, i, j);
  }

  /** The part of a walk between two visits of one pass. */
  lemma CutCycle(passes: seq<Pass>, u: set<Pass>, walk: seq<Pass>, i: nat, j: nat)
    requires WalkIn(passes, u, walk) && i < j < |walk| && walk[i] == walk[j]
    ensures HasCycle(passes)
  {
    var cycle := walk[i..j + 1];
    forall k | 0 <= k < |cycle| - 1
      ensures Before(passes, cycle[k], cycle[k + 1])
    {
      assert Before(passes, walk[i + k], walk[i + k + 1]);
    }
    assert IsCycle(passes, cycle);
  }

  /** The sort got stuck with edges left. */
  lemma StuckMeansCycle(g: Graph, edges: seq<Edge>, ordered: seq<Pass>)
    requires Sorting(g.nodes, g.edges, edges, ordered, []) && edges != []
    requires forall u, v :: (u, v) in g.edges <==> Before(g.nodes, u, v)
    ensures HasCycle(g.nodes)
  {
    assert ordered + [] == ordered;
    var u := set n | n in g.nodes && n !in ordered;
    forall v | v in u
      ensures Preceded(g.nodes, u, v)
    {
      var i :| 0 <= i < |edges| && edges[i].1 == v;
      assert (edges[i].0, edges[i].1) in edges;
    }
    assert edges[0] in edges && (edges[0].0, edges[0].1) in g.edges;
    assert edges[0].0 in u;
    PredecessorClosedCycle(g.nodes, u);
  }

  lemma {:induction false} CountOnce<T>(s: seq<T>, x: T)
    requires Distinct(s)
    ensures multiset(s)[x] <= 1
  {
    if s != [] {
      CountOnce(s[1..], x);
      assert s == [s[0]] + s[1..];
    }
  }

  lemma OrderDistinct(passes: seq<Pass>, order: seq<Pass>)
    requires Distinct(passes) && multiset(order) == multiset(passes)
    ensures Distinct(order)
  {
    forall i, j | 0 <= i < j < |order|
      ensures order[i] != order[j]
    {
      if order[i] == order[j] {
        assert order == order[..i] + [order[i]] + order[i + 1..];
        assert order[j] in order[i + 1..];
        CountOnce(passes, order[i]);
      }
    }
  }

  /** No order of the passes is possible when there is a cycle. */
  lemma OrderMeansAcyclic(passes: seq<Pass>, order: seq<Pass>)
    requires Distinct(passes) && IsOrder(passes, order)
    ensures !HasCycle(passes)
  {
    if walk :| IsCycle(passes, walk) {
      OrderDistinct(passes, order);
      forall k | 0 <= k < |walk|
        ensures walk[k] in order
      {
        assert k < |walk| - 1 ==> Before(passes, walk[k], walk[k + 1]);
        assert k > 0 ==> Before(passes, walk[k - 1], walk[k - 1 + 1]);
        assert walk[k] in multiset(passes);
      }
      var first :| 0 <= first < |order| && order[first] == walk[0];
      var last := Climb(passes, order, walk, first, |walk| - 1);
    }
  }

  /** Along a walk, places in the order only grow. */
  lemma {:induction false} Climb(passes: seq<Pass>, order: seq<Pass>, walk: seq<Pass>, first: nat, k: nat)
      returns (at: nat)
    requires IsOrder(passes, order) && k < |walk| && first < |order| && order[first] == walk[0]
    requires forall i :: 0 <= i < |walk| - 1 ==> Before(passes, walk[i], walk[i + 1])
    requires forall i :: 0 <= i < |walk| ==> walk[i] in order
    ensures at < |order| && order[at] == walk[k] && first <= at && (k > 0 ==> first < at)
  {
    if k == 0 {
      at := first;
    } else {
      var before := Climb(passes, order, walk, first, k - 1);
      assert Before(passes, walk[k - 1], walk[k - 1 + 1]);
      at :| 0 <= at < |order| && order[at] == walk[k];
    }
  }

  // ----- the list of passes -----

  /** All nodes are ordered when no edge is left. */
  lemma SortedAll(g: Graph, ordered: seq<Pass>)
    requires Distinct(g.nodes) && Sorting(g.nodes, g.edges, [], ordered, [])
    requires forall u, v :: (u, v) in g.edges <==> Before(g.nodes, u, v)
    ensures IsOrder(g.nodes, ordered)
  {
    assert ordered + [] == ordered;
    forall n
      ensures multiset(ordered)[n] == multiset(g.nodes)[n]
    {
      CountOnce(ordered, n);
      CountOnce(g.nodes, n);
      if n in g.nodes {
        assert !Incoming([], n);
        assert n in multiset(g.nodes) && n in multiset(ordered);
      } else {
        assert n !in multiset(g.nodes) && n !in multiset(ordered);
      }
    }
    forall i, j | 0 <= i < |ordered| && 0 <= j < |ordered| && Before(g.nodes, ordered[i], ordered[j])
      ensures i < j
    {
      assert (ordered[i], ordered[j]) in g.edges;
      assert ordered[i] in ordered[..j];
      var k :| 0 <= k < j && ordered[k] == ordered[i];
    }
  }

  class PassList {
    var passes: seq<Pass>

    constructor (passes: seq<Pass>)
      ensures this.passes == passes
    {
      this.passes := passes;
    }

    /** `order!`: sort the passes in place.  It raises, and leaves the list alone, exactly when a named pass is missing or
        the dependencies are cyclic; self-dependencies count as cycles, repeated dependencies are harmless. */
    method Order() returns (error: Option<OrderError>)
      requires UniqueNames(passes)
      modifies this
      ensures error.None? <==> KnownNames(old(passes)) && !HasCycle(old(passes))
      ensures error.None? ==> IsOrder(old(passes), passes)
      ensures error.Some? ==> passes == old(passes)
      ensures error == Some(Cyclic) <==> KnownNames(old(passes)) && HasCycle(old(passes))
    {
      var built := BuildGraph(passes);
      if built.Err? {
        return Some(built.error);
      }
      var g := built.value;
      assert forall i, j :: 0 <= i < j < |passes| ==> passes[i].name != passes[j].name;
      assert Distinct(g.nodes);
      forall e | e in g.edges
        ensures e.0 in g.nodes && e.1 in g.nodes
      {
        assert (e.0, e.1) in g.edges;
      }
      var ordered, edges := TopologicalSort(g);
      if edges != [] {
        StuckMeansCycle(g, edges, ordered);
        return Some(Cyclic);
      }
      SortedAll(g, ordered);
      OrderMeansAcyclic(passes, ordered);
      passes := ordered;
      return None;
    }
  }
}
