/**
  The variable ordering of the causal graph (src/preprocess/causal_graph.cc:242-326).
  Variables are numbered, propositional ones first; graph[u] maps the successors of u to weights.
 */
module CausalOrder {
  import opened Digraph
  import Scc
  import MaxDag

  type WeightedGraph = seq<map<nat, nat>>

  ghost predicate ValidWeighted(w: WeightedGraph) {
    forall u, v :: 0 <= u < |w| && v in w[u] ==> v < |w|
  }

  ghost predicate IsUnweighted(w: WeightedGraph, g: Graph) {
    |g| == |w| && forall u, v: nat :: 0 <= u < |w| ==> (v in g[u] <==> v in w[u])
  }

  ghost predicate SameElements(s: seq<nat>, t: seq<nat>) {
    |s| == |t| && Scc.NoDuplicates(t) && forall v: nat :: v in s <==> v in t
  }

  function Concat(blocks: seq<seq<nat>>): seq<nat> {
    if blocks == [] then [] else Concat(blocks[..|blocks| - 1]) + blocks[|blocks| - 1]
  }

  // ---------- Keys inside a component ----------

  /** What the arc u -> v adds to the key of v: arcs to goals are listed twice, once with a mark. */
  function ArcIn(w: WeightedGraph, goals: set<nat>, u: nat, v: nat): int {
    if u < |w| && v in w[u] then w[u][v] + if v in goals then MaxDag.GOAL_MARK + w[u][v] else 0 else 0
  }

  /** What removing u takes off the key of v. */
  function ArcOff(w: WeightedGraph, goals: set<nat>, u: nat, v: nat): int {
    if u < |w| && v in w[u] then
      MaxDag.Reduced(w[u][v]) + if v in goals then MaxDag.Reduced(MaxDag.GOAL_MARK + w[u][v]) else 0
    else 0
  }

  function TotalIn(w: WeightedGraph, goals: set<nat>, comp: seq<nat>, v: nat): int {
    if comp == [] then 0 else TotalIn(w, goals, comp[..|comp| - 1], v) + ArcIn(w, goals, comp[|comp| - 1], v)
  }

  function TotalOff(w: WeightedGraph, goals: set<nat>, removed: seq<nat>, v: nat): int {
    if removed == [] then 0
    else TotalOff(w, goals, removed[..|removed| - 1], v) + ArcOff(w, goals, removed[|removed| - 1], v)
  }

  /** Inside a component the next variable has the least remaining incoming weight. */
  ghost predicate IsGreedyBlock(w: WeightedGraph, goals: set<nat>, comp: seq<nat>, block: seq<nat>) {
    forall i, j :: 0 <= i <= j < |block| ==>
      TotalIn(w, goals, comp, block[i]) - TotalOff(w, goals, block[..i], block[i])
      <= TotalIn(w, goals, comp, block[j]) - TotalOff(w, goals, block[..i], block[j])
  }

  // ---------- The subgraph of a component ----------

  /** The edges stored for u after the successors in `seen` were visited. */
  ghost predicate EdgesFor(w: WeightedGraph, goals: set<nat>, comp: seq<nat>, u: nat, seen: set<nat>, edges: seq<(nat, int)>) {
    && (forall i :: 0 <= i < |edges| ==> edges[i].0 < |comp|)
    && (forall j :: 0 <= j < |comp| ==>
          MaxDag.SumTo(edges, j) == if comp[j] in seen then ArcIn(w, goals, u, comp[j]) else 0)
    && (forall j :: 0 <= j < |comp| ==>
          MaxDag.ReducedTo(edges, j) == if comp[j] in seen then ArcOff(w, goals, u, comp[j]) else 0)
  }

  lemma {:induction false} OneMoreEdge(edges: seq<(nat, int)>, e: (nat, int), v: nat)
    ensures MaxDag.SumTo(edges + [e], v) == MaxDag.SumTo(edges, v) + if e.0 == v then e.1 else 0
    ensures MaxDag.ReducedTo(edges + [e], v) == MaxDag.ReducedTo(edges, v) + if e.0 == v then MaxDag.Reduced(e.1) else 0
  {
    assert (edges + [e])[..|edges|] == edges;
  }

  method SuccessorEdges(w: WeightedGraph, goals: set<nat>, comp: seq<nat>, variableToIndex: map<nat, nat>, u: nat)
    returns (edges: seq<(nat, int)>)
    requires u < |w| && Scc.NoDuplicates(comp)
    requires forall j :: 0 <= j < |comp| ==> comp[j] in variableToIndex && variableToIndex[comp[j]] == j
    requires forall v :: v in variableToIndex ==> variableToIndex[v] < |comp| && comp[variableToIndex[v]] == v
    ensures EdgesFor(w, goals, comp, u, w[u].Keys, edges)
  {
    edges := [];
    var todo := w[u].Keys;
    while todo != {}
      invariant todo <= w[u].Keys && EdgesFor(w, goals, comp, u, w[u].Keys - todo, edges)
      decreases todo
    {
      var target :| target in todo;
      var cost := w[u][target];
      ghost var edges0 := edges;
      if target in variableToIndex {
        var index := variableToIndex[target];
        if target in goals {
          edges := edges + [(index, MaxDag.GOAL_MARK + cost)];
        }
        edges := edges + [(index, cost)];
      }
      VisitTarget(w, goals, comp, variableToIndex, u, w[u].Keys - todo, edges0, target, edges);
      assert w[u].Keys - todo + {target} == w[u].Keys - (todo - {target});
      todo := todo - {target};
    }
    assert w[u].Keys - todo == w[u].Keys;
  }

  lemma {:induction false} VisitTarget(w: WeightedGraph, goals: set<nat>, comp: seq<nat>, variableToIndex: map<nat, nat>,
                                       u: nat, seen: set<nat>, edges: seq<(nat, int)>, target: nat, edges': seq<(nat, int)>)
    requires u < |w| && target in w[u] && target !in seen && EdgesFor(w, goals, comp, u, seen, edges) && Scc.NoDuplicates(comp)
    requires forall j :: 0 <= j < |comp| ==> comp[j] in variableToIndex && variableToIndex[comp[j]] == j
    requires forall v :: v in variableToIndex ==> variableToIndex[v] < |comp| && comp[variableToIndex[v]] == v
    requires edges' == if target !in variableToIndex then edges
      else (if target in goals then edges + [(variableToIndex[target], MaxDag.GOAL_MARK + w[u][target])] else edges)
           + [(variableToIndex[target], w[u][target])]
    ensures EdgesFor(w, goals, comp, u, seen + {target}, edges')
  {
    if target in variableToIndex {
      var index := variableToIndex[target];
      var mid := if target in goals then edges + [(index, MaxDag.GOAL_MARK + w[u][target])] else edges;
      forall j: nat | j < |comp|
        ensures MaxDag.SumTo(edges', j) == MaxDag.SumTo(edges, j) + if j == index then ArcIn(w, goals, u, target) else 0
        ensures MaxDag.ReducedTo(edges', j) == MaxDag.ReducedTo(edges, j) + if j == index then ArcOff(w, goals, u, target) else 0
      {
        OneMoreEdge(edges, (index, MaxDag.GOAL_MARK + w[u][target]), j);
        OneMoreEdge(mid, (index, w[u][target]), j);
      }
    }
  }

  /** The graph induced by a component, in the numbering of the component. */
  ghost predicate IsSubgraph(w: WeightedGraph, goals: set<nat>, comp: seq<nat>, sub: MaxDag.WeightedGraph) {
    && |sub| == |comp| && MaxDag.Valid(sub)
    && forall i: nat, j: nat :: i < |comp| && j < |comp| ==>
         && MaxDag.SumTo(sub[i], j) == ArcIn(w, goals, comp[i], comp[j])
         && MaxDag.ReducedTo(sub[i], j) == ArcOff(w, goals, comp[i], comp[j])
  }

  method Subgraph(w: WeightedGraph, goals: set<nat>, comp: seq<nat>) returns (sub: MaxDag.WeightedGraph)
    requires Scc.NoDuplicates(comp) && forall i :: 0 <= i < |comp| ==> comp[i] < |w|
    ensures IsSubgraph(w, goals, comp, sub)
  {
    var variableToIndex: map<nat, nat> := map[];
    for i := 0 to |comp|
      invariant forall j :: 0 <= j < i ==> comp[j] in variableToIndex && variableToIndex[comp[j]] == j
      invariant forall v :: v in variableToIndex ==> variableToIndex[v] < i && comp[variableToIndex[v]] == v
    {
      variableToIndex := variableToIndex[comp[i] := i];
    }
    sub := [];
    for i := 0 to |comp|
      invariant |sub| == i
      invariant forall k :: 0 <= k < i ==> EdgesFor(w, goals, comp, comp[k], w[comp[k]].Keys, sub[k])
    {
      var edges := SuccessorEdges(w, goals, comp, variableToIndex, comp[i]);
      sub := sub + [edges];
    }
    EdgesMakeSubgraph(w, goals, comp, sub);
  }

  lemma {:induction false} EdgesMakeSubgraph(w: WeightedGraph, goals: set<nat>, comp: seq<nat>, sub: MaxDag.WeightedGraph)
    requires |sub| == |comp| && forall i :: 0 <= i < |comp| ==> comp[i] < |w|
    requires forall k :: 0 <= k < |comp| ==> EdgesFor(w, goals, comp, comp[k], w[comp[k]].Keys, sub[k])
    ensures IsSubgraph(w, goals, comp, sub)
  {
    forall i: nat, j: nat | i < |comp| && j < |comp|
      ensures MaxDag.SumTo(sub[i], j) == ArcIn(w, goals, comp[i], comp[j])
      ensures MaxDag.ReducedTo(sub[i], j) == ArcOff(w, goals, comp[i], comp[j])
    {
      assert EdgesFor(w, goals, comp, comp[i], w[comp[i]].Keys, sub[i]);
    }
    forall u, i | 0 <= u < |sub| && 0 <= i < |sub[u]| ensures sub[u][i].0 < |sub| {
      assert EdgesFor(w, goals, comp, comp[u], w[comp[u]].Keys, sub[u]);
    }
  }

  // ---------- From node numbers back to variables ----------

  function Renamed(comp: seq<nat>, order: seq<nat>): (block: seq<nat>)
    requires forall i :: 0 <= i < |order| ==> order[i] < |comp|
    ensures |block| == |order| && forall i :: 0 <= i < |order| ==> block[i] == comp[order[i]]
  {
    seq(|order|, i requires 0 <= i < |order| => comp[order[i]])
  }

  lemma {:induction false} IncomingIsTotal(w: WeightedGraph, goals: set<nat>, comp: seq<nat>, sub: MaxDag.WeightedGraph, n: nat, j: nat)
    requires IsSubgraph(w, goals, comp, sub) && n <= |comp| && j < |comp|
    ensures MaxDag.Incoming(sub[..n], j) == TotalIn(w, goals, comp[..n], comp[j])
  {
    if n > 0 {
      IncomingIsTotal(w, goals, comp, sub, n - 1, j);
      assert sub[..n][..n - 1] == sub[..n - 1] && comp[..n][..n - 1] == comp[..n - 1];
    }
  }

  lemma {:induction false} KeyIsRemaining(w: WeightedGraph, goals: set<nat>, comp: seq<nat>, sub: MaxDag.WeightedGraph,
                                          removed: seq<nat>, j: nat)
    requires IsSubgraph(w, goals, comp, sub) && MaxDag.InGraph(sub, removed) && j < |comp|
    ensures MaxDag.KeyAfter(sub, removed, j)
         == TotalIn(w, goals, comp, comp[j]) - TotalOff(w, goals, Renamed(comp, removed), comp[j])
    decreases |removed|
  {
    if removed == [] {
      IncomingIsTotal(w, goals, comp, sub, |comp|, j);
      assert sub[..|comp|] == sub && comp[..|comp|] == comp;
    } else {
      var front := removed[..|removed| - 1];
      KeyIsRemaining(w, goals, comp, sub, front, j);
      var last := removed[|removed| - 1];
      assert Renamed(comp, removed) == Renamed(comp, front) + [comp[last]];
      assert Renamed(comp, removed)[..|front|] == Renamed(comp, front);
      assert MaxDag.ReducedTo(sub[last], j) == ArcOff(w, goals, comp[last], comp[j]);
    }
  }

  lemma {:induction false} RenamedBlock(w: WeightedGraph, goals: set<nat>, comp: seq<nat>, sub: MaxDag.WeightedGraph, order: seq<nat>)
    requires IsSubgraph(w, goals, comp, sub) && Scc.NoDuplicates(comp)
    requires MaxDag.IsPermutation(order, |comp|) && MaxDag.IsGreedy(sub, order)
    ensures SameElements(comp, Renamed(comp, order)) && IsGreedyBlock(w, goals, comp, Renamed(comp, order))
  {
    var block := Renamed(comp, order);
    forall v: nat ensures v in comp <==> v in block {
      if v in comp {
        var k :| 0 <= k < |comp| && comp[k] == v;
        assert k in order;
        var i :| 0 <= i < |order| && order[i] == k;
        assert block[i] == v;
      }
    }
    forall i, j | 0 <= i <= j < |block|
      ensures TotalIn(w, goals, comp, block[i]) - TotalOff(w, goals, block[..i], block[i])
        <= TotalIn(w, goals, comp, block[j]) - TotalOff(w, goals, block[..i], block[j])
    {
      assert Renamed(comp, order[..i]) == block[..i];
      KeyIsRemaining(w, goals, comp, sub, order[..i], order[i]);
      KeyIsRemaining(w, goals, comp, sub, order[..i], order[j]);
    }
  }

  // ---------- The ordering ----------

  method Unweighted(w: WeightedGraph) returns (g: Graph)
    ensures IsUnweighted(w, g)
  {
    g := [];
    for u := 0 to |w|
      invariant |g| == u && forall x, v: nat :: 0 <= x < u ==> (v in g[x] <==> v in w[x])
    {
      var succ := [];
      var todo := w[u].Keys;
      while todo != {}
        invariant todo <= w[u].Keys && forall v: nat :: v in succ <==> v in w[u].Keys - todo
        decreases todo
      {
        var v :| v in todo;
        succ, todo := succ + [v], todo - {v};
      }
      g := g + [succ];
    }
  }

  /** Each block lists one strong component, greedily ordered. */
  ghost predicate AreBlocks(w: WeightedGraph, goals: set<nat>, comps: seq<seq<nat>>, blocks: seq<seq<nat>>) {
    |blocks| == |comps|
    && forall i :: 0 <= i < |blocks| ==> SameElements(comps[i], blocks[i]) && IsGreedyBlock(w, goals, comps[i], blocks[i])
  }

  method OrderComponent(w: WeightedGraph, goals: set<nat>, comp: seq<nat>) returns (block: seq<nat>)
    requires comp != [] && Scc.NoDuplicates(comp) && forall i :: 0 <= i < |comp| ==> comp[i] < |w|
    ensures SameElements(comp, block) && IsGreedyBlock(w, goals, comp, block)
  {
    if |comp| > 1 {
      var sub := Subgraph(w, goals, comp);
      var order := MaxDag.GetResult(sub);
      RenamedBlock(w, goals, comp, sub, order);
      block := [];
      for i := 0 to |order|
        invariant block == Renamed(comp, order)[..i]
      {
        block := block + [comp[order[i]]];
      }
      assert block == Renamed(comp, order);
    } else {
      block := [comp[0]];
    }
  }

  /**
    The ordering concatenates the strong components in topological order, each one greedily ordered by remaining incoming
    weight.
   */
  method PseudoSort(w: WeightedGraph, goals: set<nat>)
    returns (ordering: seq<nat>, ghost g: Graph, ghost comps: seq<seq<nat>>, ghost blocks: seq<seq<nat>>)
    requires ValidWeighted(w)
    ensures IsUnweighted(w, g)
    ensures Scc.IsPartition(g, comps) && Scc.AreStrongComponents(g, comps) && Scc.TopologicallySorted(g, comps)
    ensures AreBlocks(w, goals, comps, blocks) && ordering == Concat(blocks)
    ensures IsPseudoTopological(w, g, ordering)
  {
    hide IsGreedyBlock, Scc.AreStrongComponents, Scc.TopologicallySorted;
    var graph := Unweighted(w);
    assert forall u, i :: 0 <= u < |graph| && 0 <= i < |graph[u]| ==> graph[u][i] in graph[u];
    var scc := new Scc.SCC(graph);
    var sccs := scc.GetResult();
    g, comps, blocks, ordering := graph, sccs, [], [];
    for i := 0 to |sccs|
      invariant |blocks| == i && ordering == Concat(blocks)
      invariant forall k :: 0 <= k < i ==> SameElements(sccs[k], blocks[k]) && IsGreedyBlock(w, goals, sccs[k], blocks[k])
    {
      assert forall k :: 0 <= k < |sccs[i]| ==> sccs[i][k] in sccs[i];
      var block := OrderComponent(w, goals, sccs[i]);
      ordering := ordering + block;
      assert (blocks + [block])[..i] == blocks;
      blocks := blocks + [block];
    }
    BlocksArePseudoTopological(w, g, goals, comps, blocks);
  }

  /** A permutation of the variables; an edge backwards stays inside a component, and components are contiguous. */
  ghost predicate IsPseudoTopological(w: WeightedGraph, g: Graph, ordering: seq<nat>) {
    && MaxDag.IsPermutation(ordering, |w|)
    && (forall i, j :: 0 <= i < j < |ordering| && Edge(g, ordering[j], ordering[i]) ==> Mutual(g, ordering[i], ordering[j]))
    && (forall i, k, j :: 0 <= i < k < j < |ordering| && Mutual(g, ordering[i], ordering[j]) ==> Mutual(g, ordering[i], ordering[k]))
  }

  ghost predicate Mutual(g: Graph, u: nat, v: nat) {
    Reach(g, u, v) && Reach(g, v, u)
  }

  /** The block a position of the concatenation lies in. */
  ghost function BlockAt(blocks: seq<seq<nat>>, p: nat): (b: nat)
    requires p < |Concat(blocks)|
    ensures b < |blocks| && Concat(blocks)[p] in blocks[b]
  {
    var front := blocks[..|blocks| - 1];
    if p < |Concat(front)| then BlockAt(front, p)
    else
      assert Concat(blocks)[p] == blocks[|blocks| - 1][p - |Concat(front)|];
      |blocks| - 1
  }

  lemma {:induction false} BlocksAreOrdered(blocks: seq<seq<nat>>, p: nat, q: nat)
    requires p <= q < |Concat(blocks)|
    ensures BlockAt(blocks, p) <= BlockAt(blocks, q)
  {
    var front := blocks[..|blocks| - 1];
    if q < |Concat(front)| {
      BlocksAreOrdered(front, p, q);
    }
  }

  lemma {:induction false} ConcatContains(blocks: seq<seq<nat>>, b: nat, v: nat)
    requires b < |blocks| && v in blocks[b]
    ensures v in Concat(blocks)
  {
    var front := blocks[..|blocks| - 1];
    if b < |blocks| - 1 {
      assert front[b] == blocks[b];
      ConcatContains(front, b, v);
    }
  }

  ghost predicate DisjointBlocks(blocks: seq<seq<nat>>) {
    && (forall i :: 0 <= i < |blocks| ==> Scc.NoDuplicates(blocks[i]))
    && (forall i, j, v :: 0 <= i < j < |blocks| && v in blocks[i] ==> v !in blocks[j])
  }

  lemma {:induction false} ConcatDistinct(blocks: seq<seq<nat>>)
    requires DisjointBlocks(blocks)
    ensures Scc.NoDuplicates(Concat(blocks))
  {
    if blocks != [] {
      var front, last := blocks[..|blocks| - 1], blocks[|blocks| - 1];
      ConcatDistinct(front);
      forall p | 0 <= p < |Concat(front)| ensures Concat(front)[p] !in last {
        var b := BlockAt(front, p);
        assert front[b] == blocks[b];
      }
    }
  }

  lemma {:induction false} BlocksArePseudoTopological(w: WeightedGraph, g: Graph, goals: set<nat>, comps: seq<seq<nat>>, blocks: seq<seq<nat>>)
    requires IsUnweighted(w, g) && AreBlocks(w, goals, comps, blocks)
    requires Scc.IsPartition(g, comps) && Scc.AreStrongComponents(g, comps) && Scc.TopologicallySorted(g, comps)
    ensures IsPseudoTopological(w, g, Concat(blocks))
  {
    var ordering := Concat(blocks);
    BlocksPermute(w, g, goals, comps, blocks);
    hide AreBlocks, Scc.IsPartition, Scc.AreStrongComponents, Scc.TopologicallySorted, MaxDag.IsPermutation, Mutual, Edge;
    forall i, j | 0 <= i < j < |ordering| && Edge(g, ordering[j], ordering[i]) ensures Mutual(g, ordering[i], ordering[j]) {
      BlocksAreOrdered(blocks, i, j);
      BlockMeansComponent(w, g, goals, comps, blocks, i, j);
    }
    forall i, k, j | 0 <= i < k < j < |ordering| && Mutual(g, ordering[i], ordering[j]) ensures Mutual(g, ordering[i], ordering[k]) {
      BlocksAreOrdered(blocks, i, k);
      BlocksAreOrdered(blocks, k, j);
      BlockMeansComponent(w, g, goals, comps, blocks, i, j);
      BlockMeansComponent(w, g, goals, comps, blocks, i, k);
    }
  }

  lemma {:induction false} BlockMeansComponent(w: WeightedGraph, g: Graph, goals: set<nat>, comps: seq<seq<nat>>, blocks: seq<seq<nat>>,
                                               i: nat, j: nat)
    requires AreBlocks(w, goals, comps, blocks) && i < |Concat(blocks)| && j < |Concat(blocks)|
    requires Scc.IsPartition(g, comps) && Scc.AreStrongComponents(g, comps) && Scc.TopologicallySorted(g, comps)
    ensures BlockAt(blocks, i) == BlockAt(blocks, j) <==> Mutual(g, Concat(blocks)[i], Concat(blocks)[j])
    ensures Edge(g, Concat(blocks)[j], Concat(blocks)[i]) ==> BlockAt(blocks, j) <= BlockAt(blocks, i)
  {
    hide IsGreedyBlock;
    assert Concat(blocks)[i] in comps[BlockAt(blocks, i)] && Concat(blocks)[j] in comps[BlockAt(blocks, j)];
  }

  lemma {:induction false} BlocksPermute(w: WeightedGraph, g: Graph, goals: set<nat>, comps: seq<seq<nat>>, blocks: seq<seq<nat>>)
    requires |g| == |w| && AreBlocks(w, goals, comps, blocks) && Scc.IsPartition(g, comps)
    ensures MaxDag.IsPermutation(Concat(blocks), |w|)
  {
    var ordering := Concat(blocks);
    forall i, j, v | 0 <= i < j < |blocks| && v in blocks[i] ensures v !in blocks[j] {
      assert v in comps[i];
    }
    ConcatDistinct(blocks);
    forall p | 0 <= p < |ordering| ensures ordering[p] < |w| {
      assert ordering[p] in comps[BlockAt(blocks, p)];
    }
    forall v: nat | v < |w| ensures v in ordering {
      assert Scc.InSome(comps, v);
      var i :| 0 <= i < |comps| && v in comps[i];
      ConcatContains(blocks, i, v);
    }
    MaxDag.AllRemoved(ordering, |w|);
  }
}
