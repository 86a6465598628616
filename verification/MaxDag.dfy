/** Greedy elimination of the nodes of a weighted graph, lightest incoming weight first (src/preprocess/max_dag.cc). */
module MaxDag {

  type WeightedGraph = seq<seq<(nat, int)>>

  ghost predicate Valid(g: WeightedGraph) {
    forall u, i :: 0 <= u < |g| && 0 <= i < |g[u]| ==> g[u][i].0 < |g|
  }

  const GOAL_MARK := 100000

  /** An arc's weight once all marks of goal targets are taken off. */
  function Reduced(weight: int): int {
    if weight < GOAL_MARK then weight else weight % GOAL_MARK
  }

  function SumTo(edges: seq<(nat, int)>, v: nat): int {
    if edges == [] then 0
    else
      var last := edges[|edges| - 1];
      SumTo(edges[..|edges| - 1], v) + if last.0 == v then last.1 else 0
  }

  function ReducedTo(edges: seq<(nat, int)>, v: nat): int {
    if edges == [] then 0
    else
      var last := edges[|edges| - 1];
      ReducedTo(edges[..|edges| - 1], v) + if last.0 == v then Reduced(last.1) else 0
  }

  function Incoming(g: WeightedGraph, v: nat): int {
    if g == [] then 0 else Incoming(g[..|g| - 1], v) + SumTo(g[|g| - 1], v)
  }

  ghost predicate InGraph(g: WeightedGraph, nodes: seq<nat>) {
    forall i :: 0 <= i < |nodes| ==> nodes[i] < |g|
  }

  /** Total incoming weight of v minus the reduced arcs that removed nodes had to v. */
  ghost function KeyAfter(g: WeightedGraph, removed: seq<nat>, v: nat): int
    requires InGraph(g, removed)
  {
    if removed == [] then Incoming(g, v)
    else
      KeyAfter(g, removed[..|removed| - 1], v) - ReducedTo(g[removed[|removed| - 1]], v)
  }

  ghost predicate IsPermutation(order: seq<nat>, n: nat) {
    && |order| == n
    && (forall i :: 0 <= i < |order| ==> order[i] < n)
    && (forall i, j :: 0 <= i < j < n ==> order[i] != order[j])
    && (forall v: nat :: v < n ==> v in order)
  }

  /** Every node is, when removed, one of least key among those that remain. */
  ghost predicate IsGreedy(g: WeightedGraph, order: seq<nat>)
    requires InGraph(g, order)
  {
    forall i, j :: 0 <= i <= j < |order| ==> KeyAfter(g, order[..i], order[i]) <= KeyAfter(g, order[..i], order[j])
  }

  // ---------- The multimap ----------

  /** Entries (key, node) in the iteration order of the multimap. */
  type Heap = seq<(int, nat)>

  ghost predicate Sorted(h: Heap) {
    forall i, j :: 0 <= i < j < |h| ==> h[i].0 <= h[j].0
  }

  /** Inserted behind all entries of the same key. */
  function Insert(h: Heap, e: (int, nat)): Heap {
    if h == [] || h[|h| - 1].0 <= e.0 then h + [e] else Insert(h[..|h| - 1], e) + [h[|h| - 1]]
  }

  function EraseNode(h: Heap, v: nat): Heap {
    if h == [] then []
    else if h[|h| - 1].1 == v then h[..|h| - 1]
    else EraseNode(h[..|h| - 1], v) + [h[|h| - 1]]
  }

  lemma {:induction false} InsertedSorted(front: Heap, r: Heap, e: (int, nat), last: (int, nat))
    requires Sorted(front + [last]) && Sorted(r) && multiset(r) == multiset(front) + multiset{e} && e.0 <= last.0
    ensures Sorted(r + [last])
  {
    forall i | 0 <= i < |r| ensures r[i].0 <= last.0 {
      assert r[i] in multiset(r);
      if r[i] != e {
        var j :| 0 <= j < |front| && front[j] == r[i];
        assert (front + [last])[j].0 <= (front + [last])[|front|].0;
      }
    }
  }

  lemma {:induction false} SortedSnoc(h: Heap, e: (int, nat))
    requires Sorted(h) && (h == [] || h[|h| - 1].0 <= e.0)
    ensures Sorted(h + [e])
  {
  }

  lemma {:induction false} InsertSpec(h: Heap, e: (int, nat))
    requires Sorted(h)
    ensures Sorted(Insert(h, e)) && multiset(Insert(h, e)) == multiset(h) + multiset{e}
  {
    hide Sorted;
    if h == [] || h[|h| - 1].0 <= e.0 {
      SortedSnoc(h, e);
    } else {
      var front, last := h[..|h| - 1], h[|h| - 1];
      assert h == front + [last] && multiset(h) == multiset(front) + multiset{last};
      SortedFront(h);
      InsertSpec(front, e);
      InsertedSorted(front, Insert(front, e), e, last);
    }
  }

  ghost predicate DistinctNodes(h: Heap) {
    forall i, j :: 0 <= i < j < |h| ==> h[i].1 != h[j].1
  }

  lemma {:induction false} EraseSpec(h: Heap, v: nat, k: int)
    requires Sorted(h) && (k, v) in h && DistinctNodes(h)
    ensures Sorted(EraseNode(h, v)) && multiset(EraseNode(h, v)) == multiset(h) - multiset{(k, v)}
  {
    hide Sorted;
    var front, last := h[..|h| - 1], h[|h| - 1];
    assert h == front + [last];
    assert multiset(h) == multiset(front) + multiset{last};
    SortedFront(h);
    if last.1 == v {
      assert last == (k, v);
    } else {
      assert (k, v) in front;
      hide DistinctNodes;
      FrontDistinct(h);
      EraseSpec(front, v, k);
      ErasedSorted(front, v, k, last);
    }
  }

  lemma {:induction false} FrontDistinct(h: Heap)
    requires DistinctNodes(h) && h != []
    ensures DistinctNodes(h[..|h| - 1])
  {
  }

  lemma {:induction false} SortedFront(h: Heap)
    requires Sorted(h) && h != []
    ensures Sorted(h[..|h| - 1])
  {
  }

  lemma {:induction false} ErasedSorted(front: Heap, v: nat, k: int, last: (int, nat))
    requires Sorted(EraseNode(front, v)) && multiset(EraseNode(front, v)) == multiset(front) - multiset{(k, v)}
    requires Sorted(front + [last])
    ensures Sorted(EraseNode(front, v) + [last])
  {
    var r := EraseNode(front, v);
    forall i | 0 <= i < |r| ensures r[i].0 <= last.0 {
      assert r[i] in multiset(r);
      var j :| 0 <= j < |front| && front[j] == r[i];
      assert (front + [last])[j].0 <= (front + [last])[|front|].0;
    }
  }

  /** The heap holds each node that is not done once, under its current key. */
  ghost predicate Holds(h: Heap, keys: seq<int>, done: set<nat>) {
    && Sorted(h)
    && (forall e: (int, nat) :: multiset(h)[e] == if e.1 < |keys| && e.1 !in done && keys[e.1] == e.0 then 1 else 0)
  }

  lemma {:induction false} HoldsEntries(h: Heap, keys: seq<int>, done: set<nat>)
    requires Holds(h, keys, done)
    ensures forall i :: 0 <= i < |h| ==> h[i].1 < |keys| && h[i].1 !in done && keys[h[i].1] == h[i].0
    ensures forall v: nat :: v < |keys| && v !in done ==> (keys[v], v) in h
    ensures DistinctNodes(h)
  {
    forall i | 0 <= i < |h| ensures h[i].1 < |keys| && h[i].1 !in done && keys[h[i].1] == h[i].0 {
      assert h[i] in multiset(h);
    }
    forall v: nat | v < |keys| && v !in done ensures (keys[v], v) in h {
      assert multiset(h)[(keys[v], v)] == 1;
    }
    forall i, j | 0 <= i < j < |h| ensures h[i].1 != h[j].1 {
      if h[i].1 == h[j].1 {
        TwiceInSeq(h, i, j);
      }
    }
  }

  lemma {:induction false} TwiceInSeq(h: Heap, i: nat, j: nat)
    requires i < j < |h| && h[i] == h[j]
    ensures multiset(h)[h[i]] >= 2
  {
    assert h == h[..j] + [h[j]] + h[j + 1..];
    assert h[i] in h[..j];
  }

  lemma {:induction false} RemoveFirst(h: Heap, keys: seq<int>, done: set<nat>)
    requires Holds(h, keys, done) && h != []
    ensures Holds(h[1..], keys, done + {h[0].1}) && h[0].1 < |keys| && h[0].1 !in done
    ensures forall v: nat :: v < |keys| && v !in done ==> keys[h[0].1] <= keys[v]
  {
    HoldsEntries(h, keys, done);
    assert h == [h[0]] + h[1..];
  }

  lemma {:induction false} Rekey(h: Heap, keys: seq<int>, done: set<nat>, v: nat, k: int)
    requires Holds(h, keys, done) && v < |keys| && v !in done
    ensures Holds(Insert(EraseNode(h, v), (k, v)), keys[v := k], done)
  {
    HoldsEntries(h, keys, done);
    EraseSpec(h, v, keys[v]);
    InsertSpec(EraseNode(h, v), (k, v));
  }

  // ---------- The algorithm ----------

  method IncomingWeights(g: WeightedGraph) returns (weights: seq<int>)
    requires Valid(g)
    ensures |weights| == |g| && forall v: nat :: v < |g| ==> weights[v] == Incoming(g, v)
  {
    weights := seq(|g|, _ => 0);
    for u := 0 to |g|
      invariant |weights| == |g| && forall v: nat :: v < |g| ==> weights[v] == Incoming(g[..u], v)
    {
      assert g[..u + 1][..u] == g[..u];
      for i := 0 to |g[u]|
        invariant |weights| == |g|
        invariant forall v: nat :: v < |g| ==> weights[v] == Incoming(g[..u], v) + SumTo(g[u][..i], v)
      {
        assert g[u][..i + 1][..i] == g[u][..i];
        var edge := g[u][i];
        weights := weights[edge.0 := weights[edge.0] + edge.1];
      }
      assert g[u][..|g[u]|] == g[u];
    }
    assert g[..|g|] == g;
  }

  /** A weight below 100000 is taken off whole, a goal arc of 100000 and its cost by the cost. */
  lemma {:induction false} OneMoreArc(edges: seq<(nat, int)>, v: nat, cost: nat)
    requires cost < 100000
    ensures ReducedTo(edges + [(v, cost)], v) == ReducedTo(edges, v) + cost
    ensures ReducedTo(edges + [(v, 100000 + cost)], v) == ReducedTo(edges, v) + cost
    ensures forall u: nat, weight: int :: u != v ==> ReducedTo(edges + [(u, weight)], v) == ReducedTo(edges, v)
  {
    forall u: nat, weight: int
      ensures ReducedTo(edges + [(u, weight)], v) == ReducedTo(edges, v) + if u == v then Reduced(weight) else 0
    {
      assert (edges + [(u, weight)])[..|edges|] == edges;
    }
  }

  method Reduce(weight: int) returns (arcWeight: int)
    ensures arcWeight == Reduced(weight) && arcWeight < 100000
  {
    arcWeight := weight;
    while arcWeight >= GOAL_MARK
      invariant Reduced(arcWeight) == Reduced(weight)
    {
      arcWeight := arcWeight - GOAL_MARK;
    }
  }

  /** Lowers the keys of the successors of a node just removed. */
  method LowerKeys(edges: seq<(nat, int)>, heap0: Heap, done: set<nat>, ghost keys0: seq<int>)
    returns (heap: Heap, ghost keys: seq<int>)
    requires Holds(heap0, keys0, done) && forall i :: 0 <= i < |edges| ==> edges[i].0 < |keys0|
    ensures Holds(heap, keys, done) && |keys| == |keys0|
    ensures forall v: nat :: v < |keys| && v !in done ==> keys[v] == keys0[v] - ReducedTo(edges, v)
  {
    heap, keys := heap0, keys0;
    for i := 0 to |edges|
      invariant Holds(heap, keys, done) && |keys| == |keys0|
      invariant forall v: nat :: v < |keys| && v !in done ==> keys[v] == keys0[v] - ReducedTo(edges[..i], v)
    {
      hide Holds;
      assert edges[..i + 1][..i] == edges[..i];
      var target := edges[i].0;
      if target !in done {
        var arcWeight := Reduce(edges[i].1);
        var key := KeyIn(heap, keys, done, target);
        var newWeight := key - arcWeight;
        Rekey(heap, keys, done, target, newWeight);
        heap := Insert(EraseNode(heap, target), (newWeight, target));
        keys := keys[target := newWeight];
      }
    }
    assert edges[..|edges|] == edges;
  }

  /** The key stored at the heap position of a node. */
  method KeyIn(heap: Heap, ghost keys: seq<int>, ghost done: set<nat>, v: nat) returns (key: int)
    requires Holds(heap, keys, done) && v < |keys| && v !in done
    ensures key == keys[v]
  {
    HoldsEntries(heap, keys, done);
    var i := 0;
    while i < |heap| && heap[i].1 != v
      invariant 0 <= i <= |heap| && forall j :: 0 <= j < i ==> heap[j].1 != v
    {
      i := i + 1;
    }
    assert (keys[v], v) in heap;
    key := heap[i].0;
  }

  method BuildHeap(weights: seq<int>) returns (heap: Heap)
    ensures Holds(heap, weights, {})
  {
    heap := [];
    for node := 0 to |weights|
      invariant Sorted(heap)
      invariant forall e: (int, nat) :: multiset(heap)[e] == if e.1 < node && weights[e.1] == e.0 then 1 else 0
    {
      InsertSpec(heap, (weights[node], node));
      heap := Insert(heap, (weights[node], node));
    }
  }

  /** Removes all nodes, always one of least current key. */
  method GetResult(g: WeightedGraph) returns (result: seq<nat>)
    requires Valid(g)
    ensures IsPermutation(result, |g|)
    ensures IsGreedy(g, result)
  {
    var weights := IncomingWeights(g);
    var heap := BuildHeap(weights);
    var done := {};
    result := [];
    ghost var keys := weights;
    while heap != []
      invariant Holds(heap, keys, done) && |keys| == |g|
      invariant forall v :: v in done <==> v in result
      invariant InGraph(g, result) && (forall i, j :: 0 <= i < j < |result| ==> result[i] != result[j])
      invariant forall v: nat :: v < |g| && v !in done ==> keys[v] == KeyAfter(g, result, v)
      invariant IsGreedySoFar(g, result)
      decreases Remaining(|g|, done)
    {
      hide Holds;
      RemoveFirst(heap, keys, done);
      var removed := heap[0].1;
      GreedyNext(g, result, removed, keys, done);
      ghost var before := result;
      assert removed in Remaining(|g|, done);
      done := done + {removed};
      result := result + [removed];
      assert result[..|result| - 1] == before;
      heap, keys := LowerKeys(g[removed], heap[1..], done, keys);
    }
    HoldsEntries(heap, keys, done);
    AllRemoved(result, |g|);
    SoFarIsGreedy(g, result);
  }

  ghost function Remaining(n: nat, done: set<nat>): set<nat> {
    set v: nat | v < n && v !in done
  }

  ghost predicate IsGreedySoFar(g: WeightedGraph, removed: seq<nat>)
    requires InGraph(g, removed)
  {
    forall i, v: nat :: 0 <= i < |removed| && v < |g| && v !in removed[..i]
      ==> KeyAfter(g, removed[..i], removed[i]) <= KeyAfter(g, removed[..i], v)
  }

  lemma {:induction false} GreedyNext(g: WeightedGraph, removed: seq<nat>, x: nat, keys: seq<int>, done: set<nat>)
    requires InGraph(g, removed) && x < |g| == |keys| && x !in done && IsGreedySoFar(g, removed)
    requires forall v :: v in done <==> v in removed
    requires forall v: nat :: v < |g| && v !in done ==> keys[v] == KeyAfter(g, removed, v) && keys[x] <= keys[v]
    ensures IsGreedySoFar(g, removed + [x])
  {
    var r := removed + [x];
    forall i, v: nat | 0 <= i < |r| && v < |g| && v !in r[..i] ensures KeyAfter(g, r[..i], r[i]) <= KeyAfter(g, r[..i], v) {
      if i == |removed| {
        assert r[..i] == removed;
      } else {
        assert r[..i] == removed[..i];
      }
    }
  }

  lemma {:induction false} SoFarIsGreedy(g: WeightedGraph, order: seq<nat>)
    requires InGraph(g, order) && IsGreedySoFar(g, order)
    requires forall i, j :: 0 <= i < j < |order| ==> order[i] != order[j]
    ensures IsGreedy(g, order)
  {
    forall i, j | 0 <= i <= j < |order| ensures KeyAfter(g, order[..i], order[i]) <= KeyAfter(g, order[..i], order[j]) {
      assert order[j] in order && order[j] !in order[..i];
    }
  }

  lemma {:induction false} AllRemoved(order: seq<nat>, n: nat)
    requires (forall i :: 0 <= i < |order| ==> order[i] < n) && (forall v: nat :: v < n ==> v in order)
    requires forall i, j :: 0 <= i < j < |order| ==> order[i] != order[j]
    ensures |order| == n
    decreases n
  {
    if n == 0 {
    } else {
      assert n - 1 in order;
      var k :| 0 <= k < |order| && order[k] == n - 1;
      var rest := order[..k] + order[k + 1..];
      forall v: nat | v < n - 1 ensures v in rest {
        assert v in order;
        var i :| 0 <= i < |order| && order[i] == v;
        assert v == rest[if i < k then i else i - 1];
      }
      forall i | 0 <= i < |rest| ensures rest[i] < n - 1 {
        assert rest[i] == order[if i < k then i else i + 1];
      }
      AllRemoved(rest, n - 1);
    }
  }
}
