/**
  Tarjan's algorithm (src/preprocess/scc.cc).

  The class keeps the source's fields.  Proof steps are lemmas about `Search` values, snapshots of those
  fields extended with the component number of every finished vertex.
 */
module Scc {
  import opened Digraph

  datatype Search = Search(
    dfn: seq<int>,
    low: seq<int>,
    pos: seq<int>,
    stack: seq<nat>,
    sccs: seq<seq<nat>>,
    next: int,
    comp: seq<int>)

  // ---------- What the result means ----------

  ghost predicate NoDuplicates(s: seq<nat>) {
    forall i, j :: 0 <= i < j < |s| ==> s[i] != s[j]
  }

  ghost predicate InSome(cs: seq<seq<nat>>, v: nat) {
    exists i :: 0 <= i < |cs| && v in cs[i]
  }

  /** Every vertex lies in exactly one component, at exactly one place. */
  ghost predicate IsPartition(g: Graph, cs: seq<seq<nat>>) {
    && (forall i :: 0 <= i < |cs| ==> cs[i] != [] && NoDuplicates(cs[i]))
    && (forall i, v :: 0 <= i < |cs| && v in cs[i] ==> v < |g|)
    && (forall v: nat :: v < |g| ==> InSome(cs, v))
    && (forall i, j, v :: 0 <= i < |cs| && 0 <= j < |cs| && v in cs[i] && v in cs[j] ==> i == j)
  }

  /** Two vertices share a component exactly when each reaches the other. */
  ghost predicate AreStrongComponents(g: Graph, cs: seq<seq<nat>>) {
    forall i, j, u, v :: 0 <= i < |cs| && 0 <= j < |cs| && u in cs[i] && v in cs[j]
      ==> (i == j <==> Reach(g, u, v) && Reach(g, v, u))
  }

  /** Edges never lead to an earlier component. */
  ghost predicate TopologicallySorted(g: Graph, cs: seq<seq<nat>>) {
    forall i, j, u, v :: 0 <= i < |cs| && 0 <= j < |cs| && u in cs[i] && v in cs[j] && Edge(g, u, v) ==> i <= j
  }

  /** The order in which components are finished. */
  ghost predicate BackwardSorted(g: Graph, cs: seq<seq<nat>>) {
    forall i, j, u, v :: 0 <= i < |cs| && 0 <= j < |cs| && u in cs[i] && v in cs[j] && Edge(g, u, v) ==> j <= i
  }

  // ---------- Invariant ----------

  ghost predicate Sized(g: Graph, s: Search) {
    |s.dfn| == |s.low| == |s.pos| == |s.comp| == |g|
  }

  ghost predicate WellFormed(g: Graph, s: Search) {
    && Sized(g, s)
    && 0 <= s.next
    && (forall v :: 0 <= v < |g| ==> -1 <= s.dfn[v] < s.next)
    && (forall k :: 0 <= k < |s.stack| ==> s.stack[k] < |g| && s.pos[s.stack[k]] == k && s.dfn[s.stack[k]] >= 0)
    && (forall v :: 0 <= v < |g| && s.pos[v] != -1 ==> 0 <= s.pos[v] < |s.stack| && s.stack[s.pos[v]] == v)
    && (forall k, l :: 0 <= k < l < |s.stack| ==> s.dfn[s.stack[k]] < s.dfn[s.stack[l]])
  }

  /** Finished vertices form strong components, numbered so that edges lead to equal or smaller numbers. */
  ghost predicate Finished(g: Graph, s: Search)
    requires WellFormed(g, s)
  {
    && (forall v :: 0 <= v < |g| ==> -1 <= s.comp[v] < |s.sccs|)
    && (forall v :: 0 <= v < |g| ==> (s.comp[v] != -1 <==> s.dfn[v] >= 0 && s.pos[v] == -1))
    && (forall i :: 0 <= i < |s.sccs| ==> s.sccs[i] != [] && NoDuplicates(s.sccs[i]))
    && (forall i, v {:trigger v in s.sccs[i]} :: 0 <= i < |s.sccs| && v in s.sccs[i] ==> v < |g| && s.comp[v] == i)
    && (forall v: nat :: v < |g| && s.comp[v] != -1 ==> v in s.sccs[s.comp[v]])
    && (forall u, v :: 0 <= u < |g| && 0 <= v < |g| && s.comp[u] == s.comp[v] != -1 ==> Reach(g, u, v))
    && (forall u: nat, v: nat :: Edge(g, u, v) && v < |g| && s.comp[u] != -1 ==> s.comp[v] != -1 && s.comp[v] <= s.comp[u])
  }

  /** gray: the vertices whose dfs call is still running.  Only they may have unvisited successors. */
  ghost predicate Coloured(g: Graph, s: Search, gray: set<nat>)
    requires WellFormed(g, s)
  {
    && (forall u :: u in gray ==> u < |g| && s.pos[u] != -1)
    && (forall u: nat, v: nat :: Edge(g, u, v) && v < |g| && s.dfn[u] >= 0 && u !in gray ==> s.dfn[v] >= 0)
  }

  ghost predicate ReachesGray(g: Graph, s: Search, gray: set<nat>, k: nat)
    requires k < |s.stack|
  {
    exists j :: 0 <= j <= k && s.stack[j] in gray && Reach(g, s.stack[k], s.stack[j])
  }

  /** Stack order is reachability order, and every stack entry reaches a running call at or below it. */
  ghost predicate Linked(g: Graph, s: Search, gray: set<nat>) {
    && (forall k, l :: 0 <= k <= l < |s.stack| ==> Reach(g, s.stack[k], s.stack[l]))
    && (forall k :: 0 <= k < |s.stack| ==> ReachesGray(g, s, gray, k))
  }

  ghost predicate Inv(g: Graph, s: Search, gray: set<nat>) {
    && WellFormed(g, s)
    && Finished(g, s)
    && Coloured(g, s, gray)
    && Linked(g, s, gray)
  }

  // ---------- What one call does ----------

  /** s1 extends s0: visited vertices keep their numbers, stack and component list only grow. */
  ghost predicate Extends(g: Graph, s0: Search, s1: Search)
    requires WellFormed(g, s0) && WellFormed(g, s1)
  {
    && s0.stack <= s1.stack
    && s0.next <= s1.next
    && s0.sccs <= s1.sccs
    && (forall v :: 0 <= v < |g| && s0.dfn[v] >= 0 ==> s1.dfn[v] == s0.dfn[v] && s1.low[v] == s0.low[v])
    && (forall v :: 0 <= v < |g| && s0.dfn[v] == -1 && s1.dfn[v] >= 0 ==> s1.dfn[v] >= s0.next)
    && (forall v :: 0 <= v < |g| && s0.comp[v] != -1 ==> s1.comp[v] == s0.comp[v])
  }

  /** Stack entries from position `from` on have no edge to old entries numbered below m. */
  ghost predicate NoEdgeBelow(g: Graph, s0: Search, s1: Search, from: nat, m: int)
    requires WellFormed(g, s0) && WellFormed(g, s1)
  {
    forall k, j :: from <= k < |s1.stack| && 0 <= j < |s0.stack| && Edge(g, s1.stack[k], s0.stack[j])
      ==> m <= s0.dfn[s0.stack[j]]
  }

  /** What dfs(v) leaves behind: v popped with its component, or low(v) names an older stack entry it reaches. */
  ghost predicate Returned(g: Graph, s0: Search, s1: Search, v: nat)
    requires WellFormed(g, s0) && WellFormed(g, s1) && v < |g|
  {
    && s1.dfn[v] >= s0.next
    && NoEdgeBelow(g, s0, s1, |s0.stack|, s1.low[v])
    && (|| (s1.stack == s0.stack && s1.low[v] == s1.dfn[v])
        || exists k :: 0 <= k < |s0.stack| && s0.dfn[s0.stack[k]] == s1.low[v] && Reach(g, v, s0.stack[k]))
  }

  /** The state inside dfs(v) after the first i successors. */
  ghost predicate InLoop(g: Graph, s0: Search, s: Search, v: nat, i: nat, w: nat)
    requires WellFormed(g, s0) && WellFormed(g, s) && v < |g| && i <= |g[v]|
  {
    && Extends(g, s0, s)
    && s0.dfn[v] == -1 && s.dfn[v] == s0.next
    && |s0.stack| < |s.stack| && s.stack[|s0.stack|] == v
    && w <= |s0.stack| && s.dfn[s.stack[w]] == s.low[v] && Reach(g, v, s.stack[w])
    && NoEdgeBelow(g, s0, s, |s0.stack| + 1, s.low[v])
    && (forall t :: 0 <= t < i ==> g[v][t] < |g| && s.dfn[g[v][t]] >= 0)
    && (forall t, j :: 0 <= t < i && 0 <= j < |s0.stack| && g[v][t] == s0.stack[j] ==> s.low[v] <= s0.dfn[s0.stack[j]])
  }

  ghost function Pushed(s: Search, v: nat): Search
    requires v < |s.dfn| && v < |s.low| && v < |s.pos|
  {
    s.(dfn := s.dfn[v := s.next], low := s.low[v := s.next], pos := s.pos[v := |s.stack|],
       stack := s.stack + [v], next := s.next + 1)
  }

  ghost function Lowered(s: Search, v: nat, m: int): Search
    requires v < |s.low|
  {
    s.(low := s.low[v := if m < s.low[v] then m else s.low[v]])
  }

  ghost predicate IsPopped(g: Graph, s: Search, s1: Search, from: nat)
    requires WellFormed(g, s) && from <= |s.stack|
  {
    && s1.dfn == s.dfn && s1.low == s.low && s1.next == s.next
    && s1.stack == s.stack[..from]
    && s1.sccs == s.sccs + [s.stack[from..]]
    && |s1.pos| == |s1.comp| == |g|
    && (forall v :: 0 <= v < |g| ==> s1.pos[v] == if s.pos[v] >= from then -1 else s.pos[v])
    && (forall v :: 0 <= v < |g| ==> s1.comp[v] == if s.pos[v] >= from then |s.sccs| else s.comp[v])
  }

  // ---------- Proof steps ----------

  lemma Sizes(g: Graph, s: Search)
    requires WellFormed(g, s)
    ensures Sized(g, s) && (forall v :: 0 <= v < |g| ==> s.pos[v] >= -1)
  {
  }

  lemma AllReach(g: Graph, s: Search, gray: set<nat>, v: nat, k: nat)
    requires Linked(g, s, gray) && k < |s.stack|
    requires forall u :: u in gray ==> Reach(g, u, v)
    ensures Reach(g, s.stack[k], v)
  {
    assert ReachesGray(g, s, gray, k);
    var j :| 0 <= j <= k && s.stack[j] in gray && Reach(g, s.stack[k], s.stack[j]);
    ReachTrans(g, s.stack[k], s.stack[j], v);
  }

  lemma PushKeepsLinked(g: Graph, s: Search, gray: set<nat>, v: nat)
    requires Inv(g, s, gray) && v < |g| && s.dfn[v] == -1
    requires forall u :: u in gray ==> Reach(g, u, v)
    ensures Linked(g, Pushed(s, v), gray + {v})
  {
    var p := Pushed(s, v);
    ReachSelf(g, v);
    forall k | 0 <= k < |s.stack| ensures Reach(g, s.stack[k], v) {
      AllReach(g, s, gray, v, k);
    }
    forall k | 0 <= k < |p.stack| ensures ReachesGray(g, p, gray + {v}, k) {
      if k < |s.stack| {
        assert ReachesGray(g, s, gray, k);
        var j :| 0 <= j <= k && s.stack[j] in gray && Reach(g, s.stack[k], s.stack[j]);
        assert p.stack[j] == s.stack[j];
      } else {
        assert p.stack[k] == v;
      }
    }
  }

  lemma PushKeepsFinished(g: Graph, s: Search, gray: set<nat>, v: nat)
    requires Valid(g) && WellFormed(g, s) && Finished(g, s) && Coloured(g, s, gray) && v < |g| && s.dfn[v] == -1
    ensures WellFormed(g, Pushed(s, v)) && Finished(g, Pushed(s, v)) && Coloured(g, Pushed(s, v), gray + {v})
  {
    var p := Pushed(s, v);
    assert s.pos[v] == -1;
    forall x: nat, y: nat | Edge(g, x, y) && y < |g| && p.dfn[x] >= 0 && x !in gray + {v} ensures p.dfn[y] >= 0 {
      assert x != v;
      assert s.dfn[y] >= 0;
    }
  }

  lemma PushKeepsInv(g: Graph, s: Search, gray: set<nat>, v: nat)
    requires Valid(g) && Inv(g, s, gray) && v < |g| && s.dfn[v] == -1
    requires forall u :: u in gray ==> Reach(g, u, v)
    ensures Sized(g, Pushed(s, v)) && WellFormed(g, Pushed(s, v)) && Inv(g, Pushed(s, v), gray + {v})
    ensures InLoop(g, s, Pushed(s, v), v, 0, |s.stack|)
  {
    hide Linked, Finished;
    PushKeepsLinked(g, s, gray, v);
    PushKeepsFinished(g, s, gray, v);
    ReachSelf(g, v);
  }

  lemma LoweredKeepsInv(g: Graph, s: Search, gray: set<nat>, v: nat, m: int)
    requires Inv(g, s, gray) && v < |g|
    ensures Inv(g, Lowered(s, v, m), gray)
  {
    var p := Lowered(s, v, m);
    forall k | 0 <= k < |p.stack| ensures ReachesGray(g, p, gray, k) {
      assert ReachesGray(g, s, gray, k);
    }
  }

  ghost function Seen(s: Search, v: nat, x: nat): Search
    requires v < |s.dfn| && v < |s.low| && x < |s.dfn| && x < |s.pos|
  {
    if s.dfn[x] < s.dfn[v] && s.pos[x] != -1 then Lowered(s, v, s.dfn[x]) else s
  }

  lemma LoweredInLoop(g: Graph, s0: Search, s: Search, v: nat, i: nat, w: nat, m: int, w': nat)
    requires WellFormed(g, s0) && WellFormed(g, s) && v < |g| && i <= |g[v]|
    requires InLoop(g, s0, s, v, i, w)
    requires if m < s.low[v] then w' <= |s0.stack| && s.dfn[s.stack[w']] == m && Reach(g, v, s.stack[w']) else w' == w
    ensures WellFormed(g, Lowered(s, v, m)) && InLoop(g, s0, Lowered(s, v, m), v, i, w')
  {
  }

  lemma AdvanceLoop(g: Graph, s0: Search, s: Search, v: nat, i: nat, w: nat)
    requires WellFormed(g, s0) && WellFormed(g, s) && v < |g| && i < |g[v]| && g[v][i] < |g|
    requires InLoop(g, s0, s, v, i, w)
    requires s.dfn[g[v][i]] >= 0
    requires forall j :: 0 <= j < |s0.stack| && g[v][i] == s0.stack[j] ==> s.low[v] <= s0.dfn[s0.stack[j]]
    ensures InLoop(g, s0, s, v, i + 1, w)
  {
  }

  /** One more successor that was already visited. */
  lemma VisitedSuccessor(g: Graph, s0: Search, s: Search, gray: set<nat>, v: nat, i: nat, w: nat) returns (w': nat)
    requires Valid(g) && WellFormed(g, s0) && WellFormed(g, s) && Inv(g, s, gray) && v < |g| && i < |g[v]|
    requires InLoop(g, s0, s, v, i, w)
    requires s.dfn[g[v][i]] != -1
    ensures s.dfn[v] == s0.next
    ensures WellFormed(g, Seen(s, v, g[v][i])) && Inv(g, Seen(s, v, g[v][i]), gray)
    ensures InLoop(g, s0, Seen(s, v, g[v][i]), v, i + 1, w')
  {
    hide Inv;
    var x := g[v][i];
    LoweredKeepsInv(g, s, gray, v, s.dfn[x]);
    assert Edge(g, v, x);
    w' := w;
    var s1 := Seen(s, v, x);
    if s.dfn[x] < s.dfn[v] && s.pos[x] != -1 {
      if s.dfn[x] < s.low[v] {
        ReachEdge(g, v, x);
        w' := s.pos[x];
      }
      LoweredInLoop(g, s0, s, v, i, w, s.dfn[x], w');
    }
    forall j | 0 <= j < |s0.stack| && x == s0.stack[j] ensures s1.low[v] <= s0.dfn[s0.stack[j]] {
      assert s.stack[j] == x;
      assert s.dfn[s.stack[j]] < s.dfn[s.stack[|s0.stack|]];
    }
    AdvanceLoop(g, s0, s1, v, i, w');
  }

  /** Where low(v) points after a recursive call on x, which may have lowered it. */
  lemma NewWitness(g: Graph, s0: Search, s: Search, s2: Search, v: nat, x: nat, w: nat) returns (w': nat)
    requires WellFormed(g, s0) && WellFormed(g, s) && WellFormed(g, s2) && v < |g| && x < |g| && Edge(g, v, x)
    requires |s0.stack| < |s.stack| && s.stack[|s0.stack|] == v && s.stack <= s2.stack
    requires w <= |s0.stack| && s.dfn[s.stack[w]] == s.low[v] <= s.dfn[v] < s.next && Reach(g, v, s.stack[w])
    requires Returned(g, s, s2, x)
    requires s.dfn[x] == -1
    ensures w' <= |s0.stack| && Reach(g, v, s.stack[w'])
    ensures s.dfn[s.stack[w']] == if s2.low[x] < s.low[v] then s2.low[x] else s.low[v]
  {
    w' := w;
    if s2.low[x] < s.low[v] {
      var k :| 0 <= k < |s.stack| && s.dfn[s.stack[k]] == s2.low[x] && Reach(g, x, s.stack[k]);
      assert s.dfn[s.stack[k]] < s.dfn[v];
      ReachEdge(g, v, x);
      ReachTrans(g, v, x, s.stack[k]);
      w' := k;
    }
  }

  lemma NewSuccessorCrossing(g: Graph, s0: Search, s: Search, s2: Search, v: nat, i: nat, w: nat, m: int)
    requires Valid(g) && WellFormed(g, s0) && WellFormed(g, s) && WellFormed(g, s2) && v < |g| && i < |g[v]|
    requires InLoop(g, s0, s, v, i, w) && Extends(g, s, s2) && s.dfn[g[v][i]] == -1
    ensures var low := if m < s.low[v] then m else s.low[v];
      forall t, j :: 0 <= t < i + 1 && 0 <= j < |s0.stack| && g[v][t] == s0.stack[j] ==> low <= s0.dfn[s0.stack[j]]
  {
    forall j | 0 <= j < |s0.stack| ensures s0.stack[j] != g[v][i] {
      assert s0.dfn[s0.stack[j]] >= 0;
    }
  }

  /** One more successor that a recursive call took from state s to state s2. */
  lemma NewSuccessor(g: Graph, s0: Search, s: Search, s2: Search, gray: set<nat>, v: nat, i: nat, w: nat)
    returns (w': nat)
    requires Valid(g) && WellFormed(g, s0) && WellFormed(g, s) && WellFormed(g, s2) && v < |g| && i < |g[v]|
    requires InLoop(g, s0, s, v, i, w) && Inv(g, s2, gray)
    requires Extends(g, s, s2) && Returned(g, s, s2, g[v][i]) && s.dfn[g[v][i]] == -1
    ensures var s3 := Lowered(s2, v, s2.low[g[v][i]]);
      WellFormed(g, s3) && Inv(g, s3, gray) && InLoop(g, s0, s3, v, i + 1, w')
  {
    hide Inv;
    var x := g[v][i];
    LoweredKeepsInv(g, s2, gray, v, s2.low[x]);
    assert Edge(g, v, x);
    assert s2.low[v] == s.low[v];
    assert s.low[v] <= s.dfn[v];
    w' := NewWitness(g, s0, s, s2, v, x, w);
    ExtendsTrans(g, s0, s, s2, v);
    ExtendsLowered(g, s0, s2, v, s2.low[x]);
    NewEntriesNoEdgeBelow(g, s0, s, s2, v, s2.low[x]);
    NewSuccessorCrossing(g, s0, s, s2, v, i, w, s2.low[x]);
    assert s2.stack[w'] == s.stack[w'];
    assert s2.stack[|s0.stack|] == s.stack[|s0.stack|];
    AssembleLoop(g, s0, s, s2, v, i, w');
  }

  lemma AssembleLoop(g: Graph, s0: Search, s: Search, s2: Search, v: nat, i: nat, w': nat)
    requires Valid(g) && WellFormed(g, s0) && WellFormed(g, s) && WellFormed(g, s2) && v < |g| && i < |g[v]|
    requires s.stack <= s2.stack && |s0.stack| < |s.stack| && s.stack[|s0.stack|] == v && w' <= |s0.stack|
    requires s0.dfn[v] == -1 && s2.dfn[v] == s0.next
    requires forall t :: 0 <= t < i + 1 ==> g[v][t] < |g| && s2.dfn[g[v][t]] >= 0
    requires Reach(g, v, s2.stack[w'])
    requires var s3 := Lowered(s2, v, s2.low[g[v][i]]);
      && WellFormed(g, s3) && Extends(g, s0, s3)
      && s2.dfn[s2.stack[w']] == s3.low[v]
      && NoEdgeBelow(g, s0, s2, |s0.stack| + 1, s3.low[v])
      && (forall t, j :: 0 <= t < i + 1 && 0 <= j < |s0.stack| && g[v][t] == s0.stack[j]
            ==> s3.low[v] <= s0.dfn[s0.stack[j]])
    ensures var s3 := Lowered(s2, v, s2.low[g[v][i]]);
      WellFormed(g, s3) && InLoop(g, s0, s3, v, i + 1, w')
  {
    var s3 := Lowered(s2, v, s2.low[g[v][i]]);
    assert NoEdgeBelow(g, s0, s3, |s0.stack| + 1, s3.low[v]);
  }

  lemma ExtendsTrans(g: Graph, s0: Search, s: Search, s2: Search, v: nat)
    requires WellFormed(g, s0) && WellFormed(g, s) && WellFormed(g, s2)
    requires Extends(g, s0, s) && Extends(g, s, s2)
    ensures Extends(g, s0, s2)
  {
  }

  lemma ExtendsLowered(g: Graph, s0: Search, s2: Search, v: nat, m: int)
    requires WellFormed(g, s0) && WellFormed(g, s2) && v < |g| && s0.dfn[v] == -1
    requires Extends(g, s0, s2)
    ensures WellFormed(g, Lowered(s2, v, m)) && Extends(g, s0, Lowered(s2, v, m))
  {
  }

  lemma NewEntriesNoEdgeBelow(g: Graph, s0: Search, s: Search, s2: Search, v: nat, m: int)
    requires WellFormed(g, s0) && WellFormed(g, s) && WellFormed(g, s2) && v < |g|
    requires |s0.stack| < |s.stack| && Extends(g, s0, s) && Extends(g, s, s2) && s.dfn[v] >= 0
    requires NoEdgeBelow(g, s0, s, |s0.stack| + 1, s.low[v]) && NoEdgeBelow(g, s, s2, |s.stack|, m)
    ensures NoEdgeBelow(g, s0, s2, |s0.stack| + 1, if m < s.low[v] then m else s.low[v])
  {
    forall k, j | |s0.stack| + 1 <= k < |s2.stack| && 0 <= j < |s0.stack| && Edge(g, s2.stack[k], s0.stack[j])
      ensures (if m < s.low[v] then m else s.low[v]) <= s0.dfn[s0.stack[j]]
    {
      if k < |s.stack| {
        assert s2.stack[k] == s.stack[k];
      } else {
        assert s.stack[j] == s0.stack[j];
      }
    }
  }

  // ---------- Leaving a call ----------

  /** Without pop: v turns black and stays on the stack. */
  lemma KeepOnStack(g: Graph, s0: Search, s: Search, gray: set<nat>, v: nat, w: nat)
    requires Valid(g) && Inv(g, s0, gray) && Inv(g, s, gray + {v}) && v < |g|
    requires InLoop(g, s0, s, v, |g[v]|, w) && s.low[v] != s.dfn[v] && v !in gray
    ensures WellFormed(g, s) && Inv(g, s, gray) && Extends(g, s0, s) && Returned(g, s0, s, v)
  {
    assert w < |s0.stack| && s.stack[w] == s0.stack[w];
    forall k | 0 <= k < |s.stack| ensures ReachesGray(g, s, gray, k) {
      KeepReachesGray(g, s0, s, gray, v, w, k);
    }
    forall u: nat, x: nat | Edge(g, u, x) && x < |g| && s.dfn[u] >= 0 && u !in gray ensures s.dfn[x] >= 0 {
      if u == v {
        var t :| 0 <= t < |g[v]| && g[v][t] == x;
      }
    }
    LoopNoEdgeBelow(g, s0, s, v, w);
  }

  lemma LoopNoEdgeBelow(g: Graph, s0: Search, s: Search, v: nat, w: nat)
    requires WellFormed(g, s0) && WellFormed(g, s) && v < |g|
    requires InLoop(g, s0, s, v, |g[v]|, w)
    ensures NoEdgeBelow(g, s0, s, |s0.stack|, s.low[v])
  {
    forall k, j | |s0.stack| <= k < |s.stack| && 0 <= j < |s0.stack| && Edge(g, s.stack[k], s0.stack[j])
      ensures s.low[v] <= s0.dfn[s0.stack[j]]
    {
      if k == |s0.stack| {
        var t :| 0 <= t < |g[v]| && g[v][t] == s0.stack[j];
      }
    }
  }

  lemma KeepReachesGray(g: Graph, s0: Search, s: Search, gray: set<nat>, v: nat, w: nat, k: nat)
    requires Linked(g, s0, gray) && Linked(g, s, gray + {v})
    requires s0.stack <= s.stack && w < |s0.stack| && k < |s.stack| && Reach(g, v, s.stack[w])
    requires forall j :: 0 <= j < |s.stack| && s.stack[j] == v ==> w < j
    ensures ReachesGray(g, s, gray, k)
  {
    assert ReachesGray(g, s, gray + {v}, k);
    var j :| 0 <= j <= k && s.stack[j] in gray + {v} && Reach(g, s.stack[k], s.stack[j]);
    if s.stack[j] !in gray {
      assert ReachesGray(g, s0, gray, w);
      var j' :| 0 <= j' <= w && s0.stack[j'] in gray && Reach(g, s0.stack[w], s0.stack[j']);
      ReachTrans(g, s.stack[k], v, s.stack[w]);
      ReachTrans(g, s.stack[k], s.stack[w], s0.stack[j']);
      assert s.stack[j'] == s0.stack[j'];
    }
  }

  lemma PoppedWellFormed(g: Graph, s0: Search, s: Search, s1: Search)
    requires WellFormed(g, s0) && WellFormed(g, s) && s0.stack <= s.stack && IsPopped(g, s, s1, |s0.stack|)
    ensures WellFormed(g, s1) && s1.stack == s0.stack
  {
  }

  lemma PoppedMutual(g: Graph, s: Search, gray: set<nat>, v: nat, from: nat, k: nat, l: nat)
    requires Linked(g, s, gray + {v}) && from < |s.stack| && s.stack[from] == v
    requires forall u :: u in gray ==> Reach(g, u, v)
    requires from <= k < |s.stack| && from <= l < |s.stack|
    ensures Reach(g, s.stack[k], s.stack[l])
  {
    ReachSelf(g, v);
    AllReach(g, s, gray + {v}, v, k);
    assert Reach(g, s.stack[from], s.stack[l]);
    ReachTrans(g, s.stack[k], v, s.stack[l]);
  }

  lemma PoppedMembers(g: Graph, s: Search, s1: Search, from: nat)
    requires WellFormed(g, s) && Finished(g, s) && from < |s.stack| && IsPopped(g, s, s1, from) && WellFormed(g, s1)
    ensures forall i :: 0 <= i < |s1.sccs| ==> s1.sccs[i] != [] && NoDuplicates(s1.sccs[i])
    ensures forall i, v {:trigger v in s1.sccs[i]} :: 0 <= i < |s1.sccs| && v in s1.sccs[i] ==> v < |g| && s1.comp[v] == i
    ensures forall v: nat :: v < |g| && -1 < s1.comp[v] < |s1.sccs| ==> v in s1.sccs[s1.comp[v]]
  {
    var c := s.stack[from..];
    assert s1.sccs[|s.sccs|] == c;
    forall i, j | 0 <= i < j < |c| ensures c[i] != c[j] {
      assert s.pos[s.stack[from + i]] == from + i && s.pos[s.stack[from + j]] == from + j;
    }
    forall v | v in c ensures v < |g| && s1.comp[v] == |s.sccs| {
      var k :| 0 <= k < |c| && c[k] == v;
      assert s.stack[from + k] == v;
    }
    forall v: nat | v < |g| && s.pos[v] >= from ensures v in c {
      assert c[s.pos[v] - from] == v;
    }
    forall i, v | 0 <= i < |s1.sccs| && v in s1.sccs[i] ensures v < |g| && s1.comp[v] == i {
      if i < |s.sccs| {
        assert v in s.sccs[i];
      }
    }
  }

  /** An edge leaving the popped entries ends in a popped entry or a finished vertex. */
  lemma PoppedClosed(g: Graph, s0: Search, s: Search, gray: set<nat>, v: nat, w: nat, u: nat, x: nat)
    requires Valid(g) && WellFormed(g, s0) && WellFormed(g, s) && v < |g| && u < |g| && x < |g|
    requires InLoop(g, s0, s, v, |g[v]|, w) && s.low[v] == s.dfn[v]
    requires Coloured(g, s, gray + {v}) && (forall y :: y in gray ==> s.pos[y] < |s0.stack|)
    requires s.pos[u] >= |s0.stack| && Edge(g, u, x)
    ensures s.dfn[x] >= 0 && (s.pos[x] == -1 || s.pos[x] >= |s0.stack|)
  {
    LoopNoEdgeBelow(g, s0, s, v, w);
    if u == v {
      var t :| 0 <= t < |g[v]| && g[v][t] == x;
    } else {
      assert u !in gray + {v};
    }
    if 0 <= s.pos[x] < |s0.stack| {
      assert false;
    }
  }

  lemma PoppedComponentsReach(g: Graph, s: Search, s1: Search, gray: set<nat>, v: nat, from: nat)
    requires WellFormed(g, s) && Finished(g, s) && Linked(g, s, gray + {v})
    requires from < |s.stack| && s.stack[from] == v && IsPopped(g, s, s1, from)
    requires forall u :: u in gray ==> Reach(g, u, v)
    ensures forall u, v :: 0 <= u < |g| && 0 <= v < |g| && s1.comp[u] == s1.comp[v] != -1 ==> Reach(g, u, v)
  {
    forall u: nat, x: nat | u < |g| && x < |g| && s1.comp[u] == s1.comp[x] != -1 ensures Reach(g, u, x) {
      if s1.comp[u] == |s.sccs| {
        assert s.stack[s.pos[u]] == u && s.stack[s.pos[x]] == x;
        PoppedMutual(g, s, gray, v, from, s.pos[u], s.pos[x]);
      }
    }
  }

  lemma PoppedFinished(g: Graph, s0: Search, s: Search, s1: Search, gray: set<nat>, v: nat, w: nat)
    requires Valid(g) && WellFormed(g, s0) && v < |g|
    requires WellFormed(g, s) && Finished(g, s) && Coloured(g, s, gray + {v}) && Linked(g, s, gray + {v})
    requires InLoop(g, s0, s, v, |g[v]|, w) && s.low[v] == s.dfn[v]
    requires forall u :: u in gray ==> u < |g| && s.pos[u] < |s0.stack| && Reach(g, u, v)
    requires IsPopped(g, s, s1, |s0.stack|) && WellFormed(g, s1)
    ensures Finished(g, s1)
  {
    var from := |s0.stack|;
    PoppedMembers(g, s, s1, from);
    PoppedComponentsReach(g, s, s1, gray, v, from);
    forall u: nat, x: nat | Edge(g, u, x) && x < |g| && s1.comp[u] != -1
      ensures s1.comp[x] != -1 && s1.comp[x] <= s1.comp[u]
    {
      if s.pos[u] >= from {
        PoppedClosed(g, s0, s, gray, v, w, u, x);
      } else {
        assert s.comp[x] != -1;
      }
    }
  }

  /** With pop: the entries from v upwards form one strong component. */
  lemma PopComponent(g: Graph, s0: Search, s: Search, s1: Search, gray: set<nat>, v: nat, w: nat)
    requires Valid(g) && Inv(g, s0, gray) && Inv(g, s, gray + {v}) && v < |g|
    requires InLoop(g, s0, s, v, |g[v]|, w) && s.low[v] == s.dfn[v] && v !in gray
    requires forall u :: u in gray ==> Reach(g, u, v)
    requires IsPopped(g, s, s1, |s0.stack|)
    ensures WellFormed(g, s1) && Inv(g, s1, gray) && Extends(g, s0, s1) && Returned(g, s0, s1, v)
  {
    PoppedWellFormed(g, s0, s, s1);
    forall u | u in gray ensures u < |g| && 0 <= s.pos[u] < |s0.stack| {
      assert s0.stack[s0.pos[u]] == u;
      assert s.stack[s0.pos[u]] == u;
    }
    PoppedFinished(g, s0, s, s1, gray, v, w);
    PoppedColouredLinked(g, s0, s, s1, gray, v, w);
    assert Extends(g, s0, s1);
  }

  lemma PoppedColouredLinked(g: Graph, s0: Search, s: Search, s1: Search, gray: set<nat>, v: nat, w: nat)
    requires Valid(g) && Inv(g, s0, gray) && Inv(g, s, gray + {v}) && v < |g|
    requires InLoop(g, s0, s, v, |g[v]|, w) && v !in gray
    requires forall u :: u in gray ==> u < |g| && 0 <= s.pos[u] < |s0.stack|
    requires IsPopped(g, s, s1, |s0.stack|) && WellFormed(g, s1) && s1.stack == s0.stack
    ensures Coloured(g, s1, gray) && Linked(g, s1, gray)
  {
    forall u: nat, x: nat | Edge(g, u, x) && x < |g| && s1.dfn[u] >= 0 && u !in gray ensures s1.dfn[x] >= 0 {
      if u == v {
        var t :| 0 <= t < |g[v]| && g[v][t] == x;
      } else {
        assert u !in gray + {v};
      }
    }
    forall k | 0 <= k < |s1.stack| ensures ReachesGray(g, s1, gray, k) {
      assert ReachesGray(g, s0, gray, k);
    }
  }

  // ---------- The algorithm ----------

  ghost function Unvisited(g: Graph, dfn: seq<int>): set<nat>
    requires |dfn| == |g|
  {
    set v: nat | v < |g| && dfn[v] == -1
  }

  lemma DoneMeansPartition(g: Graph, s: Search)
    requires WellFormed(g, s) && Finished(g, s) && s.stack == []
    requires forall v :: 0 <= v < |g| ==> s.dfn[v] != -1
    ensures IsPartition(g, s.sccs)
    ensures forall i, v {:trigger v in s.sccs[i]} :: 0 <= i < |s.sccs| && v in s.sccs[i] ==> v < |g| && s.comp[v] == i
  {
    forall v: nat | v < |g| ensures InSome(s.sccs, v) {
      assert v in s.sccs[s.comp[v]];
    }
  }

  /** With nothing running, the stack is empty and the finished components answer the question. */
  lemma DoneMeansStrongComponents(g: Graph, s: Search)
    requires Valid(g) && WellFormed(g, s) && Inv(g, s, {}) && (forall v :: 0 <= v < |g| ==> s.dfn[v] != -1)
    ensures IsPartition(g, s.sccs) && AreStrongComponents(g, s.sccs)
    ensures BackwardSorted(g, s.sccs)
  {
    hide IsPartition;
    assert |s.stack| > 0 ==> ReachesGray(g, s, {}, 0);
    DoneMeansPartition(g, s);
    forall i, j, u, v | 0 <= i < |s.sccs| && 0 <= j < |s.sccs| && u in s.sccs[i] && v in s.sccs[j]
      ensures i == j <==> Reach(g, u, v) && Reach(g, v, u)
      ensures Edge(g, u, v) ==> j <= i
    {
      hide AreStrongComponents, BackwardSorted, Reach, Edge, ReachesGray;
      assert s.comp[u] == i && s.comp[v] == j;
      FinishedOrder(g, s, u, v);
    }
  }

  lemma FinishedOrder(g: Graph, s: Search, u: nat, v: nat)
    requires Valid(g) && WellFormed(g, s) && Finished(g, s) && u < |g| && v < |g| && s.comp[u] != -1 && s.comp[v] != -1
    ensures s.comp[u] == s.comp[v] <==> Reach(g, u, v) && Reach(g, v, u)
    ensures Edge(g, u, v) ==> s.comp[v] <= s.comp[u]
  {
    if Reach(g, u, v) && Reach(g, v, u) {
      FinishedReach(g, s, u, v);
      FinishedReach(g, s, v, u);
    }
  }

  lemma FinishedReach(g: Graph, s: Search, u: nat, v: nat)
    requires Valid(g) && WellFormed(g, s) && Finished(g, s) && u < |g| && s.comp[u] != -1 && Reach(g, u, v)
    ensures v < |g| && -1 < s.comp[v] <= s.comp[u]
  {
    var S := iset x: nat | x < |g| && -1 < s.comp[x] <= s.comp[u];
    forall x: nat, y: nat | x in S && Edge(g, x, y) ensures y in S {
      var i :| 0 <= i < |g[x]| && g[x][i] == y;
    }
    ReachStaysIn(g, S, u, v);
  }

  function Reversed<T>(s: seq<T>): (r: seq<T>)
    ensures |r| == |s|
    ensures forall i :: 0 <= i < |s| ==> r[i] == s[|s| - 1 - i]
  {
    if s == [] then [] else Reversed(s[1..]) + [s[0]]
  }

  lemma ReversalSorts(g: Graph, cs: seq<seq<nat>>)
    requires IsPartition(g, cs) && AreStrongComponents(g, cs)
    requires BackwardSorted(g, cs)
    ensures IsPartition(g, Reversed(cs)) && AreStrongComponents(g, Reversed(cs)) && TopologicallySorted(g, Reversed(cs))
  {
    var r := Reversed(cs);
    forall v: nat | v < |g| ensures InSome(r, v) {
      assert InSome(cs, v);
      var i :| 0 <= i < |cs| && v in cs[i];
      assert r[|cs| - 1 - i] == cs[i];
    }
    forall i | 0 <= i < |r| ensures r[i] != [] && NoDuplicates(r[i]) && (forall v :: v in r[i] ==> v < |g|) {
      assert r[i] == cs[|cs| - 1 - i];
    }
    forall i, j, u, v | 0 <= i < |r| && 0 <= j < |r| && u in r[i] && v in r[j]
      ensures i == j <==> Reach(g, u, v) && Reach(g, v, u)
      ensures Edge(g, u, v) ==> i <= j
      ensures u == v ==> i == j
    {
      assert u in cs[|cs| - 1 - i] && v in cs[|cs| - 1 - j];
    }
  }

  class SCC {
    const graph: Graph
    var dfsNumbers: seq<int>
    var dfsMinima: seq<int>
    var stackIndices: seq<int>
    var stack: seq<nat>
    var sccs: seq<seq<nat>>
    var currentDfsNumber: int
    ghost var componentOf: seq<int>

    constructor (theGraph: Graph)
      ensures graph == theGraph && stack == [] && sccs == []
      ensures dfsNumbers == [] && dfsMinima == [] && stackIndices == []
    {
      graph := theGraph;
      dfsNumbers, dfsMinima, stackIndices, stack, sccs := [], [], [], [], [];
    }

    ghost function Now(): Search
      reads this
    {
      Search(dfsNumbers, dfsMinima, stackIndices, stack, sccs, currentDfsNumber, componentOf)
    }

    /** A fresh object computes the strong components of its graph in topological order. */
    method GetResult() returns (result: seq<seq<nat>>)
      requires Valid(graph) && stack == [] && sccs == [] && dfsNumbers == [] && dfsMinima == [] && stackIndices == []
      modifies this
      ensures IsPartition(graph, result)
      ensures AreStrongComponents(graph, result)
      ensures TopologicallySorted(graph, result)
    {
      hide Inv, AreStrongComponents, IsPartition, TopologicallySorted, BackwardSorted;
      var nodeCount := |graph|;
      dfsNumbers := seq(nodeCount, _ => -1);
      dfsMinima := seq(nodeCount, _ => -1);
      stackIndices := seq(nodeCount, _ => -1);
      componentOf := seq(nodeCount, _ => -1);
      currentDfsNumber := 0;
      FreshInv(graph, Now());
      for i := 0 to nodeCount
        invariant WellFormed(graph, Now()) && Inv(graph, Now(), {})
        invariant forall v :: 0 <= v < i ==> dfsNumbers[v] != -1
      {
        ghost var s := Now();
        assert forall v :: 0 <= v < i ==> s.dfn[v] >= 0;
        if dfsNumbers[i] == -1 {
          Dfs(i, {});
          assert forall v :: 0 <= v < i ==> dfsNumbers[v] == s.dfn[v];
        }
      }
      DoneMeansStrongComponents(graph, Now());
      ReversalSorts(graph, sccs);
      sccs := Reversed(sccs);
      return sccs;
    }

    method Dfs(vertex: nat, ghost gray: set<nat>)
      requires Valid(graph) && WellFormed(graph, Now()) && Inv(graph, Now(), gray)
      requires vertex < |graph| && dfsNumbers[vertex] == -1
      requires forall u :: u in gray ==> Reach(graph, u, vertex)
      modifies this
      ensures WellFormed(graph, Now()) && Inv(graph, Now(), gray)
      ensures Extends(graph, old(Now()), Now()) && Returned(graph, old(Now()), Now(), vertex)
      decreases Unvisited(graph, dfsNumbers)
    {
      hide WellFormed, Inv, InLoop, Extends, Returned, IsPopped, Unvisited, Reach, Edge;
      ghost var s0 := Now();
      Sizes(graph, s0);
      var vertexDfsNumber := currentDfsNumber;
      currentDfsNumber := currentDfsNumber + 1;
      dfsNumbers := dfsNumbers[vertex := vertexDfsNumber];
      dfsMinima := dfsMinima[vertex := vertexDfsNumber];
      stackIndices := stackIndices[vertex := |stack|];
      stack := stack + [vertex];
      PushKeepsInv(graph, s0, gray, vertex);
      assert Now() == Pushed(s0, vertex);
      ghost var w: nat := |s0.stack|;

      var successors := graph[vertex];
      for i := 0 to |successors|
        invariant Sized(graph, Now()) && WellFormed(graph, Now()) && Inv(graph, Now(), gray + {vertex})
        invariant InLoop(graph, s0, Now(), vertex, i, w)
      {
        var succ := successors[i];
        ghost var s := Now();
        var succDfsNumber := dfsNumbers[succ];
        if succDfsNumber == -1 {
          CallReady(graph, s0, s, gray, vertex, i, w);
          Dfs(succ, gray + {vertex});
          ghost var s2 := Now();
          Sizes(graph, s2);
          w := NewSuccessor(graph, s0, s, s2, gray + {vertex}, vertex, i, w);
          dfsMinima := dfsMinima[vertex := Min(dfsMinima[vertex], dfsMinima[succ])];
          assert Now() == Lowered(s2, vertex, s2.low[succ]);
        } else {
          w := VisitedSuccessor(graph, s0, s, gray + {vertex}, vertex, i, w);
          if succDfsNumber < vertexDfsNumber && stackIndices[succ] != -1 {
            dfsMinima := dfsMinima[vertex := Min(dfsMinima[vertex], succDfsNumber)];
          }
          assert Now() == Seen(s, vertex, succ);
        }
      }

      ghost var s := Now();
      LoopNumbers(graph, s0, s, gray, vertex, |successors|, w);
      if dfsMinima[vertex] == vertexDfsNumber {
        Pop(vertex);
        PopComponent(graph, s0, s, Now(), gray, vertex, w);
      } else {
        KeepOnStack(graph, s0, s, gray, vertex, w);
      }
    }

    /** Moves the stack entries from vertex upwards into a new component. */
    method Pop(vertex: nat)
      requires WellFormed(graph, Now()) && vertex < |graph| && stackIndices[vertex] != -1
      modifies this
      ensures IsPopped(graph, old(Now()), Now(), old(stackIndices[vertex]))
    {
      var stackIndex := stackIndices[vertex];
      var numStackEntries := |stack|;
      var scc := [];
      for i := stackIndex to numStackEntries
        invariant stack == old(stack) && 0 <= stackIndex <= i <= |stack|
        invariant scc == stack[stackIndex..i]
        invariant |stackIndices| == |graph|
        invariant dfsNumbers == old(dfsNumbers) && dfsMinima == old(dfsMinima) && sccs == old(sccs)
        invariant currentDfsNumber == old(currentDfsNumber) && componentOf == old(componentOf)
        invariant forall v :: 0 <= v < |graph| ==>
          stackIndices[v] == if stackIndex <= old(stackIndices[v]) < i then -1 else old(stackIndices[v])
      {
        scc := scc + [stack[i]];
        stackIndices := stackIndices[stack[i] := -1];
      }
      componentOf := seq(|graph|, v requires 0 <= v < |graph| && |old(stackIndices)| == |old(componentOf)| == |graph| =>
        if old(stackIndices)[v] >= stackIndex then |old(sccs)| else old(componentOf)[v]);
      assert scc == old(stack)[stackIndex..];
      stack := stack[..stackIndex];
      sccs := sccs + [scc];
    }
  }

  function Min(a: int, b: int): int {
    if a < b then a else b
  }

  lemma FreshInv(g: Graph, s: Search)
    requires Valid(g) && |s.dfn| == |s.low| == |s.pos| == |s.comp| == |g|
    requires forall v :: 0 <= v < |g| ==> s.dfn[v] == s.pos[v] == s.comp[v] == -1
    requires s.stack == [] && s.sccs == [] && s.next == 0
    ensures WellFormed(g, s) && Inv(g, s, {})
  {
  }

  /** The precondition of a recursive call on an unvisited successor, and its smaller measure. */
  lemma CallReady(g: Graph, s0: Search, s: Search, gray: set<nat>, v: nat, i: nat, w: nat)
    requires Valid(g) && WellFormed(g, s0) && WellFormed(g, s) && v < |g| && i < |g[v]|
    requires InLoop(g, s0, s, v, i, w)
    requires forall u :: u in gray ==> Reach(g, u, v)
    ensures forall u :: u in gray + {v} ==> Reach(g, u, g[v][i])
    ensures Unvisited(g, s.dfn) < Unvisited(g, Pushed(s0, v).dfn) + {v} == Unvisited(g, s0.dfn)
  {
    var x := g[v][i];
    assert Edge(g, v, x);
    ReachEdge(g, v, x);
    forall u | u in gray ensures Reach(g, u, x) {
      ReachTrans(g, u, v, x);
    }
    assert v in Unvisited(g, s0.dfn) && v !in Unvisited(g, s.dfn);
  }

  /** Facts the method itself needs after the loop. */
  lemma LoopNumbers(g: Graph, s0: Search, s: Search, gray: set<nat>, v: nat, i: nat, w: nat)
    requires WellFormed(g, s0) && Inv(g, s0, gray) && WellFormed(g, s) && v < |g| && i <= |g[v]|
    requires InLoop(g, s0, s, v, i, w)
    ensures s.dfn[v] == s0.next && s.pos[v] == |s0.stack| && v !in gray
  {
  }
}
