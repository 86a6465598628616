/** Directed graphs in adjacency-list form and reachability in them. */
module Digraph {

  /** Vertex u has the successor list g[u]. */
  type Graph = seq<seq<nat>>

  ghost predicate Valid(g: Graph) {
    forall u, i :: 0 <= u < |g| && 0 <= i < |g[u]| ==> g[u][i] < |g|
  }

  ghost predicate Edge(g: Graph, u: nat, v: nat) {
    u < |g| && v in g[u]
  }

  /** p lists the vertices visited after u on a walk from u to v. */
  ghost predicate IsWalk(g: Graph, u: nat, p: seq<nat>, v: nat)
    decreases |p|
  {
    if p == [] then u == v else Edge(g, u, p[0]) && IsWalk(g, p[0], p[1..], v)
  }

  ghost predicate Reach(g: Graph, u: nat, v: nat) {
    exists p :: IsWalk(g, u, p, v)
  }

  lemma ReachSelf(g: Graph, u: nat)
    ensures Reach(g, u, u)
  {
    assert IsWalk(g, u, [], u);
  }

  lemma ReachEdge(g: Graph, u: nat, v: nat)
    requires Edge(g, u, v)
    ensures Reach(g, u, v)
  {
    assert IsWalk(g, v, [], v);
    assert [v][1..] == [];
    assert IsWalk(g, u, [v], v);
  }

  lemma {:induction false} WalkConcat(g: Graph, u: nat, p: seq<nat>, v: nat, q: seq<nat>, w: nat)
    requires IsWalk(g, u, p, v) && IsWalk(g, v, q, w)
    ensures IsWalk(g, u, p + q, w)
    decreases |p|
  {
    if p == [] {
      assert p + q == q;
    } else {
      WalkConcat(g, p[0], p[1..], v, q, w);
      assert (p + q)[1..] == p[1..] + q;
    }
  }

  lemma ReachTrans(g: Graph, u: nat, v: nat, w: nat)
    requires Reach(g, u, v) && Reach(g, v, w)
    ensures Reach(g, u, w)
  {
    var p :| IsWalk(g, u, p, v);
    var q :| IsWalk(g, v, q, w);
    WalkConcat(g, u, p, v, q, w);
  }

  lemma {:induction false} WalkStaysIn(g: Graph, S: iset<nat>, u: nat, p: seq<nat>, v: nat)
    requires forall x, y :: x in S && Edge(g, x, y) ==> y in S
    requires u in S && IsWalk(g, u, p, v)
    ensures v in S
    decreases |p|
  {
    if p != [] {
      WalkStaysIn(g, S, p[0], p[1..], v);
    }
  }

  /** A set closed under edges is closed under reachability. */
  lemma ReachStaysIn(g: Graph, S: iset<nat>, u: nat, v: nat)
    requires forall x, y :: x in S && Edge(g, x, y) ==> y in S
    requires u in S && Reach(g, u, v)
    ensures v in S
  {
    var p :| IsWalk(g, u, p, v);
    WalkStaysIn(g, S, u, p, v);
  }
}
