/** The weighted dependency graph of the operators and the relevance analysis on it (src/preprocess/causal_graph.cc). */
module CausalGraph {
  import opened PlanningTask

  type Edge = (Var, Var)

  type WeightedGraph = map<Var, map<Var, nat>>

  // ---------- Edges that the operators induce ----------

  function EdgesTo(sources: seq<Var>, target: Var): seq<Edge> {
    seq(|sources|, i requires 0 <= i < |sources| => (sources[i], target))
  }

  function PropEdges(op: Operator, effects: seq<PrePost>): seq<Edge> {
    if effects == [] then []
    else
      PropEdges(op, effects[..|effects| - 1])
      + EdgesTo(PropSources(op, effects[|effects| - 1]), Prop(effects[|effects| - 1].v))
  }

  function NumEdges(op: Operator, effects: seq<NumericEffect>): seq<Edge> {
    if effects == [] then []
    else
      NumEdges(op, effects[..|effects| - 1])
      + EdgesTo(NumSources(op, effects[|effects| - 1]), Num(effects[|effects| - 1].v))
  }

  function EdgesOf(ops: seq<Operator>): seq<Edge> {
    if ops == [] then []
    else
      var op := ops[|ops| - 1];
      EdgesOf(ops[..|ops| - 1]) + (PropEdges(op, op.prePost) + NumEdges(op, op.numEffects))
  }

  lemma {:induction false} EdgesToSpec(sources: seq<Var>, target: Var, e: Edge)
    ensures e in EdgesTo(sources, target) <==> e.1 == target && e.0 in sources
  {
    if e.1 == target && e.0 in sources {
      var i :| 0 <= i < |sources| && sources[i] == e.0;
      assert EdgesTo(sources, target)[i] == e;
    }
  }

  lemma {:induction false} PropEdgesSpec(op: Operator, effects: seq<PrePost>, e: Edge)
    ensures e in PropEdges(op, effects) <==> exists x :: x in effects && e.1 == Prop(x.v) && e.0 in PropSources(op, x)
  {
    if effects != [] {
      var front, last := effects[..|effects| - 1], effects[|effects| - 1];
      PropEdgesSpec(op, front, e);
      EdgesToSpec(PropSources(op, last), Prop(last.v), e);
      assert effects == front + [last];
    }
  }

  lemma {:induction false} NumEdgesSpec(op: Operator, effects: seq<NumericEffect>, e: Edge)
    ensures e in NumEdges(op, effects) <==> exists x :: x in effects && e.1 == Num(x.v) && e.0 in NumSources(op, x)
  {
    if effects != [] {
      var front, last := effects[..|effects| - 1], effects[|effects| - 1];
      NumEdgesSpec(op, front, e);
      EdgesToSpec(NumSources(op, last), Num(last.v), e);
      assert effects == front + [last];
    }
  }

  lemma {:induction false} DependsOnOne(op: Operator, u: Var, v: Var)
    ensures DependsOn([op], v, u) <==> (u, v) in PropEdges(op, op.prePost) || (u, v) in NumEdges(op, op.numEffects)
  {
    hide PropSources, NumSources;
    PropEdgesSpec(op, op.prePost, (u, v));
    NumEdgesSpec(op, op.numEffects, (u, v));
    assert op in [op];
  }

  lemma {:induction false} DependsOnMore(front: seq<Operator>, op: Operator, u: Var, v: Var)
    ensures DependsOn(front + [op], v, u) <==> DependsOn(front, v, u) || DependsOn([op], v, u)
  {
    hide PropSources, NumSources;
    assert forall x :: x in front + [op] <==> x in front || x in [op];
  }

  /** The induced edges are exactly the dependencies. */
  lemma {:induction false} EdgesAreDependencies(ops: seq<Operator>, u: Var, v: Var)
    ensures (u, v) in EdgesOf(ops) <==> DependsOn(ops, v, u)
  {
    if ops != [] {
      var front, op := ops[..|ops| - 1], ops[|ops| - 1];
      EdgesAreDependencies(front, u, v);
      DependsOnOne(op, u, v);
      assert ops == front + [op];
      DependsOnMore(front, op, u, v);
      hide DependsOn;
    }
  }

  function Count(edges: seq<Edge>, e: Edge): nat {
    if edges == [] then 0 else Count(edges[..|edges| - 1], e) + if edges[|edges| - 1] == e then 1 else 0
  }

  lemma {:induction false} CountPositive(edges: seq<Edge>, e: Edge)
    ensures Count(edges, e) > 0 <==> e in edges
  {
    if edges != [] {
      CountPositive(edges[..|edges| - 1], e);
      assert edges == edges[..|edges| - 1] + [edges[|edges| - 1]];
    }
  }

  // ---------- What the two maps represent ----------

  function Weight(g: WeightedGraph, u: Var, v: Var): nat {
    if u in g && v in g[u] then g[u][v] else 0
  }

  ghost predicate Positive(g: WeightedGraph) {
    forall u, v :: u in g && v in g[u] ==> g[u][v] > 0
  }

  /** One map counts the edges between different variables, the other is its transpose. */
  ghost predicate Represents(weighted: WeightedGraph, preds: WeightedGraph, edges: seq<Edge>) {
    && Positive(weighted) && Positive(preds)
    && (forall u, v :: Weight(weighted, u, v) == if u == v then 0 else Count(edges, (u, v)))
    && (forall u, v :: Weight(preds, v, u) == Weight(weighted, u, v))
  }

  function Touched(g: WeightedGraph, u: Var): WeightedGraph {
    if u in g then g else g[u := map[]]
  }

  function Bumped(g: WeightedGraph, u: Var, v: Var): WeightedGraph
    requires u in g
  {
    g[u := g[u][v := if v in g[u] then g[u][v] + 1 else 1]]
  }

  lemma {:induction false} BumpAddsOne(g: WeightedGraph, u: Var, v: Var)
    requires Positive(g)
    ensures Positive(Touched(g, u)) && Positive(Bumped(Touched(g, u), u, v))
    ensures forall x, y :: Weight(Touched(g, u), x, y) == Weight(g, x, y)
    ensures forall x, y :: Weight(Bumped(Touched(g, u), u, v), x, y) == Weight(g, x, y) + if x == u && y == v then 1 else 0
  {
  }

  lemma {:induction false} AddEdgeRepresents(weighted: WeightedGraph, preds: WeightedGraph, edges: seq<Edge>, u: Var, v: Var)
    requires Represents(weighted, preds, edges)
    ensures var w, p := Touched(weighted, u), Touched(preds, v);
      Represents(if u == v then w else Bumped(w, u, v), if u == v then p else Bumped(p, v, u), edges + [(u, v)])
  {
    hide Touched, Bumped, Weight;
    assert (edges + [(u, v)])[..|edges|] == edges;
    BumpAddsOne(weighted, u, v);
    BumpAddsOne(preds, v, u);
  }

  // ---------- How often a dependency is counted ----------

  /** How many of the facts are on u. */
  function FactsOn(facts: seq<Fact>, u: Var): nat {
    if facts == [] then 0
    else FactsOn(facts[..|facts| - 1], u) + if Prop(facts[|facts| - 1].v) == u then 1 else 0
  }

  /** How many of the effects have a precondition, on u. */
  function PreconditionsOn(effects: seq<PrePost>, u: Var): nat {
    if effects == [] then 0
    else
      var e := effects[|effects| - 1];
      PreconditionsOn(effects[..|effects| - 1], u) + if e.pre != -1 && Prop(e.v) == u then 1 else 0
  }

  /** Over the effects on v: conditions on u that the operator has, and that the effect itself has. */
  function PropArcs(op: Operator, effects: seq<PrePost>, u: Var, v: Var): nat {
    if effects == [] then 0
    else
      var e := effects[|effects| - 1];
      PropArcs(op, effects[..|effects| - 1], u, v)
      + if Prop(e.v) == v then FactsOn(op.prevail, u) + PreconditionsOn(op.prePost, u) + FactsOn(e.conds, u) else 0
  }

  /** Over the numeric effects on v: conditions on u that the operator has, and one if u is the operand. */
  function NumArcs(op: Operator, effects: seq<NumericEffect>, u: Var, v: Var): nat {
    if effects == [] then 0
    else
      var e := effects[|effects| - 1];
      NumArcs(op, effects[..|effects| - 1], u, v)
      + if Num(e.v) == v then FactsOn(op.prevail, u) + PreconditionsOn(op.prePost, u) + (if Num(e.operand) == u then 1 else 0) else 0
  }

  function Arcs(ops: seq<Operator>, u: Var, v: Var): nat {
    if ops == [] then 0
    else
      var op := ops[|ops| - 1];
      Arcs(ops[..|ops| - 1], u, v) + PropArcs(op, op.prePost, u, v) + NumArcs(op, op.numEffects, u, v)
  }

  lemma {:induction false} CountConcat(a: seq<Edge>, b: seq<Edge>, e: Edge)
    ensures Count(a + b, e) == Count(a, e) + Count(b, e)
  {
    if b == [] {
      assert a + b == a;
    } else {
      var front, last := b[..|b| - 1], b[|b| - 1];
      CountConcat(a, front, e);
      assert (a + b)[..|a + b| - 1] == a + front;
    }
  }

  /** How often u is among the sources. */
  function Times(sources: seq<Var>, u: Var): nat {
    if sources == [] then 0 else Times(sources[..|sources| - 1], u) + if sources[|sources| - 1] == u then 1 else 0
  }

  lemma {:induction false} TimesConcat(a: seq<Var>, b: seq<Var>, u: Var)
    ensures Times(a + b, u) == Times(a, u) + Times(b, u)
  {
    if b == [] {
      assert a + b == a;
    } else {
      var front, last := b[..|b| - 1], b[|b| - 1];
      TimesConcat(a, front, u);
      assert (a + b)[..|a + b| - 1] == a + front;
    }
  }

  lemma {:induction false} CountTo(sources: seq<Var>, target: Var, u: Var, v: Var)
    ensures Count(EdgesTo(sources, target), (u, v)) == if target == v then Times(sources, u) else 0
  {
    if sources != [] {
      var front := sources[..|sources| - 1];
      CountTo(front, target, u, v);
      assert EdgesTo(sources, target)[..|front|] == EdgesTo(front, target);
    }
  }

  lemma {:induction false} PrevailTimes(facts: seq<Fact>, u: Var)
    ensures Times(PrevailVars(facts), u) == FactsOn(facts, u)
  {
    if facts != [] {
      var front := facts[..|facts| - 1];
      PrevailTimes(front, u);
      assert PrevailVars(facts)[..|front|] == PrevailVars(front);
    }
  }

  lemma {:induction false} PreVarsSnoc(front: seq<PrePost>, e: PrePost)
    ensures PreVars(front + [e]) == PreVars(front) + PreVars([e])
  {
    if front == [] {
      assert front + [e] == [e];
    } else {
      PreVarsSnoc(front[1..], e);
      assert (front + [e])[0] == front[0] && (front + [e])[1..] == front[1..] + [e];
      var first := if front[0].pre != -1 then [Prop(front[0].v)] else [];
      assert PreVars(front + [e]) == first + PreVars(front[1..] + [e]);
    }
  }

  lemma {:induction false} PreTimesOne(e: PrePost, u: Var)
    ensures Times(PreVars([e]), u) == if e.pre != -1 && Prop(e.v) == u then 1 else 0
  {
    assert [e][1..] == [];
    assert PreVars([e]) == if e.pre != -1 then [Prop(e.v)] else [];
  }

  lemma {:induction false} PreTimes(effects: seq<PrePost>, u: Var)
    ensures Times(PreVars(effects), u) == PreconditionsOn(effects, u)
  {
    hide Times, PreVars;
    if effects == [] {
      NoSources(u);
    } else {
      var front, e := effects[..|effects| - 1], effects[|effects| - 1];
      PreTimes(front, u);
      PreTimesOne(e, u);
      assert effects == front + [e];
      PreVarsSnoc(front, e);
      TimesConcat(PreVars(front), PreVars([e]), u);
    }
  }

  lemma {:induction false} NoSources(u: Var)
    ensures PreVars([]) == [] && Times([], u) == 0
  {
  }

  lemma {:induction false} CommonTimes(op: Operator, more: seq<Var>, u: Var)
    ensures Times(CommonSources(op) + more, u) == FactsOn(op.prevail, u) + PreconditionsOn(op.prePost, u) + Times(more, u)
  {
    TimesConcat(CommonSources(op), more, u);
    TimesConcat(PrevailVars(op.prevail), PreVars(op.prePost), u);
    PrevailTimes(op.prevail, u);
    PreTimes(op.prePost, u);
  }

  lemma {:induction false} PropArcsCounted(op: Operator, effects: seq<PrePost>, u: Var, v: Var)
    ensures Count(PropEdges(op, effects), (u, v)) == PropArcs(op, effects, u, v)
  {
    if effects != [] {
      var front, e := effects[..|effects| - 1], effects[|effects| - 1];
      PropArcsCounted(op, front, u, v);
      CountConcat(PropEdges(op, front), EdgesTo(PropSources(op, e), Prop(e.v)), (u, v));
      CountTo(PropSources(op, e), Prop(e.v), u, v);
      CommonTimes(op, PrevailVars(e.conds), u);
      PrevailTimes(e.conds, u);
    }
  }

  lemma {:induction false} NumArcsCounted(op: Operator, effects: seq<NumericEffect>, u: Var, v: Var)
    ensures Count(NumEdges(op, effects), (u, v)) == NumArcs(op, effects, u, v)
  {
    if effects != [] {
      var front, e := effects[..|effects| - 1], effects[|effects| - 1];
      NumArcsCounted(op, front, u, v);
      CountConcat(NumEdges(op, front), EdgesTo(NumSources(op, e), Num(e.v)), (u, v));
      CountTo(NumSources(op, e), Num(e.v), u, v);
      CommonTimes(op, [Num(e.operand)], u);
    }
  }

  /** The edge list names every pair as often as conditions and operands let the one depend on the other. */
  lemma {:induction false} ArcsCounted(ops: seq<Operator>, u: Var, v: Var)
    ensures Count(EdgesOf(ops), (u, v)) == Arcs(ops, u, v)
  {
    if ops != [] {
      var front, op := ops[..|ops| - 1], ops[|ops| - 1];
      ArcsCounted(front, u, v);
      CountConcat(EdgesOf(front), PropEdges(op, op.prePost) + NumEdges(op, op.numEffects), (u, v));
      CountConcat(PropEdges(op, op.prePost), NumEdges(op, op.numEffects), (u, v));
      PropArcsCounted(op, op.prePost, u, v);
      NumArcsCounted(op, op.numEffects, u, v);
    }
  }

  lemma {:induction false} WeightsAreArcs(weighted: WeightedGraph, preds: WeightedGraph, ops: seq<Operator>)
    requires Represents(weighted, preds, EdgesOf(ops))
    ensures forall u, v :: Weight(weighted, u, v) == if u == v then 0 else Arcs(ops, u, v)
    ensures forall u, v :: Weight(preds, v, u) == if u == v then 0 else Arcs(ops, u, v)
  {
    forall u, v ensures Weight(weighted, u, v) == if u == v then 0 else Arcs(ops, u, v) {
      ArcsCounted(ops, u, v);
    }
    forall u, v ensures Weight(preds, v, u) == if u == v then 0 else Arcs(ops, u, v) {
      ArcsCounted(ops, u, v);
      assert Weight(preds, v, u) == Weight(weighted, u, v);
    }
  }

  /** u is listed as a predecessor of v exactly when v depends on another variable u. */
  lemma {:induction false} PredecessorsAreDependencies(weighted: WeightedGraph, preds: WeightedGraph, ops: seq<Operator>, u: Var, v: Var)
    requires Represents(weighted, preds, EdgesOf(ops))
    ensures u in Preds(preds, v) <==> u != v && DependsOn(ops, v, u)
  {
    EdgesAreDependencies(ops, u, v);
    CountPositive(EdgesOf(ops), (u, v));
    assert Weight(preds, v, u) == Weight(weighted, u, v);
    assert u in Preds(preds, v) <==> Weight(preds, v, u) > 0;
  }

  // ---------- Relevance ----------

  function Preds(preds: WeightedGraph, v: Var): set<Var> {
    if v in preds then preds[v].Keys else {}
  }

  ghost predicate ClosedIn(preds: WeightedGraph, X: set<Var>) {
    forall v :: v in X ==> Preds(preds, v) <= X
  }

  ghost function AllSources(preds: WeightedGraph): set<Var> {
    set v, u | v in preds && u in preds[v] :: u
  }

  class CausalGraph {
    /** The numeric variables that the input declares to be constants or derived; the types of the others come from the analysis. */
    const declared: set<nat>
    var weightedGraph: WeightedGraph
    var predecessorGraph: WeightedGraph
    var necessary: set<Var>
    var regular: set<nat>

    constructor (declared: set<nat>)
      ensures weightedGraph == map[] && predecessorGraph == map[] && necessary == {} && regular == {} && this.declared == declared
    {
      this.declared := declared;
      weightedGraph, predecessorGraph, necessary, regular := map[], map[], {}, {};
    }

    /** A numeric variable without a type becomes a regular one when it is marked. */
    method Mark(v: Var)
      requires v !in necessary && regular == RegularOf(necessary, declared)
      modifies this`necessary, this`regular
      ensures necessary == old(necessary) + {v} && regular == RegularOf(necessary, declared)
    {
      necessary := necessary + {v};
      if v.Num? && v.id !in declared {
        regular := regular + {v.id};
      }
      assert forall id :: id in RegularOf(necessary, declared) <==> id in RegularOf(old(necessary), declared) || (v == Num(id) && id !in declared);
    }

    method AddEdge(source: Var, target: Var, ghost edges: seq<Edge>)
      requires Represents(weightedGraph, predecessorGraph, edges)
      modifies this`weightedGraph, this`predecessorGraph
      ensures Represents(weightedGraph, predecessorGraph, edges + [(source, target)])
    {
      AddEdgeRepresents(weightedGraph, predecessorGraph, edges, source, target);
      weightedGraph := Touched(weightedGraph, source);
      predecessorGraph := Touched(predecessorGraph, target);
      if source != target {
        weightedGraph := Bumped(weightedGraph, source, target);
        predecessorGraph := Bumped(predecessorGraph, target, source);
      }
    }

    method AddEdges(sourceVars: seq<Var>, target: Var, ghost edges: seq<Edge>)
      requires Represents(weightedGraph, predecessorGraph, edges)
      modifies this`weightedGraph, this`predecessorGraph
      ensures Represents(weightedGraph, predecessorGraph, edges + EdgesTo(sourceVars, target))
    {
      hide Represents;
      assert edges + EdgesTo([], target) == edges;
      for i := 0 to |sourceVars|
        invariant Represents(weightedGraph, predecessorGraph, edges + EdgesTo(sourceVars[..i], target))
      {
        AddEdge(sourceVars[i], target, edges + EdgesTo(sourceVars[..i], target));
        assert edges + EdgesTo(sourceVars[..i], target) + [(sourceVars[i], target)] == edges + EdgesTo(sourceVars[..i + 1], target);
      }
      assert sourceVars[..|sourceVars|] == sourceVars;
    }

    /** Weighs every pair of variables by the conditions and operands that let the one depend on the other. */
    method WeighGraphFromOps(operators: seq<Operator>)
      requires Represents(weightedGraph, predecessorGraph, [])
      modifies this`weightedGraph, this`predecessorGraph
      ensures Represents(weightedGraph, predecessorGraph, EdgesOf(operators))
      ensures forall u, v :: Weight(weightedGraph, u, v) == if u == v then 0 else Arcs(operators, u, v)
      ensures forall u, v :: Weight(predecessorGraph, v, u) == if u == v then 0 else Arcs(operators, u, v)
    {
      hide Represents;
      for i := 0 to |operators|
        invariant Represents(weightedGraph, predecessorGraph, EdgesOf(operators[..i]))
      {
        WeighOperator(operators[i], EdgesOf(operators[..i]));
        assert operators[..i + 1][..i] == operators[..i];
      }
      assert operators[..|operators|] == operators;
      WeightsAreArcs(weightedGraph, predecessorGraph, operators);
    }

    method WeighOperator(op: Operator, ghost edges: seq<Edge>)
      requires Represents(weightedGraph, predecessorGraph, edges)
      modifies this`weightedGraph, this`predecessorGraph
      ensures Represents(weightedGraph, predecessorGraph,
                         edges + (PropEdges(op, op.prePost) + NumEdges(op, op.numEffects)))
    {
      hide Represents, EdgesTo, CommonSources;
      var sourceVars := CommonSources(op);
      assert edges + PropEdges(op, []) == edges;
      for i := 0 to |op.prePost|
        invariant Represents(weightedGraph, predecessorGraph, edges + PropEdges(op, op.prePost[..i]))
      {
        var prePost := op.prePost[i];
        assert op.prePost[..i + 1][..i] == op.prePost[..i];
        AddEdges(sourceVars + PrevailVars(prePost.conds), Prop(prePost.v), edges + PropEdges(op, op.prePost[..i]));
        assert edges + PropEdges(op, op.prePost[..i]) + EdgesTo(PropSources(op, prePost), Prop(prePost.v))
            == edges + PropEdges(op, op.prePost[..i + 1]);
      }
      assert op.prePost[..|op.prePost|] == op.prePost;
      ghost var props := edges + PropEdges(op, op.prePost);
      assert props + NumEdges(op, []) == props;
      for i := 0 to |op.numEffects|
        invariant Represents(weightedGraph, predecessorGraph, props + NumEdges(op, op.numEffects[..i]))
      {
        var eff := op.numEffects[i];
        assert op.numEffects[..i + 1][..i] == op.numEffects[..i];
        AddEdges(sourceVars + [Num(eff.operand)], Num(eff.v), props + NumEdges(op, op.numEffects[..i]));
        assert props + NumEdges(op, op.numEffects[..i]) + EdgesTo(NumSources(op, eff), Num(eff.v))
            == props + NumEdges(op, op.numEffects[..i + 1]);
      }
      assert op.numEffects[..|op.numEffects|] == op.numEffects;
      assert props + NumEdges(op, op.numEffects) == edges + (PropEdges(op, op.prePost) + NumEdges(op, op.numEffects));
    }

    /** Marks everything that `from` depends on, directly or not, and was not marked yet. */
    method Dfs(from: Var)
      requires regular == RegularOf(necessary, declared)
      modifies this`necessary, this`regular
      ensures regular == RegularOf(necessary, declared)
      ensures old(necessary) <= necessary
      ensures Preds(predecessorGraph, from) <= necessary
      ensures forall v :: v in necessary - old(necessary) ==> Preds(predecessorGraph, v) <= necessary
      ensures forall X :: ClosedIn(predecessorGraph, X) && from in X && old(necessary) <= X ==> necessary <= X
      decreases AllSources(predecessorGraph) - necessary
    {
      var todo := Preds(predecessorGraph, from);
      while todo != {}
        invariant old(necessary) <= necessary && todo <= Preds(predecessorGraph, from)
        invariant regular == RegularOf(necessary, declared)
        invariant Preds(predecessorGraph, from) <= necessary + todo
        invariant forall v :: v in necessary - old(necessary) ==> Preds(predecessorGraph, v) <= necessary
        invariant forall X :: ClosedIn(predecessorGraph, X) && from in X && old(necessary) <= X ==> necessary <= X
        decreases todo
      {
        var currPredecessor :| currPredecessor in todo;
        todo := todo - {currPredecessor};
        if currPredecessor !in necessary {
          Mark(currPredecessor);
          Dfs(currPredecessor);
        }
      }
    }

    /** Marks one variable and what it depends on. */
    method SetNecessary(v: Var)
      requires ClosedIn(predecessorGraph, necessary) && regular == RegularOf(necessary, declared)
      modifies this`necessary, this`regular
      ensures regular == RegularOf(necessary, declared)
      ensures ClosedIn(predecessorGraph, necessary) && old(necessary) <= necessary && v in necessary
      ensures forall X :: ClosedIn(predecessorGraph, X) && v in X && old(necessary) <= X ==> necessary <= X
    {
      if v !in necessary {
        Mark(v);
        Dfs(v);
      }
    }

    /** Marks exactly the relevant variables, and makes the numeric ones without a type regular. */
    method CalculateImportantVars(t: Task)
      requires necessary == {} && regular == {} && Represents(weightedGraph, predecessorGraph, EdgesOf(t.operators))
      modifies this`necessary, this`regular
      ensures IsRelevantSet(t, necessary) && regular == RegularOf(necessary, declared)
    {
      hide Represents;
      for i := 0 to |t.goals|
        invariant ClosedIn(predecessorGraph, necessary) && regular == RegularOf(necessary, declared)
        invariant forall j :: 0 <= j < i ==> Prop(t.goals[j].v) in necessary
        invariant forall X :: ClosedIn(predecessorGraph, X) && HasSeeds(t, X) ==> necessary <= X
      {
        assert t.goals[i] in t.goals;
        SetNecessary(Prop(t.goals[i].v));
      }
      SetNecessary(Prop(t.globalConstraint.v));
      forall X ensures ClosedIn(predecessorGraph, X) <==> ClosedUnderDependencies(t.operators, X) {
        ClosedMeansDependencies(weightedGraph, predecessorGraph, t.operators, X);
      }
    }
  }

  lemma {:induction false} ClosedMeansDependencies(weighted: WeightedGraph, preds: WeightedGraph, ops: seq<Operator>, X: set<Var>)
    requires Represents(weighted, preds, EdgesOf(ops))
    ensures ClosedIn(preds, X) <==> ClosedUnderDependencies(ops, X)
  {
    forall u, v ensures u in Preds(preds, v) <==> u != v && DependsOn(ops, v, u) {
      PredecessorsAreDependencies(weighted, preds, ops, u, v);
    }
  }
}
