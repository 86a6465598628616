/** Relevance analysis and stripping together: the pruned planning task and the original have corresponding plans. */
module Relevance {
  import opened PlanningTask
  import opened Pruning
  import G = CausalGraph

  /** Operators never assign to constants or to derived numeric variables. */
  ghost predicate AssignsNone(ops: seq<Operator>, declared: set<nat>) {
    forall op, e :: op in ops && e in op.numEffects ==> e.v !in declared
  }

  /** What the stripping needs holds of the variables and types that the analysis computes. */
  lemma {:induction false} AnalysisSuffices(t: Task, declared: set<nat>, necessary: set<Var>)
    requires IsRelevantSet(t, necessary) && AssignsNone(t.operators, declared)
    ensures IsRelevance(t, necessary, RegularOf(necessary, declared))
  {
  }

  /** The plan of the original that a pruned plan was stripped from, operator by operator. */
  ghost predicate StripsTo(plan: seq<Operator>, pruned: seq<Operator>, necessary: set<Var>) {
    |plan| == |pruned| && forall i :: 0 <= i < |plan| ==> pruned[i] == Strip(plan[i], necessary)
  }

  /** From every state with defined numbers, plans correspond both ways; in particular one task has a plan iff the other has. */
  lemma {:induction false} PlansCorrespond(t: Task, declared: set<nat>, necessary: set<Var>, s: State, ar: Arithmetic)
    requires IsRelevantSet(t, necessary) && AssignsNone(t.operators, declared) && AllNumbersDefined(t.operators, s)
    ensures var regular := RegularOf(necessary, declared);
      var pruned, p := Pruned(t, necessary, regular), Project(s, necessary);
      && (forall plan :: IsPlanFrom(t, s, plan, ar) ==> IsPlanFrom(pruned, p, StripPlan(plan, necessary, regular), ar))
      && (forall short :: IsPlanFrom(pruned, p, short, ar) ==> exists plan :: IsPlanFrom(t, s, plan, ar) && StripsTo(plan, short, necessary))
      && ((exists plan :: IsPlanFrom(t, s, plan, ar)) <==> exists short :: IsPlanFrom(pruned, p, short, ar))
  {
    hide IsPlanFrom, Pruned, Project, StripPlan, IsRelevantSet, IsRelevance;
    AnalysisSuffices(t, declared, necessary);
    var regular := RegularOf(necessary, declared);
    var pruned, p := Pruned(t, necessary, regular), Project(s, necessary);
    forall plan | IsPlanFrom(t, s, plan, ar) ensures IsPlanFrom(pruned, p, StripPlan(plan, necessary, regular), ar) {
      PlanSurvivesPruning(t, s, plan, necessary, regular, ar);
    }
    forall short | IsPlanFrom(pruned, p, short, ar) ensures exists plan :: IsPlanFrom(t, s, plan, ar) && StripsTo(plan, short, necessary) {
      var plan := PrunedPlanRuns(t, s, short, necessary, regular, ar);
    }
  }

  /** The preprocessor's steps in order: weigh, mark, strip. */
  method Prune(t: Task, declared: set<nat>) returns (pruned: Task, ghost necessary: set<Var>)
    ensures IsRelevantSet(t, necessary) && pruned == Pruned(t, necessary, RegularOf(necessary, declared))
  {
    var graph := new G.CausalGraph(declared);
    graph.WeighGraphFromOps(t.operators);
    graph.CalculateImportantVars(t);
    necessary := graph.necessary;
    var operators := StripOperators(t.operators, graph.necessary, graph.regular);
    pruned := t.(operators := operators);
  }
}
