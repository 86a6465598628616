/** Stripping effects and operators that relevance analysis found unnecessary (src/preprocess/operator.cc). */
module Pruning {
  import opened PlanningTask

  // ---------- Specification ----------

  function KeepProps(effects: seq<PrePost>, necessary: set<Var>): (r: seq<PrePost>)
    ensures forall e :: e in r <==> e in effects && Prop(e.v) in necessary
    decreases |effects|
  {
    if effects == [] then []
    else (if Prop(effects[0].v) in necessary then [effects[0]] else []) + KeepProps(effects[1..], necessary)
  }

  function KeepNums(effects: seq<NumericEffect>, necessary: set<Var>): (r: seq<NumericEffect>)
    ensures forall e :: e in r <==> e in effects && Num(e.v) in necessary
    decreases |effects|
  {
    if effects == [] then []
    else (if Num(effects[0].v) in necessary then [effects[0]] else []) + KeepNums(effects[1..], necessary)
  }

  function Strip(op: Operator, necessary: set<Var>): Operator {
    op.(prePost := KeepProps(op.prePost, necessary), numEffects := KeepNums(op.numEffects, necessary))
  }

  /** No propositional effect and no effect on a regular numeric variable. */
  predicate IsRedundant(op: Operator, regular: set<nat>) {
    op.prePost == [] && forall e :: e in op.numEffects ==> e.v !in regular
  }

  function StripAll(ops: seq<Operator>, necessary: set<Var>, regular: set<nat>): seq<Operator>
    decreases |ops|
  {
    if ops == [] then []
    else
      var o := Strip(ops[0], necessary);
      (if IsRedundant(o, regular) then [] else [o]) + StripAll(ops[1..], necessary, regular)
  }

  lemma {:induction false} StripAllSpec(ops: seq<Operator>, necessary: set<Var>, regular: set<nat>, o: Operator)
    ensures o in StripAll(ops, necessary, regular)
      <==> exists op :: op in ops && o == Strip(op, necessary) && !IsRedundant(o, regular)
    decreases |ops|
  {
    if ops != [] {
      StripAllSpec(ops[1..], necessary, regular, o);
      assert forall op :: op in ops <==> op == ops[0] || op in ops[1..];
    }
  }

  // ---------- The in-place loops ----------

  lemma {:induction false} KeepPropsSnoc(s: seq<PrePost>, e: PrePost, necessary: set<Var>)
    ensures KeepProps(s + [e], necessary) == KeepProps(s, necessary) + if Prop(e.v) in necessary then [e] else []
    decreases |s|
  {
    if s == [] {
      assert [e][1..] == [];
    } else {
      assert (s + [e])[1..] == s[1..] + [e];
      KeepPropsSnoc(s[1..], e, necessary);
    }
  }

  lemma {:induction false} KeepNumsSnoc(s: seq<NumericEffect>, e: NumericEffect, necessary: set<Var>)
    ensures KeepNums(s + [e], necessary) == KeepNums(s, necessary) + if Num(e.v) in necessary then [e] else []
    decreases |s|
  {
    if s == [] {
      assert [e][1..] == [];
    } else {
      assert (s + [e])[1..] == s[1..] + [e];
      KeepNumsSnoc(s[1..], e, necessary);
    }
  }

  lemma {:induction false} StripAllSnoc(s: seq<Operator>, op: Operator, necessary: set<Var>, regular: set<nat>)
    ensures var o := Strip(op, necessary);
      StripAll(s + [op], necessary, regular)
      == StripAll(s, necessary, regular) + if IsRedundant(o, regular) then [] else [o]
    decreases |s|
  {
    hide Strip, IsRedundant;
    var t := s + [op];
    if s == [] {
      assert t == [op] && t[1..] == [];
    } else {
      assert t[0] == s[0] && t[1..] == s[1..] + [op];
      StripAllSnoc(s[1..], op, necessary, regular);
    }
  }

  method StripUnimportantEffects(op: Operator, necessary: set<Var>) returns (r: Operator)
    ensures r == Strip(op, necessary)
  {
    var prePost, newIndex := op.prePost, 0;
    for i := 0 to |prePost|
      invariant newIndex <= i && |prePost| == |op.prePost|
      invariant forall k :: i <= k < |prePost| ==> prePost[k] == op.prePost[k]
      invariant prePost[..newIndex] == KeepProps(op.prePost[..i], necessary)
    {
      hide KeepProps;
      var eff := prePost[i];
      KeepPropsSnoc(op.prePost[..i], eff, necessary);
      assert op.prePost[..i + 1] == op.prePost[..i] + [eff];
      if Prop(eff.v) in necessary {
        prePost, newIndex := prePost[newIndex := eff], newIndex + 1;
      }
    }
    assert op.prePost[..|op.prePost|] == op.prePost;
    var numEffects := StripNumericEffects(op.numEffects, necessary);
    r := op.(prePost := prePost[..newIndex], numEffects := numEffects);
  }

  method StripNumericEffects(effects: seq<NumericEffect>, necessary: set<Var>) returns (numEffects: seq<NumericEffect>)
    ensures numEffects == KeepNums(effects, necessary)
  {
    var newIndex := 0;
    numEffects := effects;
    for i := 0 to |numEffects|
      invariant newIndex <= i && |numEffects| == |effects|
      invariant forall k :: i <= k < |numEffects| ==> numEffects[k] == effects[k]
      invariant numEffects[..newIndex] == KeepNums(effects[..i], necessary)
    {
      hide KeepNums;
      var eff := numEffects[i];
      KeepNumsSnoc(effects[..i], eff, necessary);
      assert effects[..i + 1] == effects[..i] + [eff];
      if Num(eff.v) in necessary {
        numEffects, newIndex := numEffects[newIndex := eff], newIndex + 1;
      }
    }
    assert effects[..|effects|] == effects;
    numEffects := numEffects[..newIndex];
  }

  method StripOperators(operators: seq<Operator>, necessary: set<Var>, regular: set<nat>) returns (ops: seq<Operator>)
    ensures ops == StripAll(operators, necessary, regular)
  {
    hide Strip, IsRedundant;
    ops := operators;
    var newIndex := 0;
    for i := 0 to |ops|
      invariant newIndex <= i && |ops| == |operators|
      invariant forall k :: i <= k < |ops| ==> ops[k] == operators[k]
      invariant ops[..newIndex] == StripAll(operators[..i], necessary, regular)
    {
      StripAllSnoc(operators[..i], operators[i], necessary, regular);
      assert operators[..i + 1] == operators[..i] + [operators[i]];
      var op := StripUnimportantEffects(ops[i], necessary);
      ops := ops[i := op];
      if !IsRedundant(op, regular) {
        ops, newIndex := ops[newIndex := op], newIndex + 1;
      }
    }
    assert operators[..|operators|] == operators;
    ops := ops[..newIndex];
  }

  // ---------- Projection ----------

  ghost function Project(s: State, necessary: set<Var>): State {
    State(KeptProps(s.props, necessary), KeptNums(s.nums, necessary))
  }

  ghost function KeptProps(props: map<nat, int>, necessary: set<Var>): map<nat, int> {
    map v | v in props && Prop(v) in necessary :: props[v]
  }

  ghost function KeptNums(nums: map<nat, int>, necessary: set<Var>): map<nat, int> {
    map v | v in nums && Num(v) in necessary :: nums[v]
  }

  /** Every kept numeric effect is on a regular variable. */
  ghost predicate KeptAreRegular(ops: seq<Operator>, necessary: set<Var>, regular: set<nat>) {
    forall op, e :: op in ops && e in op.numEffects && Num(e.v) in necessary ==> e.v in regular
  }

  lemma {:induction false} HoldsProjected(f: Fact, s: State, necessary: set<Var>)
    requires Prop(f.v) in necessary
    ensures HoldsIn(f, s) <==> HoldsIn(f, Project(s, necessary))
  {
  }

  lemma {:induction false} AllHoldProjected(facts: seq<Fact>, s: State, necessary: set<Var>)
    requires forall f :: f in facts ==> Prop(f.v) in necessary
    ensures AllHold(facts, s) <==> AllHold(facts, Project(s, necessary))
  {
  }

  /** In a kept operator all conditions and operands are necessary, so no stripped effect carried a precondition. */
  lemma {:induction false} KeptReadsNecessary(ops: seq<Operator>, op: Operator, necessary: set<Var>, regular: set<nat>)
    requires op in ops && ClosedUnderDependencies(ops, necessary) && !IsRedundant(Strip(op, necessary), regular)
    ensures forall f :: f in op.prevail ==> Prop(f.v) in necessary
    ensures forall e :: e in op.prePost && e.pre != -1 ==> Prop(e.v) in necessary
    ensures forall e :: e in op.prePost && e !in Strip(op, necessary).prePost ==> e.pre == -1
  {
    var v := KeptTarget(op, necessary, regular);
    forall f | f in op.prevail ensures Prop(f.v) in necessary {
      var i :| 0 <= i < |op.prevail| && op.prevail[i] == f;
      assert PrevailVars(op.prevail)[i] == Prop(f.v);
      assert Prop(f.v) in CommonSources(op);
      CommonIsNecessary(ops, op, v, Prop(f.v));
    }
    forall e | e in op.prePost && e.pre != -1 ensures Prop(e.v) in necessary {
      assert Prop(e.v) in PreVars(op.prePost);
      CommonIsNecessary(ops, op, v, Prop(e.v));
    }
  }

  ghost predicate IsTarget(op: Operator, v: Var) {
    (exists e :: e in op.prePost && v == Prop(e.v)) || (exists e :: e in op.numEffects && v == Num(e.v))
  }

  lemma {:induction false} KeptTarget(op: Operator, necessary: set<Var>, regular: set<nat>) returns (v: Var)
    requires !IsRedundant(Strip(op, necessary), regular)
    ensures IsTarget(op, v) && v in necessary
  {
    var o := Strip(op, necessary);
    if o.prePost != [] {
      assert o.prePost[0] in o.prePost;
      v := Prop(o.prePost[0].v);
    } else {
      var e :| e in o.numEffects && e.v in regular;
      v := Num(e.v);
    }
  }

  lemma {:induction false} CommonIsNecessary(ops: seq<Operator>, op: Operator, v: Var, u: Var)
    requires op in ops && IsTarget(op, v) && u in CommonSources(op)
    ensures DependsOn(ops, v, u)
  {
    if e :| e in op.prePost && v == Prop(e.v) {
      assert u in PropSources(op, e);
    } else {
      var e :| e in op.numEffects && v == Num(e.v);
      assert u in NumSources(op, e);
    }
  }

  lemma {:induction false} CondsNecessary(ops: seq<Operator>, op: Operator, e: PrePost, necessary: set<Var>)
    requires op in ops && ClosedUnderDependencies(ops, necessary) && e in op.prePost && Prop(e.v) in necessary
    ensures forall f :: f in e.conds ==> Prop(f.v) in necessary
  {
    forall f | f in e.conds ensures Prop(f.v) in necessary {
      var i :| 0 <= i < |e.conds| && e.conds[i] == f;
      assert PrevailVars(e.conds)[i] == Prop(f.v);
      assert Prop(f.v) in PropSources(op, e);
      assert DependsOn(ops, Prop(e.v), Prop(f.v));
    }
  }

  lemma {:induction false} OperandNecessary(ops: seq<Operator>, op: Operator, e: NumericEffect, necessary: set<Var>)
    requires op in ops && ClosedUnderDependencies(ops, necessary) && e in op.numEffects && Num(e.v) in necessary
    ensures Num(e.operand) in necessary
  {
    assert Num(e.operand) in NumSources(op, e);
    assert DependsOn(ops, Num(e.v), Num(e.operand));
  }

  lemma {:induction false} KeepPropsStep(effects: seq<PrePost>, necessary: set<Var>)
    requires effects != []
    ensures KeepProps(effects, necessary)
         == (if Prop(effects[0].v) in necessary then [effects[0]] else []) + KeepProps(effects[1..], necessary)
    ensures Prop(effects[0].v) !in necessary ==> KeepProps(effects, necessary) == KeepProps(effects[1..], necessary)
  {
  }

  lemma {:induction false} UpdateKept(props: map<nat, int>, v: nat, val: int, necessary: set<Var>)
    ensures Prop(v) in necessary ==> KeptProps(props[v := val], necessary) == KeptProps(props, necessary)[v := val]
    ensures Prop(v) !in necessary ==> KeptProps(props[v := val], necessary) == KeptProps(props, necessary)
  {
  }

  lemma {:induction false} ApplyPropsProjected(effects: seq<PrePost>, s: State, props: map<nat, int>, necessary: set<Var>)
    requires forall e, f :: e in effects && Prop(e.v) in necessary && f in e.conds ==> Prop(f.v) in necessary
    ensures KeptProps(ApplyProps(effects, s, props), necessary)
         == ApplyProps(KeepProps(effects, necessary), Project(s, necessary), KeptProps(props, necessary))
    decreases |effects|
  {
    if effects != [] {
      var e := effects[0];
      var props' := if AllHold(e.conds, s) then props[e.v := e.post] else props;
      assert forall e :: e in effects[1..] ==> e in effects;
      ApplyPropsProjected(effects[1..], s, props', necessary);
      KeepPropsStep(effects, necessary);
      UpdateKept(props, e.v, e.post, necessary);
      if Prop(e.v) in necessary {
        assert forall f :: f in e.conds ==> Prop(f.v) in necessary;
        AllHoldProjected(e.conds, s, necessary);
      }
      hide KeptProps, KeepProps, Project, AllHold;
      var kept, ps := KeepProps(effects, necessary), Project(s, necessary);
      if Prop(e.v) in necessary {
        assert kept[0] == e && kept[1..] == KeepProps(effects[1..], necessary);
        assert ApplyProps(kept, ps, KeptProps(props, necessary)) == ApplyProps(kept[1..], ps, KeptProps(props', necessary));
      }
    }
  }

  lemma {:induction false} KeepNumsStep(effects: seq<NumericEffect>, necessary: set<Var>)
    requires effects != []
    ensures KeepNums(effects, necessary)
         == (if Num(effects[0].v) in necessary then [effects[0]] else []) + KeepNums(effects[1..], necessary)
    ensures Num(effects[0].v) !in necessary ==> KeepNums(effects, necessary) == KeepNums(effects[1..], necessary)
  {
  }

  lemma {:induction false} UpdateKeptNums(nums: map<nat, int>, v: nat, val: int, necessary: set<Var>)
    ensures Num(v) in necessary ==> KeptNums(nums[v := val], necessary) == KeptNums(nums, necessary)[v := val]
    ensures Num(v) !in necessary ==> KeptNums(nums[v := val], necessary) == KeptNums(nums, necessary)
  {
  }

  lemma {:induction false} ApplyNumsProjected(effects: seq<NumericEffect>, s: State, nums: map<nat, int>, necessary: set<Var>, ar: Arithmetic)
    requires forall e :: e in effects ==> e.v in nums && e.operand in s.nums
    requires forall e :: e in effects && Num(e.v) in necessary ==> Num(e.operand) in necessary
    ensures forall e :: e in KeepNums(effects, necessary) ==> e.v in KeptNums(nums, necessary) && e.operand in Project(s, necessary).nums
    ensures KeptNums(ApplyNums(effects, s, nums, ar), necessary)
         == ApplyNums(KeepNums(effects, necessary), Project(s, necessary), KeptNums(nums, necessary), ar)
    decreases |effects|
  {
    if effects != [] {
      var e := effects[0];
      assert e in effects && forall e :: e in effects[1..] ==> e in effects;
      var nums' := nums[e.v := ar(e.fop, nums[e.v], s.nums[e.operand])];
      ApplyNumsProjected(effects[1..], s, nums', necessary, ar);
      KeepNumsStep(effects, necessary);
      UpdateKeptNums(nums, e.v, nums'[e.v], necessary);
      var kept, ps := KeepNums(effects, necessary), Project(s, necessary);
      if Num(e.v) in necessary {
        assert kept[0] == e && kept[1..] == KeepNums(effects[1..], necessary);
        assert KeptNums(nums, necessary)[e.v] == nums[e.v] && ps.nums[e.operand] == s.nums[e.operand];
        hide KeptNums, KeepNums, Project;
        assert ApplyNums(kept, ps, KeptNums(nums, necessary), ar) == ApplyNums(kept[1..], ps, KeptNums(nums', necessary), ar);
      }
    }
  }

  /** Stripping commutes with projection. */
  lemma {:induction false} ApplyProjected(ops: seq<Operator>, op: Operator, s: State, necessary: set<Var>, ar: Arithmetic)
    requires op in ops && ClosedUnderDependencies(ops, necessary) && Applicable(op, s)
    requires Applicable(Strip(op, necessary), Project(s, necessary))
    ensures Apply(Strip(op, necessary), Project(s, necessary), ar) == Project(Apply(op, s, ar), necessary)
  {
    forall e, f | e in op.prePost && Prop(e.v) in necessary && f in e.conds ensures Prop(f.v) in necessary {
      CondsNecessary(ops, op, e, necessary);
    }
    forall e | e in op.numEffects && Num(e.v) in necessary ensures Num(e.operand) in necessary {
      OperandNecessary(ops, op, e, necessary);
    }
    ApplyPropsProjected(op.prePost, s, s.props, necessary);
    ApplyNumsProjected(op.numEffects, s, s.nums, necessary, ar);
  }

  /** A kept operator is applicable exactly when its stripped form is applicable in the projected state. */
  lemma {:induction false} ApplicableProjected(ops: seq<Operator>, op: Operator, s: State, necessary: set<Var>, regular: set<nat>)
    requires op in ops && ClosedUnderDependencies(ops, necessary) && !IsRedundant(Strip(op, necessary), regular)
    requires NumbersDefined(op, s)
    ensures Applicable(op, s) <==> Applicable(Strip(op, necessary), Project(s, necessary))
  {
    var o, p := Strip(op, necessary), Project(s, necessary);
    KeptReadsNecessary(ops, op, necessary, regular);
    AllHoldProjected(op.prevail, s, necessary);
    forall e | e in op.prePost && e.pre != -1 ensures e in o.prePost && (HoldsIn(Fact(e.v, e.pre), s) <==> HoldsIn(Fact(e.v, e.pre), p)) {
      HoldsProjected(Fact(e.v, e.pre), s, necessary);
    }
    forall e | e in o.numEffects ensures e.v in p.nums && e.operand in p.nums {
      OperandNecessary(ops, op, e, necessary);
    }
  }

  ghost predicate NumbersDefined(op: Operator, s: State) {
    forall e :: e in op.numEffects ==> e.v in s.nums && e.operand in s.nums
  }

  ghost predicate AllNumbersDefined(ops: seq<Operator>, s: State) {
    forall op :: op in ops ==> NumbersDefined(op, s)
  }

  lemma {:induction false} StillDefined(effects: seq<NumericEffect>, s: State, nums: map<nat, int>, ar: Arithmetic)
    requires forall e :: e in effects ==> e.v in nums && e.operand in s.nums
    ensures nums.Keys <= ApplyNums(effects, s, nums, ar).Keys
    decreases |effects|
  {
    if effects != [] {
      var e := effects[0];
      assert e in effects && forall e :: e in effects[1..] ==> e in effects;
      StillDefined(effects[1..], s, nums[e.v := ar(e.fop, nums[e.v], s.nums[e.operand])], ar);
    }
  }

  lemma {:induction false} ApplyKeepsDefined(ops: seq<Operator>, op: Operator, s: State, ar: Arithmetic)
    requires AllNumbersDefined(ops, s) && Applicable(op, s)
    ensures AllNumbersDefined(ops, Apply(op, s, ar))
  {
    StillDefined(op.numEffects, s, s.nums, ar);
    forall o | o in ops ensures NumbersDefined(o, Apply(op, s, ar)) {
      assert NumbersDefined(o, s);
    }
  }

  lemma {:induction false} NothingKept(effects: seq<NumericEffect>, necessary: set<Var>)
    ensures (forall e :: e in effects ==> Num(e.v) !in necessary) ==> KeepNums(effects, necessary) == []
    decreases |effects|
  {
    if effects != [] {
      NothingKept(effects[1..], necessary);
      assert effects[0] in effects;
    }
  }

  /** A removed operator does not change the projected state. */
  lemma {:induction false} RedundantChangesNothing(ops: seq<Operator>, op: Operator, s: State, necessary: set<Var>,
                                                   regular: set<nat>, ar: Arithmetic)
    requires op in ops && KeptAreRegular(ops, necessary, regular) && IsRedundant(Strip(op, necessary), regular)
    requires ClosedUnderDependencies(ops, necessary) && Applicable(op, s)
    ensures Project(Apply(op, s, ar), necessary) == Project(s, necessary)
  {
    NothingKept(op.numEffects, necessary);
    assert forall e :: e in op.prePost ==> e !in KeepProps(op.prePost, necessary);
    forall e | e in op.numEffects && Num(e.v) in necessary ensures Num(e.operand) in necessary {
      OperandNecessary(ops, op, e, necessary);
    }
    ApplyPropsProjected(op.prePost, s, s.props, necessary);
    ApplyNumsProjected(op.numEffects, s, s.nums, necessary, ar);
  }

  // ---------- Plans ----------

  /** The task that relevance pruning leaves. */
  function Pruned(t: Task, necessary: set<Var>, regular: set<nat>): Task {
    t.(operators := StripAll(t.operators, necessary, regular))
  }

  /** A plan with the removed operators deleted and the others stripped. */
  function StripPlan(plan: seq<Operator>, necessary: set<Var>, regular: set<nat>): seq<Operator> {
    StripAll(plan, necessary, regular)
  }

  ghost predicate IsRelevance(t: Task, necessary: set<Var>, regular: set<nat>) {
    && HasSeeds(t, necessary)
    && ClosedUnderDependencies(t.operators, necessary)
    && KeptAreRegular(t.operators, necessary, regular)
  }

  /** Every plan is, with removed operators deleted, a plan of the pruned task. */
  lemma {:induction false} PlanSurvivesPruning(t: Task, s: State, plan: seq<Operator>, necessary: set<Var>, regular: set<nat>, ar: Arithmetic)
    requires IsRelevance(t, necessary, regular) && AllNumbersDefined(t.operators, s)
    requires IsPlanFrom(t, s, plan, ar)
    ensures IsPlanFrom(Pruned(t, necessary, regular), Project(s, necessary), StripPlan(plan, necessary, regular), ar)
    decreases |plan|
  {
    HoldsProjected(t.globalConstraint, s, necessary);
    AllHoldProjected(t.goals, s, necessary);
    if plan != [] {
      var op, s' := plan[0], Apply(plan[0], s, ar);
      ApplyKeepsDefined(t.operators, op, s, ar);
      PlanSurvivesPruning(t, s', plan[1..], necessary, regular, ar);
      var o := Strip(op, necessary);
      if IsRedundant(o, regular) {
        RedundantChangesNothing(t.operators, op, s, necessary, regular, ar);
        assert StripPlan(plan, necessary, regular) == StripPlan(plan[1..], necessary, regular);
      } else {
        assert NumbersDefined(op, s);
        ApplicableProjected(t.operators, op, s, necessary, regular);
        ApplyProjected(t.operators, op, s, necessary, ar);
        StripAllSpec(t.operators, necessary, regular, o);
        assert StripPlan(plan, necessary, regular)[1..] == StripPlan(plan[1..], necessary, regular);
      }
    }
  }

  /** Every plan of the pruned task runs in the original: step by step there is an operator it was stripped from. */
  lemma {:induction false} PrunedPlanRuns(t: Task, s: State, pruned: seq<Operator>, necessary: set<Var>, regular: set<nat>, ar: Arithmetic)
    returns (plan: seq<Operator>)
    requires IsRelevance(t, necessary, regular) && AllNumbersDefined(t.operators, s)
    requires IsPlanFrom(Pruned(t, necessary, regular), Project(s, necessary), pruned, ar)
    ensures IsPlanFrom(t, s, plan, ar)
    ensures |plan| == |pruned| && forall i :: 0 <= i < |plan| ==> pruned[i] == Strip(plan[i], necessary)
    decreases |pruned|
  {
    HoldsProjected(t.globalConstraint, s, necessary);
    AllHoldProjected(t.goals, s, necessary);
    if pruned == [] {
      plan := [];
    } else {
      StripAllSpec(t.operators, necessary, regular, pruned[0]);
      var op :| op in t.operators && pruned[0] == Strip(op, necessary) && !IsRedundant(pruned[0], regular);
      assert NumbersDefined(op, s);
      ApplicableProjected(t.operators, op, s, necessary, regular);
      ApplyProjected(t.operators, op, s, necessary, ar);
      ApplyKeepsDefined(t.operators, op, s, ar);
      var rest := PrunedPlanRuns(t, Apply(op, s, ar), pruned[1..], necessary, regular, ar);
      plan := [op] + rest;
      assert plan[1..] == rest;
    }
  }
}
