/** Operators, states and plans of the preprocessor's tasks without axioms (src/preprocess/operator.h). */
module PlanningTask {

  /** A finite-domain or a numeric variable of the causal graph. */
  datatype Var = Prop(id: nat) | Num(id: nat)

  datatype Fact = Fact(v: nat, val: int)

  /** pre == -1: no precondition.  The effect fires when all conds hold. */
  datatype PrePost = PrePost(v: nat, pre: int, post: int, conds: seq<Fact>)

  datatype FOperator = Assign | ScaleUp | ScaleDown | Increase | Decrease

  datatype NumericEffect = NumericEffect(v: nat, fop: FOperator, operand: nat)

  datatype Operator = Operator(name: string, prevail: seq<Fact>, prePost: seq<PrePost>, numEffects: seq<NumericEffect>)

  /** Numbers are opaque values; `arithmetic` computes one assignment. */
  type Arithmetic = (FOperator, int, int) -> int

  datatype State = State(props: map<nat, int>, nums: map<nat, int>)

  datatype Task = Task(operators: seq<Operator>, goals: seq<Fact>, globalConstraint: Fact)

  // ---------- Execution ----------

  predicate HoldsIn(f: Fact, s: State) {
    f.v in s.props && s.props[f.v] == f.val
  }

  predicate AllHold(facts: seq<Fact>, s: State) {
    forall f :: f in facts ==> HoldsIn(f, s)
  }

  predicate Applicable(op: Operator, s: State) {
    && AllHold(op.prevail, s)
    && (forall e :: e in op.prePost && e.pre != -1 ==> HoldsIn(Fact(e.v, e.pre), s))
    && (forall e :: e in op.numEffects ==> e.v in s.nums && e.operand in s.nums)
  }

  /** Effects fire by the old state; a later effect on the same variable wins. */
  function ApplyProps(effects: seq<PrePost>, old_: State, props: map<nat, int>): map<nat, int>
    decreases |effects|
  {
    if effects == [] then props
    else
      var e := effects[0];
      ApplyProps(effects[1..], old_, if AllHold(e.conds, old_) then props[e.v := e.post] else props)
  }

  /** Operands are read from the old state, the changed variable from the values so far. */
  function ApplyNums(effects: seq<NumericEffect>, old_: State, nums: map<nat, int>, ar: Arithmetic): map<nat, int>
    requires forall e :: e in effects ==> e.v in nums && e.operand in old_.nums
    decreases |effects|
  {
    if effects == [] then nums
    else
      var e := effects[0];
      ApplyNums(effects[1..], old_, nums[e.v := ar(e.fop, nums[e.v], old_.nums[e.operand])], ar)
  }

  function Apply(op: Operator, s: State, ar: Arithmetic): State
    requires Applicable(op, s)
  {
    State(ApplyProps(op.prePost, s, s.props), ApplyNums(op.numEffects, s, s.nums, ar))
  }

  /** The operators run one after the other, every state meets the global constraint and the last one the goal. */
  predicate IsPlanFrom(t: Task, s: State, plan: seq<Operator>, ar: Arithmetic)
    decreases |plan|
  {
    && HoldsIn(t.globalConstraint, s)
    && if plan == [] then AllHold(t.goals, s)
       else plan[0] in t.operators && Applicable(plan[0], s) && IsPlanFrom(t, Apply(plan[0], s, ar), plan[1..], ar)
  }

  // ---------- Dependencies ----------

  /** Variables read by every effect of an operator. */
  function CommonSources(op: Operator): seq<Var> {
    PrevailVars(op.prevail) + PreVars(op.prePost)
  }

  function PrevailVars(facts: seq<Fact>): (r: seq<Var>)
    ensures |r| == |facts| && forall i :: 0 <= i < |r| ==> r[i] == Prop(facts[i].v)
  {
    seq(|facts|, i requires 0 <= i < |facts| => Prop(facts[i].v))
  }

  function PreVars(effects: seq<PrePost>): (r: seq<Var>)
    ensures forall x :: x in r <==> exists e :: e in effects && e.pre != -1 && x == Prop(e.v)
    decreases |effects|
  {
    if effects == [] then []
    else (if effects[0].pre != -1 then [Prop(effects[0].v)] else []) + PreVars(effects[1..])
  }

  /** The variables an effect's new value depends on: conditions of the operator and of the effect, and the operand. */
  function PropSources(op: Operator, e: PrePost): seq<Var> {
    CommonSources(op) + PrevailVars(e.conds)
  }

  function NumSources(op: Operator, e: NumericEffect): seq<Var> {
    CommonSources(op) + [Num(e.operand)]
  }

  /** Some operator lets v depend on u. */
  ghost predicate DependsOn(ops: seq<Operator>, v: Var, u: Var) {
    exists op :: op in ops &&
      ((exists e :: e in op.prePost && v == Prop(e.v) && u in PropSources(op, e))
       || (exists e :: e in op.numEffects && v == Num(e.v) && u in NumSources(op, e)))
  }

  ghost predicate ClosedUnderDependencies(ops: seq<Operator>, X: set<Var>) {
    forall u, v :: v in X && DependsOn(ops, v, u) ==> u in X
  }

  ghost predicate HasSeeds(t: Task, X: set<Var>) {
    && (forall g :: g in t.goals ==> Prop(g.v) in X)
    && Prop(t.globalConstraint.v) in X
  }

  /** The numeric variables that are regular once these variables are marked. */
  ghost function RegularOf(necessary: set<Var>, declared: set<nat>): set<nat> {
    set v | v in necessary && v.Num? && v.id !in declared :: v.id
  }

  /** The least set with the goal and constraint variables that contains whatever its members depend on. */
  ghost predicate IsRelevantSet(t: Task, X: set<Var>) {
    && HasSeeds(t, X) && ClosedUnderDependencies(t.operators, X)
    && forall Y :: HasSeeds(t, Y) && ClosedUnderDependencies(t.operators, Y) ==> X <= Y
  }
}
