/**
  The counter-based evaluation of logic axioms (src/search/axioms.cc).
  Proof steps are lemmas about `Run` values, snapshots of one evaluation.
 */
module AxiomEvaluator {
  import opened AxiomModel

  // ---------- Counters ----------

  /** Condition positions whose literal was not processed yet. */
  function Unsat(conds: seq<Fact>, popped: set<Fact>): nat {
    if conds == [] then 0 else (if conds[0] in popped then 0 else 1) + Unsat(conds[1..], popped)
  }

  function CountFact(conds: seq<Fact>, f: Fact): nat {
    if conds == [] then 0 else (if conds[0] == f then 1 else 0) + CountFact(conds[1..], f)
  }

  function Occurrences(list: seq<nat>, i: nat): nat {
    if list == [] then 0 else (if list[0] == i then 1 else 0) + Occurrences(list[1..], i)
  }

  lemma {:induction false} UnsatZero(conds: seq<Fact>, popped: set<Fact>)
    ensures Unsat(conds, popped) == 0 <==> forall c :: c in conds ==> c in popped
    ensures Unsat(conds, {}) == |conds|
  {
    if conds != [] {
      UnsatZero(conds[1..], popped);
    }
  }

  lemma {:induction false} UnsatPop(conds: seq<Fact>, popped: set<Fact>, f: Fact)
    requires f !in popped
    ensures Unsat(conds, popped) == Unsat(conds, popped + {f}) + CountFact(conds, f)
  {
    if conds != [] {
      UnsatPop(conds[1..], popped, f);
    }
  }

  lemma {:induction false} OccurrencesAppend(list: seq<nat>, x: nat, i: nat)
    ensures Occurrences(list + [x], i) == Occurrences(list, i) + if x == i then 1 else 0
  {
    if list != [] {
      assert (list + [x])[1..] == list[1..] + [x];
      OccurrencesAppend(list[1..], x, i);
    } else {
      assert (list + [x])[1..] == [];
    }
  }

  lemma {:induction false} CountAppend(conds: seq<Fact>, x: Fact, f: Fact)
    ensures CountFact(conds + [x], f) == CountFact(conds, f) + if x == f then 1 else 0
  {
    if conds != [] {
      assert (conds + [x])[1..] == conds[1..] + [x];
      CountAppend(conds[1..], x, f);
    } else {
      assert (conds + [x])[1..] == [];
    }
  }

  // ---------- Invariant of an evaluation ----------

  /** order: the variables derived so far.  pushed: every literal that ever entered the queue. */
  datatype Run = Run(vals: seq<nat>, queue: seq<Fact>, popped: set<Fact>, order: seq<nat>, pushed: seq<Fact>)

  ghost predicate Distinct(s: seq<Fact>) {
    forall i, j :: 0 <= i < j < |s| ==> s[i] != s[j]
  }

  ghost predicate Known(r: Run, f: Fact) {
    f in r.popped || f in r.queue
  }

  ghost predicate QueueOnce(r: Run) {
    && Distinct(r.queue) && Distinct(r.pushed)
    && (forall f :: f in r.queue ==> f !in r.popped)
    && (forall f :: f in r.pushed <==> Known(r, f))
  }

  /** Variable order[i] has a rule whose conditions were all processed, derived ones before it. */
  ghost predicate DerivedAt(t: AxiomTask, r: Run, i: nat)
    requires WellFormed(t) && IsState(t, r.vals) && i < |r.order|
  {
    exists a :: a in t.axioms && a.effect.v == r.order[i] && a.effect.val == r.vals[r.order[i]]
      && forall c :: c in a.conditions ==>
           c in r.popped && (IsLogic(t, c.v) && !IsDefault(t, c) ==> c.v in r.order[..i])
  }

  ghost predicate Derived(t: AxiomTask, r: Run)
    requires WellFormed(t) && IsState(t, r.vals)
  {
    && (forall v: nat :: v < |r.vals| && IsLogic(t, v) ==> (r.vals[v] != t.defaults[v] <==> v in r.order))
    && (forall i :: 0 <= i < |r.order| ==> r.order[i] < |r.vals| && IsLogic(t, r.order[i]) && DerivedAt(t, r, i))
  }

  /** Known literals are true, and true literals are known except defaults of layers not closed yet. */
  ghost predicate KnowsTruth(t: AxiomTask, r: Run, closed: set<nat>)
    requires WellFormed(t) && IsState(t, r.vals)
  {
    && (forall f :: Known(r, f) ==> IsFact(t, f) && r.vals[f.v] == f.val)
    && (forall v: nat :: v < |r.vals| && (!IsLogic(t, v) || r.vals[v] != t.defaults[v]) ==> Known(r, Fact(v, r.vals[v])))
    && (forall v: nat :: v < |r.vals| && IsLogic(t, v) && r.vals[v] == t.defaults[v]
         ==> (Known(r, Fact(v, r.vals[v])) <==> v in closed))
  }

  /** The state while rules of layer `layer` are applied; defaults of the variables in `closed` are final. */
  ghost predicate Inv(t: AxiomTask, input: seq<nat>, r: Run, layer: int, closed: set<nat>)
    requires WellFormed(t)
  {
    && IsState(t, r.vals) && |input| == |r.vals|
    && (forall v: nat :: v < |r.vals| && !IsLogic(t, v) ==> r.vals[v] == input[v])
    && QueueOnce(r)
    && KnowsTruth(t, r, closed)
    && (forall v :: v in closed ==> v < |t.layers| && IsLogic(t, v) && t.layers[v] < layer)
    && (forall f :: f in r.queue ==> f.v < |t.layers| && Level(t, f) >= layer)
    && Derived(t, r)
  }

  // ---------- Steps ----------

  ghost function AfterFire(r: Run, f: Fact): Run
    requires f.v < |r.vals|
  {
    Run(r.vals[f.v := f.val], r.queue + [f], r.popped, r.order + [f.v], r.pushed + [f])
  }

  /** A variable that is not at its default holds the value of its rules. */
  lemma {:induction false} NotDefaultIsEffect(t: AxiomTask, r: Run, a: Axiom)
    requires WellFormed(t) && IsState(t, r.vals) && Derived(t, r) && a in t.axioms
    ensures r.vals[a.effect.v] == t.defaults[a.effect.v] || r.vals[a.effect.v] == a.effect.val
  {
    var v := a.effect.v;
    if r.vals[v] != t.defaults[v] {
      var i :| 0 <= i < |r.order| && r.order[i] == v;
      assert DerivedAt(t, r, i);
    }
  }

  lemma {:induction false} FireKeepsDerived(t: AxiomTask, r: Run, a: Axiom)
    requires WellFormed(t) && IsState(t, r.vals) && Derived(t, r) && a in t.axioms
    requires r.vals[a.effect.v] == t.defaults[a.effect.v]
    requires forall c :: c in a.conditions ==> c in r.popped && IsFact(t, c) && r.vals[c.v] == c.val
    ensures IsState(t, AfterFire(r, a.effect).vals) && Derived(t, AfterFire(r, a.effect))
  {
    var r' := AfterFire(r, a.effect);
    var v := a.effect.v;
    assert v !in r.order;
    forall i | 0 <= i < |r'.order| ensures DerivedAt(t, r', i) {
      if i < |r.order| {
        assert DerivedAt(t, r, i);
        var b :| b in t.axioms && b.effect.v == r.order[i] && b.effect.val == r.vals[r.order[i]]
          && forall c :: c in b.conditions ==>
               c in r.popped && (IsLogic(t, c.v) && !IsDefault(t, c) ==> c.v in r.order[..i]);
        assert r'.order[..i] == r.order[..i] && r.order[i] in r.order;
      } else {
        assert r'.order[..i] == r.order;
        assert a.effect.v == r'.order[i] && a.effect.val == r'.vals[v];
      }
    }
    forall u: nat | u < |r'.vals| && IsLogic(t, u) ensures r'.vals[u] != t.defaults[u] <==> u in r'.order {
      assert u in r'.order <==> u in r.order || u == v;
    }
  }

  /** A rule with processed conditions sets its variable and queues the new literal, which is new. */
  lemma {:induction false} FireKeepsInv(t: AxiomTask, input: seq<nat>, r: Run, layer: int, closed: set<nat>, a: Axiom)
    requires WellFormed(t) && Inv(t, input, r, layer, closed) && a in t.axioms
    requires forall c :: c in a.conditions ==> c in r.popped
    requires r.vals[a.effect.v] != a.effect.val && t.layers[a.effect.v] >= layer
    ensures Inv(t, input, AfterFire(r, a.effect), layer, closed)
  {
    var r' := AfterFire(r, a.effect);
    NotDefaultIsEffect(t, r, a);
    assert forall c :: c in a.conditions ==> Known(r, c);
    FireKeepsDerived(t, r, a);
    assert !Known(r, a.effect);
    assert forall f :: Known(r', f) <==> Known(r, f) || f == a.effect;
    assert a.effect.v !in closed;
    FireKeepsTruth(t, r, closed, a);
  }

  lemma {:induction false} FireKeepsTruth(t: AxiomTask, r: Run, closed: set<nat>, a: Axiom)
    requires WellFormed(t) && IsState(t, r.vals) && KnowsTruth(t, r, closed) && a in t.axioms
    requires r.vals[a.effect.v] == t.defaults[a.effect.v] && a.effect.v !in closed
    ensures IsState(t, AfterFire(r, a.effect).vals) && KnowsTruth(t, AfterFire(r, a.effect), closed)
  {
    var r' := AfterFire(r, a.effect);
    var v := a.effect.v;
    assert forall f :: Known(r', f) <==> Known(r, f) || f == a.effect;
    assert !Known(r, Fact(v, t.defaults[v]));
    forall f | Known(r', f) ensures IsFact(t, f) && r'.vals[f.v] == f.val {
      assert f == Fact(f.v, f.val);
    }
  }

  ghost function AfterPop(r: Run): Run
    requires r.queue != []
  {
    r.(queue := r.queue[..|r.queue| - 1], popped := r.popped + {r.queue[|r.queue| - 1]})
  }

  lemma {:induction false} PopKeepsInv(t: AxiomTask, input: seq<nat>, r: Run, layer: int, closed: set<nat>)
    requires WellFormed(t) && Inv(t, input, r, layer, closed) && r.queue != []
    ensures Inv(t, input, AfterPop(r), layer, closed)
    ensures var f := r.queue[|r.queue| - 1]; IsFact(t, f) && f !in r.popped && Level(t, f) >= layer
  {
    var r' := AfterPop(r);
    var f := r.queue[|r.queue| - 1];
    forall g ensures Known(r', g) <==> Known(r, g) {
      if g in r.queue && g !in r'.queue {
        var i :| 0 <= i < |r.queue| && r.queue[i] == g;
        assert i == |r.queue| - 1;
      }
    }
    forall i | 0 <= i < |r'.order| ensures DerivedAt(t, r', i) {
      assert DerivedAt(t, r, i);
    }
    assert f in r.queue;
  }

  ghost function AfterClose(r: Run, t: AxiomTask, v: nat): Run
    requires v < |r.vals| && v < |t.defaults|
  {
    if r.vals[v] == t.defaults[v] then
      r.(queue := r.queue + [Fact(v, t.defaults[v])], pushed := r.pushed + [Fact(v, t.defaults[v])])
    else r
  }

  /** Negation by failure: a variable still at its default gets that literal. */
  lemma {:induction false} CloseKeepsInv(t: AxiomTask, input: seq<nat>, r: Run, layer: int, closed: set<nat>, v: nat)
    requires WellFormed(t) && Inv(t, input, r, layer, closed)
    requires v < |t.layers| && IsLogic(t, v) && t.layers[v] == layer - 1 && v !in closed
    ensures Inv(t, input, AfterClose(r, t, v), layer, closed + {v})
  {
    var r' := AfterClose(r, t, v);
    var f := Fact(v, t.defaults[v]);
    assert forall g :: Known(r', g) <==> Known(r, g) || (r.vals[v] == t.defaults[v] && g == f);
    forall i | 0 <= i < |r'.order| ensures DerivedAt(t, r', i) {
      assert DerivedAt(t, r, i);
    }
    if r.vals[v] == t.defaults[v] {
      assert !Known(r, f);
    }
  }

  ghost predicate Counted(t: AxiomTask, popped: set<Fact>, unsat: seq<int>) {
    |unsat| == |t.axioms| && forall i :: 0 <= i < |unsat| ==> unsat[i] == Unsat(t.axioms[i].conditions, popped)
  }

  /** While the rules listed under one literal are visited: `rest` is still to come. */
  ghost predicate Counting(t: AxiomTask, popped: set<Fact>, unsat: seq<int>, rest: seq<nat>) {
    && |unsat| == |t.axioms|
    && forall i :: 0 <= i < |unsat| ==> unsat[i] == Unsat(t.axioms[i].conditions, popped) + Occurrences(rest, i)
  }

  /** Rules whose counter is zero have their effect. */
  ghost predicate ZeroFired(t: AxiomTask, vals: seq<nat>, unsat: seq<int>)
    requires WellFormed(t) && IsState(t, vals)
  {
    |unsat| == |t.axioms| && forall i :: 0 <= i < |unsat| && unsat[i] == 0 ==> vals[t.axioms[i].effect.v] == t.axioms[i].effect.val
  }

  lemma {:induction false} StartCounting(t: AxiomTask, popped: set<Fact>, unsat: seq<int>, f: Fact, list: seq<nat>)
    requires Counted(t, popped, unsat) && f !in popped
    requires forall i :: 0 <= i < |t.axioms| ==> Occurrences(list, i) == CountFact(t.axioms[i].conditions, f)
    ensures Counting(t, popped + {f}, unsat, list)
  {
    forall i | 0 <= i < |unsat| ensures unsat[i] == Unsat(t.axioms[i].conditions, popped + {f}) + Occurrences(list, i) {
      UnsatPop(t.axioms[i].conditions, popped, f);
    }
  }

  /** With no true literal left unprocessed and all lower layers closed, every rule is satisfied. */
  lemma {:induction false} DrainedSatisfiesRules(t: AxiomTask, input: seq<nat>, r: Run, layer: int, closed: set<nat>, unsat: seq<int>)
    requires WellFormed(t) && Stratified(t) && Inv(t, input, r, layer, closed) && r.queue == []
    requires Counted(t, r.popped, unsat) && ZeroFired(t, r.vals, unsat)
    requires forall v: nat :: v < |t.layers| ==> t.layers[v] <= layer
    requires forall v: nat :: v < |t.layers| && IsLogic(t, v) && t.layers[v] < layer ==> v in closed
    ensures RulesSatisfied(t, r.vals)
  {
    forall a | a in t.axioms && (forall c :: c in a.conditions ==> r.vals[c.v] == c.val)
      ensures r.vals[a.effect.v] == a.effect.val
    {
      var i :| 0 <= i < |t.axioms| && t.axioms[i] == a;
      forall c | c in a.conditions ensures c in r.popped {
        assert Level(t, c) <= layer;
        assert c == Fact(c.v, r.vals[c.v]);
        assert Known(r, c);
      }
      UnsatZero(a.conditions, r.popped);
    }
  }

  lemma {:induction false} DerivedIsSupported(t: AxiomTask, input: seq<nat>, r: Run, layer: int, closed: set<nat>)
    requires WellFormed(t) && Inv(t, input, r, layer, closed)
    ensures Supported(t, r.vals, r.order)
  {
    forall i | 0 <= i < |r.order| ensures SupportedAt(t, r.vals, r.order, i) {
      assert DerivedAt(t, r, i);
      var a :| a in t.axioms && a.effect.v == r.order[i] && a.effect.val == r.vals[r.order[i]]
        && forall c :: c in a.conditions ==>
             c in r.popped && (IsLogic(t, c.v) && !IsDefault(t, c) ==> c.v in r.order[..i]);
      forall c | c in a.conditions ensures SupportedCondition(t, r.vals, r.order, i, c) {
        assert Known(r, c);
      }
    }
  }

  // ---------- The evaluator ----------

  datatype AxiomRule = AxiomRule(conditionCount: nat, unsatisfied: int, effect: Fact)

  datatype NegationByFailureInfo = NegationByFailureInfo(varNo: nat, literal: Fact)

  ghost function UnsatOf(rules: seq<AxiomRule>): (r: seq<int>)
    ensures |r| == |rules| && forall i :: 0 <= i < |rules| ==> r[i] == rules[i].unsatisfied
  {
    seq(|rules|, i requires 0 <= i < |rules| => rules[i].unsatisfied)
  }

  function MaxLayer(layers: seq<int>): (m: int)
    ensures m >= -1 && forall v :: 0 <= v < |layers| ==> layers[v] <= m
    ensures m == -1 || m in layers
  {
    if layers == [] then -1
    else
      var rest := MaxLayer(layers[1..]);
      assert forall v :: 1 <= v < |layers| ==> layers[v] == layers[1..][v - 1];
      if layers[0] > rest then layers[0] else rest
  }

  /** The variables of a layer, in increasing order, whose default the layer decides. */
  function NbfInfo(t: AxiomTask, layer: int, n: nat): (r: seq<NegationByFailureInfo>)
    requires n <= |t.layers| && n <= |t.defaults|
    ensures forall i :: 0 <= i < |r| ==> r[i].varNo < n && t.layers[r[i].varNo] == layer
    ensures forall i :: 0 <= i < |r| ==> r[i].literal == Fact(r[i].varNo, t.defaults[r[i].varNo])
  {
    if n == 0 then []
    else
      NbfInfo(t, layer, n - 1)
      + (if t.layers[n - 1] == layer then [NegationByFailureInfo(n - 1, Fact(n - 1, t.defaults[n - 1]))] else [])
  }

  lemma {:induction false} NbfInfoNext(t: AxiomTask, n: nat)
    requires n < |t.layers| && n < |t.defaults|
    ensures forall l ::
      NbfInfo(t, l, n + 1) == NbfInfo(t, l, n) + (if t.layers[n] == l then [NegationByFailureInfo(n, Fact(n, t.defaults[n]))] else [])
  {
  }

  ghost predicate HasEntry(infos: seq<NegationByFailureInfo>, v: nat) {
    exists i :: 0 <= i < |infos| && infos[i].varNo == v
  }

  lemma {:induction false} HasEntrySnoc(infos: seq<NegationByFailureInfo>, info: NegationByFailureInfo, v: nat)
    ensures HasEntry(infos + [info], v) <==> HasEntry(infos, v) || v == info.varNo
  {
    if HasEntry(infos, v) {
      var i :| 0 <= i < |infos| && infos[i].varNo == v;
      assert (infos + [info])[i].varNo == v;
    }
    assert (infos + [info])[|infos|].varNo == info.varNo;
  }

  /** Each variable of the layer has one entry. */
  lemma {:induction false} NbfInfoComplete(t: AxiomTask, layer: int, n: nat)
    requires n <= |t.layers| && n <= |t.defaults|
    ensures var r := NbfInfo(t, layer, n);
      && (forall i, j :: 0 <= i < j < |r| ==> r[i].varNo < r[j].varNo)
      && (forall v: nat :: v < n && t.layers[v] == layer ==> HasEntry(r, v))
  {
    if n > 0 {
      NbfInfoComplete(t, layer, n - 1);
      NbfInfoNext(t, n - 1);
      hide NbfInfo, HasEntry;
      var rest, info := NbfInfo(t, layer, n - 1), NegationByFailureInfo(n - 1, Fact(n - 1, t.defaults[n - 1]));
      assert forall i :: 0 <= i < |rest| ==> rest[i].varNo < n - 1;
      assert t.layers[n - 1] != layer ==> NbfInfo(t, layer, n) == rest;
      forall v: nat | v < n && t.layers[v] == layer ensures HasEntry(NbfInfo(t, layer, n), v) {
        HasEntrySnoc(rest, info, v);
      }
    }
  }

  /** No comparison variable of this layer is at its default. */
  ghost predicate DecidedAt(t: AxiomTask, vals: seq<nat>, layer: int)
    requires |vals| == |t.layers| == |t.defaults|
  {
    forall v: nat :: v < |vals| && !IsLogic(t, v) && t.layers[v] == layer ==> vals[v] != t.defaults[v]
  }

  /** The same for all layers that are closed, which is all but the last. */
  ghost predicate ComparisonsDecided(t: AxiomTask, vals: seq<nat>)
    requires |vals| == |t.layers| == |t.defaults|
  {
    forall layer :: 0 <= layer < MaxLayer(t.layers) ==> DecidedAt(t, vals, layer)
  }

  /** Counters that can still reach zero. */
  function Pending(unsat: seq<int>): nat {
    if unsat == [] then 0 else (if unsat[0] > 0 then 1 else 0) + Pending(unsat[1..])
  }

  lemma {:induction false} PendingLess(unsat: seq<int>, i: nat)
    requires i < |unsat|
    ensures Pending(unsat[i := unsat[i] - 1]) == Pending(unsat) - if unsat[i] == 1 then 1 else 0
    decreases |unsat|
  {
    var less := unsat[i := unsat[i] - 1];
    if i == 0 {
      assert less[1..] == unsat[1..];
    } else {
      PendingLess(unsat[1..], i - 1);
      assert less[0] == unsat[0] && less[1..] == unsat[1..][i - 1 := unsat[1..][i - 1] - 1];
    }
  }

  lemma {:induction false} QueuedTwice(before: seq<Fact>, after: seq<Fact>, f: Fact)
    requires before <= after && f in before && f in after[|before|..]
    ensures !Distinct(after)
  {
    var i :| 0 <= i < |before| && before[i] == f;
    var j :| 0 <= j < |after[|before|..]| && after[|before|..][j] == f;
    assert after[i] == after[|before| + j];
  }

  lemma {:induction false} StillTwice(before: seq<Fact>, after: seq<Fact>)
    requires before <= after && !Distinct(before)
    ensures !Distinct(after)
  {
    var i, j :| 0 <= i < j < |before| && before[i] == before[j];
    assert after[i] == after[j];
  }

  /** What is not derived was queued at the start. */
  lemma {:induction false} AlreadyQueued(t: AxiomTask, input: seq<nat>, r: Run, layer: int, closed: set<nat>, v: nat)
    requires WellFormed(t) && Inv(t, input, r, layer, closed) && v < |t.layers| && !IsLogic(t, v)
    ensures v < |r.vals| == |input| && r.vals[v] == input[v] && Fact(v, input[v]) in r.pushed
  {
    assert Known(r, Fact(v, r.vals[v]));
  }

  function AllFacts(t: AxiomTask): (r: set<Fact>)
    ensures forall f :: f in r <==> IsFact(t, f)
  {
    set v: nat, val: nat | v < |t.domain| && val < t.domain[v] :: Fact(v, val)
  }

  lemma {:induction false} RuleFacts(t: AxiomTask, i: nat)
    requires WellFormed(t) && i < |t.axioms|
    ensures forall c :: c in t.axioms[i].conditions ==> IsFact(t, c)
  {
    assert t.axioms[i] in t.axioms;
  }

  class AxiomEvaluator {
    const task: AxiomTask
    var axiomLiterals: map<Fact, seq<nat>>
    var rules: seq<AxiomRule>
    var nbfInfoByLayer: seq<seq<NegationByFailureInfo>>
    var queue: seq<Fact>

    /** What the constructor sets up: the cross references, the rules and the entries for negation by failure. */
    ghost predicate Valid()
      reads this
    {
      && WellFormed(task)
      && LiteralsIndexed(task.axioms)
      && |rules| == |task.axioms|
      && (forall i :: 0 <= i < |rules| ==>
            rules[i].conditionCount == |task.axioms[i].conditions| && rules[i].effect == task.axioms[i].effect)
      && |nbfInfoByLayer| == MaxLayer(task.layers) + 1
      && (forall l :: 0 <= l < |nbfInfoByLayer| - 1 ==> nbfInfoByLayer[l] == NbfInfo(task, l, |task.layers|))
    }

    ghost predicate LiteralsIndexed(axioms: seq<Axiom>)
      reads this`axiomLiterals
    {
      && axiomLiterals.Keys == AllFacts(task)
      && (forall f :: f in axiomLiterals ==> Lists(axiomLiterals[f], axioms, f))
    }

    constructor (t: AxiomTask)
      requires WellFormed(t)
      ensures Valid() && task == t && queue == []
    {
      task := t;
      queue := [];
      axiomLiterals := map f | f in AllFacts(t) :: [];
      rules := seq(|t.axioms|, i requires 0 <= i < |t.axioms| =>
        var n := |t.axioms[i].conditions|; AxiomRule(n, n, t.axioms[i].effect));
      nbfInfoByLayer := seq(MaxLayer(t.layers) + 1, _ => []);
      new;
      CrossReference();
      InitializeNbf();
    }

    method CrossReference()
      requires WellFormed(task) && axiomLiterals.Keys == AllFacts(task)
      requires forall f :: f in axiomLiterals ==> axiomLiterals[f] == []
      modifies this`axiomLiterals
      ensures LiteralsIndexed(task.axioms)
    {
      hide AllFacts, IsFact, WellFormed;
      for i := 0 to |task.axioms|
        invariant axiomLiterals.Keys == AllFacts(task)
        invariant AllPartlyList(axiomLiterals, task.axioms, i, 0)
      {
        CrossReferenceRule(i);
      }
    }

    method CrossReferenceRule(i: nat)
      requires WellFormed(task) && axiomLiterals.Keys == AllFacts(task) && i < |task.axioms|
      requires AllPartlyList(axiomLiterals, task.axioms, i, 0)
      modifies this`axiomLiterals
      ensures axiomLiterals.Keys == AllFacts(task)
      ensures AllPartlyList(axiomLiterals, task.axioms, i + 1, 0)
    {
      hide WellFormed, AllPartlyList, IsFact;
      var conditions := task.axioms[i].conditions;
      ghost var facts := axiomLiterals.Keys;
      RuleFacts(task, i);
      for j := 0 to |conditions|
        invariant axiomLiterals.Keys == facts
        invariant AllPartlyList(axiomLiterals, task.axioms, i, j)
      {
        var cond := conditions[j];
        assert cond in conditions;
        AllListOneMore(axiomLiterals, task.axioms, i, j);
        axiomLiterals := axiomLiterals[cond := axiomLiterals[cond] + [i]];
      }
      AllNextRule(axiomLiterals, task.axioms, i);
    }

    method InitializeNbf()
      requires WellFormed(task) && |nbfInfoByLayer| == MaxLayer(task.layers) + 1
      requires forall l :: 0 <= l < |nbfInfoByLayer| ==> nbfInfoByLayer[l] == []
      modifies this`nbfInfoByLayer
      ensures |nbfInfoByLayer| == MaxLayer(task.layers) + 1
      ensures forall l :: 0 <= l < |nbfInfoByLayer| - 1 ==> nbfInfoByLayer[l] == NbfInfo(task, l, |task.layers|)
    {
      var lastLayer := MaxLayer(task.layers);
      forall l ensures NbfInfo(task, l, 0) == [] {
      }
      hide NbfInfo, LiteralsIndexed, MaxLayer;
      for varNo := 0 to |task.layers|
        invariant |nbfInfoByLayer| == lastLayer + 1
        invariant forall l :: 0 <= l < lastLayer ==> nbfInfoByLayer[l] == NbfInfo(task, l, varNo)
      {
        var layer := task.layers[varNo];
        assert -1 <= layer <= lastLayer;
        NbfInfoNext(task, varNo);
        if layer != -1 && layer != lastLayer {
          var info := NegationByFailureInfo(varNo, Fact(varNo, task.defaults[varNo]));
          nbfInfoByLayer := nbfInfoByLayer[layer := nbfInfoByLayer[layer] + [info]];
        }
      }
    }

    // The literals that were processed, the variables in the order they were derived, and all literals ever queued.
    ghost var popped: set<Fact>
    ghost var order: seq<nat>
    ghost var pushed: seq<Fact>

    ghost function Now(buffer: array<nat>): Run
      reads this, buffer
    {
      Run(buffer[..], queue, popped, order, pushed)
    }

    /** The invariant, the counters of the rules and their effects. */
    ghost predicate Consistent(buffer: array<nat>, input: seq<nat>, layer: int, closed: set<nat>)
      reads this, buffer
    {
      && Valid() && Stratified(task)
      && Inv(task, input, Now(buffer), layer, closed)
      && Counted(task, popped, UnsatOf(rules))
      && ZeroFired(task, buffer[..], UnsatOf(rules))
    }

    /** What holds even when a literal is queued twice: underived values are those of the input. */
    ghost predicate Proper(buffer: array<nat>, input: seq<nat>)
      reads this, buffer
    {
      && Valid() && Stratified(task) && IsState(task, buffer[..]) && |input| == buffer.Length
      && (forall v :: 0 <= v < |input| && !IsLogic(task, v) ==> buffer[v] == input[v])
      && (forall f :: f in queue ==> IsFact(task, f))
    }

    lemma {:induction false} InvIsProper(buffer: array<nat>, input: seq<nat>, layer: int, closed: set<nat>)
      requires Valid() && Stratified(task) && Inv(task, input, Now(buffer), layer, closed)
      ensures Proper(buffer, input)
    {
      hide Stratified, LiteralsIndexed, Derived, Distinct, NbfInfo;
      assert forall f :: f in queue ==> Known(Now(buffer), f);
    }

    /** Queues the underived literals and resets the variables that logic axioms derive. */
    method ResetDerived(buffer: array<nat>)
      requires Valid() && queue == [] && IsState(task, buffer[..])
      modifies this`queue, this`popped, this`order, this`pushed, buffer
      ensures Valid() && Inv(task, old(buffer[..]), Now(buffer), 0, {}) && popped == {}
    {
      popped, order, pushed := {}, [], [];
      assert |task.layers| == |task.defaults| == buffer.Length;
      hide WellFormed, NbfInfo, LiteralsIndexed, Distinct;
      for i := 0 to |task.layers|
        invariant Valid() && popped == {} && order == [] && pushed == queue
        invariant ResetUpTo(task, i, old(buffer[..]), buffer[..], queue)
      {
        ghost var vals, queue0 := buffer[..], queue;
        if task.layers[i] == -1 || task.layers[i] == task.comparisonLayer {
          queue := queue + [Fact(i, buffer[i])];
        } else {
          buffer[i] := task.defaults[i];
        }
        pushed := queue;
        ResetNext(task, i, old(buffer[..]), vals, queue0, buffer[..], queue);
      }
      StartInv(task, old(buffer[..]), Now(buffer));
    }

    /** Sets the effect of rule i unless it already holds; sound says that all its conditions were processed. */
    method Trigger(i: nat, buffer: array<nat>, ghost input: seq<nat>, ghost layer: int, ghost closed: set<nat>, ghost sound: bool)
      requires Proper(buffer, input) && i < |rules|
      requires sound ==> Inv(task, input, Now(buffer), layer, closed)
      requires sound ==> forall c :: c in task.axioms[i].conditions ==> c in popped
      requires sound ==> task.layers[task.axioms[i].effect.v] >= layer
      modifies this`queue, this`order, this`pushed, buffer
      ensures Proper(buffer, input) && (sound ==> Inv(task, input, Now(buffer), layer, closed))
      ensures buffer[..] == old(buffer[..])[task.axioms[i].effect.v := task.axioms[i].effect.val]
      ensures old(pushed) <= pushed && |queue| <= |old(queue)| + 1
    {
      assert task.axioms[i] in task.axioms;
      hide Inv, Stratified, NbfInfo, LiteralsIndexed;
      var varNo, val := rules[i].effect.v, rules[i].effect.val;
      ghost var before := Now(buffer);
      if buffer[varNo] != val {
        buffer[varNo] := val;
        queue := queue + [rules[i].effect];
        order := order + [varNo];
        pushed := pushed + [rules[i].effect];
        assert Now(buffer) == AfterFire(before, task.axioms[i].effect);
        if sound {
          FireKeepsInv(task, input, before, layer, closed, task.axioms[i]);
        }
      }
    }

    /** Restores the counters; rules without conditions take effect at once. */
    method StartCounters(buffer: array<nat>, ghost input: seq<nat>)
      requires Valid() && Stratified(task) && Inv(task, input, Now(buffer), 0, {}) && popped == {}
      modifies this`rules, this`queue, this`order, this`pushed, buffer
      ensures Consistent(buffer, input, 0, {}) && popped == {}
    {
      hide Inv, WellFormed, LiteralsIndexed, NbfInfo, Stratified, IsState;
      Distinguish(task, input, Now(buffer), 0, {});
      InvIsProper(buffer, input, 0, {});
      for i := 0 to |rules|
        invariant Proper(buffer, input) && Inv(task, input, Now(buffer), 0, {}) && |rules| == |task.axioms|
        invariant CountersUpTo(task, i, buffer[..], UnsatOf(rules))
      {
        ghost var vals, unsat := buffer[..], UnsatOf(rules);
        EffectOf(task, input, Now(buffer), 0, {}, i);
        UnsatZero(task.axioms[i].conditions, {});
        rules := rules[i := rules[i].(unsatisfied := rules[i].conditionCount)];
        if rules[i].conditionCount == 0 {
          Trigger(i, buffer, input, 0, {}, true);
        }
        NextCounter(task, i, vals, unsat, buffer[..], UnsatOf(rules));
      }
      AllCounted(task, input, Now(buffer), 0, {}, UnsatOf(rules));
    }

    /** While the rules of one literal are visited, those listed in rest are still to come. */
    ghost predicate Midway(buffer: array<nat>, input: seq<nat>, layer: int, closed: set<nat>, rest: seq<nat>)
      reads this, buffer
    {
      && Proper(buffer, input) && Inv(task, input, Now(buffer), layer, closed)
      && Counting(task, popped, UnsatOf(rules), rest) && ZeroFired(task, buffer[..], UnsatOf(rules))
    }

    lemma {:induction false} MidwayDone(buffer: array<nat>, input: seq<nat>, layer: int, closed: set<nat>)
      requires Midway(buffer, input, layer, closed, [])
      ensures Consistent(buffer, input, layer, closed)
    {
      hide Inv, LiteralsIndexed, NbfInfo, ZeroFired, Stratified, IsState, WellFormed;
      CountedAgain(task, popped, UnsatOf(rules));
    }

    /**
      Visits the rules that have a literal among their conditions; sound says that it was not processed before.
     */
    method Decrement(f: Fact, list: seq<nat>, buffer: array<nat>, ghost input: seq<nat>, ghost layer: int, ghost closed: set<nat>,
                     ghost sound: bool)
      requires Proper(buffer, input) && IsFact(task, f) && Lists(list, task.axioms, f)
      requires sound ==> Midway(buffer, input, layer, closed, list) && Level(task, f) >= layer
      modifies this`rules, this`queue, this`order, this`pushed, buffer
      ensures Proper(buffer, input) && (sound ==> Consistent(buffer, input, layer, closed))
      ensures old(pushed) <= pushed && Work() <= old(Work())
    {
      hide *;
      assert list[0..] == list;
      for k := 0 to |list|
        invariant Proper(buffer, input) && (sound ==> Midway(buffer, input, layer, closed, list[k..]))
        invariant old(pushed) <= pushed && Work() <= old(Work())
      {
        DecrementOne(f, list, k, buffer, input, layer, closed, sound);
      }
      assert list[|list|..] == [];
      if sound {
        MidwayDone(buffer, input, layer, closed);
      }
    }

    /** Every firing uses up a counter, so the queue runs empty also when a literal comes up twice. */
    ghost function Work(): nat
      reads this
    {
      2 * Pending(UnsatOf(rules)) + |queue|
    }

    method DecrementOne(ghost f: Fact, list: seq<nat>, k: nat, buffer: array<nat>, ghost input: seq<nat>, ghost layer: int,
                        ghost closed: set<nat>, ghost sound: bool)
      requires Proper(buffer, input) && IsFact(task, f) && Lists(list, task.axioms, f) && k < |list|
      requires sound ==> Midway(buffer, input, layer, closed, list[k..]) && Level(task, f) >= layer
      modifies this`rules, this`queue, this`order, this`pushed, buffer
      ensures Proper(buffer, input) && (sound ==> Midway(buffer, input, layer, closed, list[k + 1..]))
      ensures old(pushed) <= pushed && Work() <= old(Work())
    {
      hide *;
      WorkIs();
      ListedInRange(f, list, k, buffer, input);
      var i := list[k];
      ghost var vals, unsat := buffer[..], UnsatOf(rules);
      if sound {
        BeforeFiring(f, list, k, buffer, input, layer, closed);
      }
      CountDown(i, buffer, input);
      WorkIs();
      if rules[i].unsatisfied == 0 {
        Trigger(i, buffer, input, layer, closed, sound);
        WorkIs();
      }
      if sound {
        AfterFiring(i, vals, unsat, list[k + 1..], buffer, input, layer, closed);
      }
    }

    ghost predicate ZeroBefore(vals: seq<nat>, unsat: seq<int>) {
      WellFormed(task) && IsState(task, vals) && ZeroFired(task, vals, unsat)
    }

    lemma {:induction false} ListedInRange(f: Fact, list: seq<nat>, k: nat, buffer: array<nat>, input: seq<nat>)
      requires Proper(buffer, input) && Lists(list, task.axioms, f) && k < |list|
      ensures list[k] < |rules| == |task.axioms| && task.axioms[list[k]].effect.v < buffer.Length == |task.layers| && WellFormed(task)
    {
      hide Stratified, LiteralsIndexed, NbfInfo;
      assert list[k] in list;
      EffectInRange(task, list[k]);
    }

    lemma {:induction false} BeforeFiring(f: Fact, list: seq<nat>, k: nat, buffer: array<nat>, input: seq<nat>, layer: int, closed: set<nat>)
      requires k < |list| && Midway(buffer, input, layer, closed, list[k..]) && Lists(list, task.axioms, f)
      requires IsFact(task, f) && Level(task, f) >= layer
      ensures var i := list[k];
        && i < |task.axioms| && task.axioms[i].effect.v < |task.layers| && task.layers[task.axioms[i].effect.v] >= layer
        && Inv(task, input, Now(buffer), layer, closed) && ZeroBefore(buffer[..], UnsatOf(rules))
        && Counting(task, popped, UnsatOf(rules)[i := UnsatOf(rules)[i] - 1], list[k + 1..])
        && (UnsatOf(rules)[i] == 1 ==> forall c :: c in task.axioms[i].conditions ==> c in popped)
    {
      hide Inv, LiteralsIndexed, NbfInfo, Counting, ZeroFired, Stratified, IsState, WellFormed;
      ListedRule(task, list, f, k, layer);
      CountOneLess(task, popped, UnsatOf(rules), list[k..]);
      assert list[k..][1..] == list[k + 1..];
    }

    lemma {:induction false} AfterFiring(i: nat, vals: seq<nat>, unsat: seq<int>, rest: seq<nat>, buffer: array<nat>, input: seq<nat>,
                                         layer: int, closed: set<nat>)
      requires Proper(buffer, input) && Inv(task, input, Now(buffer), layer, closed)
      requires i < |unsat| == |task.axioms| && task.axioms[i].effect.v < |vals| && ZeroBefore(vals, unsat)
      requires UnsatOf(rules) == unsat[i := unsat[i] - 1] && Counting(task, popped, UnsatOf(rules), rest)
      requires buffer[..] == if unsat[i] == 1 then vals[task.axioms[i].effect.v := task.axioms[i].effect.val] else vals
      ensures Midway(buffer, input, layer, closed, rest)
    {
      hide Inv, LiteralsIndexed, NbfInfo, Counting, ZeroFired, Stratified, IsState, WellFormed;
      StillFired(task, i, vals, unsat, buffer[..]);
    }

    lemma {:induction false} WorkIs()
      ensures Work() == 2 * Pending(UnsatOf(rules)) + |queue|
    {
    }

    method CountDown(i: nat, buffer: array<nat>, ghost input: seq<nat>)
      requires Proper(buffer, input) && i < |rules|
      modifies this`rules
      ensures Proper(buffer, input) && |rules| == |old(rules)| && Now(buffer) == old(Now(buffer))
      ensures UnsatOf(rules) == UnsatOf(old(rules))[i := UnsatOf(old(rules))[i] - 1]
      ensures Pending(UnsatOf(rules)) == Pending(UnsatOf(old(rules))) - if rules[i].unsatisfied == 0 then 1 else 0
    {
      hide Stratified, LiteralsIndexed, NbfInfo, WellFormed, IsState, Pending;
      ghost var unsat := UnsatOf(rules);
      PendingLess(unsat, i);
      rules := rules[i := rules[i].(unsatisfied := rules[i].unsatisfied - 1)];
      assert UnsatOf(rules) == unsat[i := unsat[i] - 1];
    }

    /** Applies rules until no queued literal is left; sound says that none of them was processed before. */
    method Drain(buffer: array<nat>, ghost input: seq<nat>, ghost layer: int, ghost closed: set<nat>, ghost sound: bool)
      requires Proper(buffer, input) && (sound ==> Consistent(buffer, input, layer, closed))
      modifies this`rules, this`queue, this`popped, this`order, this`pushed, buffer
      ensures Proper(buffer, input) && (sound ==> Consistent(buffer, input, layer, closed))
      ensures queue == [] && old(pushed) <= pushed
    {
      hide Inv, WellFormed, NbfInfo, Counting, ZeroFired, Stratified, Counted, Level, Lists, IsState, Pending;
      while queue != []
        invariant Proper(buffer, input) && (sound ==> Consistent(buffer, input, layer, closed))
        invariant old(pushed) <= pushed
        decreases Work()
      {
        ghost var before := Now(buffer);
        if sound {
          PopKeepsInv(task, input, before, layer, closed);
        }
        var curr := queue[|queue| - 1];
        assert curr in queue;
        queue := queue[..|queue| - 1];
        popped := popped + {curr};
        assert Now(buffer) == AfterPop(before);
        assert curr in axiomLiterals && Lists(axiomLiterals[curr], task.axioms, curr);
        if sound {
          ListsCount(task, curr, axiomLiterals[curr]);
          StartCounting(task, before.popped, UnsatOf(rules), curr, axiomLiterals[curr]);
        }
        Decrement(curr, axiomLiterals[curr], buffer, input, layer, closed, sound);
      }
    }

    /**
      Negation by failure for the variables of a drained layer.  When a comparison variable of the layer is at its
      default, its literal is queued a second time.
     */
    method CloseLayer(layer: nat, buffer: array<nat>, ghost input: seq<nat>, ghost sound: bool)
      requires Proper(buffer, input) && queue == [] && layer < |nbfInfoByLayer| - 1
      requires |input| == |task.layers| == |task.defaults|
      requires if sound then Consistent(buffer, input, layer, Below(task, layer)) else !Distinct(pushed)
      modifies this`queue, this`pushed
      ensures Proper(buffer, input)
      ensures if sound && DecidedAt(task, input, layer) then Consistent(buffer, input, layer + 1, Below(task, layer + 1))
              else !Distinct(pushed)
    {
      hide Inv, ZeroFired, Stratified, Counted, LiteralsIndexed, IsState, NbfInfo, Distinct;
      ghost var good, pushed0 := sound && DecidedAt(task, input, layer), pushed;
      if sound {
        forall v: nat | v < |input| && !IsLogic(task, v) ensures Fact(v, input[v]) in pushed0 {
          AlreadyQueued(task, input, Now(buffer), layer, Below(task, layer), v);
        }
        RaiseLayer(task, input, Now(buffer), layer, Below(task, layer));
      }
      CloseAll(nbfInfoByLayer[layer], layer, buffer, input, good);
      if !sound {
        StillTwice(pushed0, pushed);
      } else if !good {
        var v: nat :| v < |input| && !IsLogic(task, v) && task.layers[v] == layer && input[v] == task.defaults[v];
        QueuedTwice(pushed0, pushed, Fact(v, input[v]));
      }
    }

    /** Queues the defaults that the variables of a layer still have. */
    method CloseAll(nbfInfo: seq<NegationByFailureInfo>, ghost layer: nat, buffer: array<nat>, ghost input: seq<nat>, ghost sound: bool)
      requires Proper(buffer, input) && |input| == |task.layers| == |task.defaults|
      requires nbfInfo == NbfInfo(task, layer, |task.layers|)
      requires sound ==> Inv(task, input, Now(buffer), layer + 1, Below(task, layer)) && DecidedAt(task, input, layer)
      modifies this`queue, this`pushed
      ensures Proper(buffer, input) && old(pushed) <= pushed
      ensures sound ==> Inv(task, input, Now(buffer), layer + 1, Below(task, layer + 1))
      ensures forall v: nat :: v < |input| && task.layers[v] == layer && buffer[v] == task.defaults[v] ==>
        Fact(v, task.defaults[v]) in pushed[|old(pushed)|..]
    {
      ghost var closed, pushed0 := Below(task, layer), pushed;
      NbfInfoComplete(task, layer, |task.layers|);
      hide Inv, WellFormed, Stratified, LiteralsIndexed, IsState, NbfInfo, ClosedBy, Below, MaxLayer, Requeued;
      assert nbfInfo[..0] == [];
      NoneClosed(task, layer);
      for i := 0 to |nbfInfo|
        invariant Proper(buffer, input) && pushed0 <= pushed
        invariant sound ==> Inv(task, input, Now(buffer), layer + 1, closed)
        invariant closed == ClosedBy(task, layer, nbfInfo[..i])
        invariant Requeued(task, nbfInfo[..i], buffer[..], pushed[|pushed0|..])
      {
        NotClosedYet(task, layer, nbfInfo, i);
        ghost var pushed1 := pushed;
        CloseVariable(nbfInfo[i], layer, buffer, input, closed, sound);
        assert pushed[|pushed0|..] == pushed1[|pushed0|..] + pushed[|pushed1|..];
        RequeuedNext(task, nbfInfo, i, buffer[..], pushed1[|pushed0|..], pushed[|pushed1|..]);
        CloseOneMore(task, layer, nbfInfo, i);
        closed := closed + if IsLogic(task, nbfInfo[i].varNo) then {nbfInfo[i].varNo} else {};
      }
      assert nbfInfo[..|nbfInfo|] == nbfInfo;
      AllClosed(task, layer, nbfInfo);
      AllRequeued(task, layer, nbfInfo, buffer[..], pushed[|pushed0|..]);
    }

    method CloseVariable(info: NegationByFailureInfo, ghost layer: nat, buffer: array<nat>, ghost input: seq<nat>,
                         ghost closed: set<nat>, ghost sound: bool)
      requires Proper(buffer, input) && info.varNo < |task.layers| == |task.defaults| == buffer.Length
      requires info.literal == Fact(info.varNo, task.defaults[info.varNo])
      requires sound ==> Inv(task, input, Now(buffer), layer + 1, closed) && task.layers[info.varNo] == layer
      requires sound && IsLogic(task, info.varNo) ==> info.varNo !in closed
      requires sound && !IsLogic(task, info.varNo) ==> buffer[info.varNo] != task.defaults[info.varNo]
      modifies this`queue, this`pushed
      ensures Proper(buffer, input) && old(pushed) <= pushed
      ensures pushed == old(pushed) + if buffer[info.varNo] == task.defaults[info.varNo] then [info.literal] else []
      ensures sound ==>
        Inv(task, input, Now(buffer), layer + 1, closed + if IsLogic(task, info.varNo) then {info.varNo} else {})
    {
      assert IsFact(task, info.literal);
      hide Inv, WellFormed, Stratified, NbfInfo, LiteralsIndexed;
      ghost var before := Now(buffer);
      if sound && IsLogic(task, info.varNo) {
        CloseKeepsInv(task, input, before, layer + 1, closed, info.varNo);
      }
      if buffer[info.varNo] == task.defaults[info.varNo] {
        queue := queue + [info.literal];
        pushed := pushed + [info.literal];
      }
      assert IsLogic(task, info.varNo) ==> Now(buffer) == AfterClose(before, task, info.varNo);
      assert closed + {} == closed;
    }

    /**
      One turn of the loop over the layers: fire what follows, then, but for the last layer, negate by failure.
      sound says that no literal was queued twice so far.
     */
    method EvaluateLayer(layerNo: nat, buffer: array<nat>, ghost input: seq<nat>, ghost sound: bool) returns (ghost sound': bool)
      requires layerNo < |nbfInfoByLayer| && |input| == |task.layers| == |task.defaults|
      requires Proper(buffer, input)
      requires if sound then Consistent(buffer, input, layerNo, Below(task, layerNo)) else !Distinct(pushed)
      modifies this`rules, this`queue, this`popped, this`order, this`pushed, buffer
      ensures Proper(buffer, input)
      ensures sound' <==> sound && (layerNo + 1 < |nbfInfoByLayer| ==> DecidedAt(task, input, layerNo))
      ensures var next := if layerNo + 1 < |nbfInfoByLayer| then layerNo + 1 else layerNo;
        if sound' then Consistent(buffer, input, next, Below(task, next)) else !Distinct(pushed)
      ensures layerNo + 1 == |nbfInfoByLayer| ==> queue == []
    {
      hide *;
      ghost var pushed0 := pushed;
      Drain(buffer, input, layerNo, Below(task, layerNo), sound);
      if !sound {
        StillTwice(pushed0, pushed);
      }
      sound' := sound;
      if layerNo != |nbfInfoByLayer| - 1 {
        CloseLayer(layerNo, buffer, input, sound);
        sound' := sound && DecidedAt(task, input, layerNo);
      }
    }

    method EvaluateLayers(buffer: array<nat>, ghost input: seq<nat>) returns (ghost sound: bool)
      requires |nbfInfoByLayer| == MaxLayer(task.layers) + 1 > 0 && |input| == |task.layers| == |task.defaults|
      requires Proper(buffer, input) && Consistent(buffer, input, 0, Below(task, 0))
      modifies this`rules, this`queue, this`popped, this`order, this`pushed, buffer
      ensures Proper(buffer, input) && queue == []
      ensures sound <==> forall layer :: 0 <= layer < MaxLayer(task.layers) ==> DecidedAt(task, input, layer)
      ensures var last := MaxLayer(task.layers);
        if sound then Consistent(buffer, input, last, Below(task, last)) else !Distinct(pushed)
    {
      hide *;
      var layers := |nbfInfoByLayer|;
      sound := true;
      for layerNo := 0 to layers
        invariant Proper(buffer, input)
        invariant sound <==> forall layer :: 0 <= layer < layerNo && layer < layers - 1 ==> DecidedAt(task, input, layer)
        invariant var layer := if layerNo < layers then layerNo else layers - 1;
          if sound then Consistent(buffer, input, layer, Below(task, layer)) else !Distinct(pushed)
        invariant layerNo == layers ==> queue == []
      {
        sound := EvaluateLayer(layerNo, buffer, input, sound);
      }
    }

    /**
      Leaves every derived variable at its value in the layered least model of the underived variables, if no comparison
      variable of a layer but the last is at its default; exactly then no literal is queued twice.  Underived variables
      keep their values in any case, and without logic axioms nothing is touched.
     */
    method EvaluateLogicAxioms(buffer: array<nat>)
      requires Valid() && Stratified(task) && queue == [] && IsState(task, buffer[..])
      modifies this`rules, this`queue, this`popped, this`order, this`pushed, buffer
      ensures Valid() && queue == [] && IsState(task, buffer[..])
      ensures task.axioms != [] ==> (Distinct(pushed) <==> ComparisonsDecided(task, old(buffer[..])))
      ensures task.axioms != [] && ComparisonsDecided(task, old(buffer[..])) ==> IsLayeredModel(task, old(buffer[..]), buffer[..])
      ensures forall v :: 0 <= v < buffer.Length && !IsLogic(task, v) ==> buffer[v] == old(buffer[v])
      ensures task.axioms == [] ==> buffer[..] == old(buffer[..])
    {
      if |task.axioms| == 0 {
        return;
      }
      ghost var input := buffer[..];
      assert |input| == |task.layers| == |task.defaults|;
      hide Inv, WellFormed, NbfInfo, ZeroFired, Stratified, Counted, LiteralsIndexed, DecidedAt, IsState;
      hide Below, UnsatOf, MaxLayer, IsLayeredModel, Distinct, IsLogic, Consistent;
      HasLayer(task);
      Start(buffer);
      ghost var sound := EvaluateLayers(buffer, input);
      if sound {
        FinishedNow(buffer, input, MaxLayer(task.layers));
      }
    }

    method Start(buffer: array<nat>)
      requires Valid() && Stratified(task) && queue == [] && IsState(task, buffer[..])
      modifies this`rules, this`queue, this`popped, this`order, this`pushed, buffer
      ensures Proper(buffer, old(buffer[..])) && Consistent(buffer, old(buffer[..]), 0, Below(task, 0))
    {
      hide Inv, WellFormed, NbfInfo, ZeroFired, Stratified, Counted, LiteralsIndexed, IsState, Below;
      ghost var input := buffer[..];
      ResetDerived(buffer);
      StartCounters(buffer, input);
      NothingBelow(task);
      InvIsProper(buffer, input, 0, {});
    }

    lemma {:induction false} FinishedNow(buffer: array<nat>, input: seq<nat>, last: int)
      requires Consistent(buffer, input, last, Below(task, last)) && queue == [] && last == MaxLayer(task.layers)
      ensures IsLayeredModel(task, input, buffer[..]) && Distinct(pushed)
    {
      hide Inv, NbfInfo, ZeroFired, Stratified, Counted, LiteralsIndexed, IsState, Below, IsLayeredModel, Distinct;
      Distinguish(task, input, Now(buffer), last, Below(task, last));
      Finished(task, input, Now(buffer), last, UnsatOf(rules));
    }
  }

  ghost function Below(t: AxiomTask, layer: int): set<nat> {
    set v: nat | v < |t.layers| && IsLogic(t, v) && t.layers[v] < layer
  }

  ghost function ClosedBy(t: AxiomTask, layer: int, infos: seq<NegationByFailureInfo>): set<nat> {
    Below(t, layer) + set i | 0 <= i < |infos| && IsLogic(t, infos[i].varNo) :: infos[i].varNo
  }

  lemma {:induction false} ListsCount(t: AxiomTask, f: Fact, list: seq<nat>)
    requires Lists(list, t.axioms, f)
    ensures forall i :: 0 <= i < |t.axioms| ==> Occurrences(list, i) == CountFact(t.axioms[i].conditions, f)
  {
  }

  lemma {:induction false} RaiseLayer(t: AxiomTask, input: seq<nat>, r: Run, layer: int, closed: set<nat>)
    requires WellFormed(t) && Inv(t, input, r, layer, closed) && r.queue == []
    ensures Inv(t, input, r, layer + 1, closed)
  {
  }

  /** Among the literals added are the defaults of these entries that are still held. */
  ghost predicate Requeued(t: AxiomTask, infos: seq<NegationByFailureInfo>, vals: seq<nat>, added: seq<Fact>)
    requires |vals| == |t.defaults|
  {
    forall j :: 0 <= j < |infos| && infos[j].varNo < |vals| && vals[infos[j].varNo] == t.defaults[infos[j].varNo] ==> infos[j].literal in added
  }

  lemma {:induction false} RequeuedNext(t: AxiomTask, infos: seq<NegationByFailureInfo>, i: nat, vals: seq<nat>,
                                        added: seq<Fact>, last: seq<Fact>)
    requires |vals| == |t.defaults| && i < |infos| && Requeued(t, infos[..i], vals, added) && infos[i].varNo < |vals|
    requires vals[infos[i].varNo] == t.defaults[infos[i].varNo] ==> infos[i].literal in last
    ensures Requeued(t, infos[..i + 1], vals, added + last)
  {
    forall j | 0 <= j < i + 1 && infos[j].varNo < |vals| && vals[infos[j].varNo] == t.defaults[infos[j].varNo]
      ensures infos[j].literal in added + last
    {
      if j < i {
        assert infos[..i][j] == infos[j];
      }
    }
  }

  lemma {:induction false} AllRequeued(t: AxiomTask, layer: int, infos: seq<NegationByFailureInfo>, vals: seq<nat>, added: seq<Fact>)
    requires |vals| == |t.layers| == |t.defaults| && infos == NbfInfo(t, layer, |t.layers|) && Requeued(t, infos, vals, added)
    ensures forall v: nat :: v < |vals| && t.layers[v] == layer && vals[v] == t.defaults[v] ==> Fact(v, t.defaults[v]) in added
  {
    NbfInfoComplete(t, layer, |t.layers|);
    hide NbfInfo;
    forall v: nat | v < |vals| && t.layers[v] == layer && vals[v] == t.defaults[v] ensures Fact(v, t.defaults[v]) in added {
      var j :| 0 <= j < |infos| && infos[j].varNo == v;
    }
  }

  lemma {:induction false} NoneClosed(t: AxiomTask, layer: int)
    ensures ClosedBy(t, layer, []) == Below(t, layer)
  {
  }

  lemma {:induction false} CloseOneMore(t: AxiomTask, layer: int, infos: seq<NegationByFailureInfo>, i: nat)
    requires i < |infos|
    ensures ClosedBy(t, layer, infos[..i + 1])
         == ClosedBy(t, layer, infos[..i]) + if IsLogic(t, infos[i].varNo) then {infos[i].varNo} else {}
  {
    var v := infos[i].varNo;
    assert infos[..i + 1] == infos[..i] + [infos[i]];
    if IsLogic(t, v) {
      assert infos[..i + 1][i].varNo == v;
    }
    forall x | x in ClosedBy(t, layer, infos[..i]) ensures x in ClosedBy(t, layer, infos[..i + 1]) {
      if x !in Below(t, layer) {
        var k :| 0 <= k < i && IsLogic(t, infos[..i][k].varNo) && infos[..i][k].varNo == x;
        assert infos[..i + 1][k].varNo == x;
      }
    }
    forall x | x in ClosedBy(t, layer, infos[..i + 1]) && x != v ensures x in ClosedBy(t, layer, infos[..i]) {
      if x !in Below(t, layer) {
        var k :| 0 <= k < i + 1 && IsLogic(t, infos[..i + 1][k].varNo) && infos[..i + 1][k].varNo == x;
        assert infos[..i][k].varNo == x;
      }
    }
  }

  lemma {:induction false} AllClosed(t: AxiomTask, layer: int, infos: seq<NegationByFailureInfo>)
    requires |t.layers| == |t.defaults| && infos == NbfInfo(t, layer, |t.layers|)
    ensures ClosedBy(t, layer, infos) == Below(t, layer + 1)
  {
    NbfInfoComplete(t, layer, |t.layers|);
    forall v | v in Below(t, layer + 1) ensures v in ClosedBy(t, layer, infos) {
      if t.layers[v] == layer {
        var i :| 0 <= i < |infos| && infos[i].varNo == v;
      }
    }
  }

  lemma {:induction false} NotClosedYet(t: AxiomTask, layer: int, infos: seq<NegationByFailureInfo>, i: nat)
    requires i < |infos| && infos[i].varNo < |t.layers| && t.layers[infos[i].varNo] == layer
    requires forall j, k :: 0 <= j < k < |infos| ==> infos[j].varNo < infos[k].varNo
    ensures infos[i].varNo !in ClosedBy(t, layer, infos[..i])
  {
  }

  lemma {:induction false} NothingBelow(t: AxiomTask)
    requires WellFormed(t)
    ensures Below(t, 0) == {}
  {
  }

  lemma {:induction false} HasLayer(t: AxiomTask)
    requires WellFormed(t) && t.axioms != []
    ensures MaxLayer(t.layers) >= 0
  {
    assert t.axioms[0] in t.axioms;
    assert t.layers[t.axioms[0].effect.v] <= MaxLayer(t.layers);
  }

  lemma {:induction false} Finished(t: AxiomTask, input: seq<nat>, r: Run, layer: int, unsat: seq<int>)
    requires WellFormed(t) && Stratified(t) && Inv(t, input, r, layer, Below(t, layer)) && r.queue == []
    requires layer == MaxLayer(t.layers) && IsState(t, r.vals)
    requires Counted(t, r.popped, unsat) && ZeroFired(t, r.vals, unsat)
    ensures IsLayeredModel(t, input, r.vals) && Distinct(r.pushed)
  {
    DrainedSatisfiesRules(t, input, r, layer, Below(t, layer), unsat);
    DerivedIsSupported(t, input, r, layer, Below(t, layer));
    SupportedIsLayeredModel(t, input, r.vals, r.order);
  }

  /** The counters below i are set for an empty set of processed literals. */
  ghost predicate CountersUpTo(t: AxiomTask, i: nat, vals: seq<nat>, unsat: seq<int>) {
    && i <= |unsat| == |t.axioms| && |vals| == |t.domain|
    && forall j :: 0 <= j < i ==>
         unsat[j] == Unsat(t.axioms[j].conditions, {})
         && (unsat[j] == 0 ==> t.axioms[j].effect.v < |vals| && vals[t.axioms[j].effect.v] == t.axioms[j].effect.val)
  }

  lemma {:induction false} EffectOf(t: AxiomTask, input: seq<nat>, r: Run, layer: int, closed: set<nat>, i: nat)
    requires WellFormed(t) && Inv(t, input, r, layer, closed) && i < |t.axioms|
    ensures t.axioms[i].effect.v < |r.vals| == |t.domain| == |t.layers| && t.layers[t.axioms[i].effect.v] >= 0
    ensures forall j :: 0 <= j < |t.axioms| && t.axioms[j].effect.v == t.axioms[i].effect.v ==> t.axioms[j].effect == t.axioms[i].effect
  {
    assert t.axioms[i] in t.axioms;
  }

  lemma {:induction false} NextCounter(t: AxiomTask, i: nat, vals: seq<nat>, unsat: seq<int>, vals': seq<nat>, unsat': seq<int>)
    requires CountersUpTo(t, i, vals, unsat) && i < |unsat| && t.axioms[i].effect.v < |vals|
    requires forall j :: 0 <= j < |t.axioms| && t.axioms[j].effect.v == t.axioms[i].effect.v ==> t.axioms[j].effect == t.axioms[i].effect
    requires unsat' == unsat[i := Unsat(t.axioms[i].conditions, {})]
    requires vals' == if unsat'[i] == 0 then vals[t.axioms[i].effect.v := t.axioms[i].effect.val] else vals
    ensures CountersUpTo(t, i + 1, vals', unsat')
  {
  }

  lemma {:induction false} AllCounted(t: AxiomTask, input: seq<nat>, r: Run, layer: int, closed: set<nat>, unsat: seq<int>)
    requires WellFormed(t) && Inv(t, input, r, layer, closed) && r.popped == {} && CountersUpTo(t, |unsat|, r.vals, unsat)
    ensures IsState(t, r.vals) && Counted(t, {}, unsat) && ZeroFired(t, r.vals, unsat)
  {
  }

  lemma {:induction false} Distinguish(t: AxiomTask, input: seq<nat>, r: Run, layer: int, closed: set<nat>)
    requires WellFormed(t) && Inv(t, input, r, layer, closed)
    ensures IsState(t, r.vals) && |r.vals| == |t.domain|
  {
  }

  lemma {:induction false} CountListed(conds: seq<Fact>, f: Fact)
    ensures CountFact(conds, f) > 0 ==> f in conds
  {
    if conds != [] {
      CountListed(conds[1..], f);
    }
  }

  lemma {:induction false} OccursInList(list: seq<nat>, k: nat)
    requires k < |list|
    ensures Occurrences(list, list[k]) > 0
  {
    if k > 0 {
      OccursInList(list[1..], k - 1);
    }
  }

  /** A listed rule has the literal as a condition, so it derives into this layer or a later one. */
  lemma {:induction false} ListedRule(t: AxiomTask, list: seq<nat>, f: Fact, k: nat, layer: int)
    requires WellFormed(t) && Stratified(t) && Lists(list, t.axioms, f) && k < |list|
    requires IsFact(t, f) && Level(t, f) >= layer
    ensures list[k] < |t.axioms| && f in t.axioms[list[k]].conditions
    ensures t.axioms[list[k]].effect.v < |t.layers| == |t.domain| && t.layers[t.axioms[list[k]].effect.v] >= layer
  {
    assert list[k] in list;
    assert t.axioms[list[k]] in t.axioms;
    OccursInList(list, k);
    CountListed(t.axioms[list[k]].conditions, f);
  }

  lemma {:induction false} EffectInRange(t: AxiomTask, i: nat)
    requires WellFormed(t) && i < |t.axioms|
    ensures t.axioms[i].effect.v < |t.domain| == |t.layers|
  {
    assert t.axioms[i] in t.axioms;
  }

  lemma {:induction false} CountOneLess(t: AxiomTask, popped: set<Fact>, unsat: seq<int>, rest: seq<nat>)
    requires Counting(t, popped, unsat, rest) && rest != [] && rest[0] < |unsat|
    ensures var i := rest[0];
      && Counting(t, popped, unsat[i := unsat[i] - 1], rest[1..])
      && (unsat[i] == 1 ==> forall c :: c in t.axioms[i].conditions ==> c in popped)
  {
    UnsatZero(t.axioms[rest[0]].conditions, popped);
  }

  /** Setting the effect of a rule that reached zero keeps all rules at zero satisfied. */
  lemma {:induction false} StillFired(t: AxiomTask, i: nat, vals: seq<nat>, unsat: seq<int>, vals': seq<nat>)
    requires WellFormed(t) && IsState(t, vals) && IsState(t, vals') && ZeroFired(t, vals, unsat) && i < |t.axioms|
    requires t.axioms[i].effect.v < |vals|
    requires vals' == if unsat[i] == 1 then vals[t.axioms[i].effect.v := t.axioms[i].effect.val] else vals
    ensures ZeroFired(t, vals', unsat[i := unsat[i] - 1])
  {
    forall j | 0 <= j < |unsat| && unsat[i := unsat[i] - 1][j] == 0
      ensures vals'[t.axioms[j].effect.v] == t.axioms[j].effect.val
    {
      assert t.axioms[i] in t.axioms && t.axioms[j] in t.axioms;
    }
  }

  lemma {:induction false} CountedAgain(t: AxiomTask, popped: set<Fact>, unsat: seq<int>)
    requires Counting(t, popped, unsat, [])
    ensures Counted(t, popped, unsat)
  {
  }

  /** The variables below i were visited. */
  ghost predicate ResetUpTo(t: AxiomTask, i: nat, input: seq<nat>, vals: seq<nat>, queue: seq<Fact>) {
    && |vals| == |input| == |t.layers| == |t.defaults|
    && (forall v :: 0 <= v < |input| ==> vals[v] == if v < i && IsLogic(t, v) then t.defaults[v] else input[v])
    && (forall f :: f in queue <==> f.v < i && f.v < |input| && !IsLogic(t, f.v) && f.val == input[f.v])
    && Distinct(queue)
  }

  lemma {:induction false} ResetNext(t: AxiomTask, i: nat, input: seq<nat>, vals: seq<nat>, queue: seq<Fact>,
                                     vals': seq<nat>, queue': seq<Fact>)
    requires ResetUpTo(t, i, input, vals, queue) && i < |input|
    requires if IsLogic(t, i) then queue' == queue && vals' == vals[i := t.defaults[i]]
             else queue' == queue + [Fact(i, vals[i])] && vals' == vals
    ensures ResetUpTo(t, i + 1, input, vals', queue')
  {
  }

  lemma {:induction false} StartInv(t: AxiomTask, input: seq<nat>, r: Run)
    requires WellFormed(t) && IsState(t, input) && ResetUpTo(t, |t.layers|, input, r.vals, r.queue)
    requires r.popped == {} && r.order == [] && r.pushed == r.queue
    ensures Inv(t, input, r, 0, {})
  {
  }

  /** list names each rule once per condition position that equals f. */
  ghost predicate Lists(list: seq<nat>, axioms: seq<Axiom>, f: Fact) {
    && (forall i :: i in list ==> i < |axioms|)
    && (forall i :: 0 <= i < |axioms| ==> Occurrences(list, i) == CountFact(axioms[i].conditions, f))
  }

  /** The same for the rules before n and the first j conditions of rule n. */
  ghost predicate PartlyLists(list: seq<nat>, axioms: seq<Axiom>, f: Fact, n: nat, j: nat) {
    && n <= |axioms| && (if n < |axioms| then j <= |axioms[n].conditions| else j == 0)
    && (forall i :: i in list ==> i <= n && i < |axioms|)
    && (forall i :: 0 <= i < |axioms| ==>
          Occurrences(list, i) == if i < n then CountFact(axioms[i].conditions, f)
                                  else if i == n then CountFact(axioms[i].conditions[..j], f) else 0)
  }

  ghost predicate AllPartlyList(m: map<Fact, seq<nat>>, axioms: seq<Axiom>, n: nat, j: nat) {
    forall f :: f in m ==> PartlyLists(m[f], axioms, f, n, j)
  }

  lemma {:induction false} AllListOneMore(m: map<Fact, seq<nat>>, axioms: seq<Axiom>, n: nat, j: nat)
    requires n < |axioms| && j < |axioms[n].conditions| && axioms[n].conditions[j] in m
    requires AllPartlyList(m, axioms, n, j)
    ensures var c := axioms[n].conditions[j]; AllPartlyList(m[c := m[c] + [n]], axioms, n, j + 1)
  {
    var c := axioms[n].conditions[j];
    forall f | f in m ensures PartlyLists(m[c := m[c] + [n]][f], axioms, f, n, j + 1) {
      hide PartlyLists;
      ListOneMore(m[f], axioms, f, n, j);
    }
  }

  lemma {:induction false} AllNextRule(m: map<Fact, seq<nat>>, axioms: seq<Axiom>, n: nat)
    requires n < |axioms| && AllPartlyList(m, axioms, n, |axioms[n].conditions|)
    ensures AllPartlyList(m, axioms, n + 1, 0)
  {
    forall f | f in m ensures PartlyLists(m[f], axioms, f, n + 1, 0) {
      NextRule(m[f], axioms, f, n);
    }
  }

  lemma {:induction false} NextRule(list: seq<nat>, axioms: seq<Axiom>, f: Fact, n: nat)
    requires n < |axioms| && PartlyLists(list, axioms, f, n, |axioms[n].conditions|)
    ensures PartlyLists(list, axioms, f, n + 1, 0)
  {
    assert axioms[n].conditions[..|axioms[n].conditions|] == axioms[n].conditions;
  }

  lemma {:induction false} ListOneMore(list: seq<nat>, axioms: seq<Axiom>, f: Fact, n: nat, j: nat)
    requires PartlyLists(list, axioms, f, n, j) && n < |axioms| && j < |axioms[n].conditions|
    ensures PartlyLists(if axioms[n].conditions[j] == f then list + [n] else list, axioms, f, n, j + 1)
  {
    var c := axioms[n].conditions;
    assert c[..j + 1] == c[..j] + [c[j]];
    CountAppend(c[..j], c[j], f);
    forall i | 0 <= i < |axioms| ensures Occurrences(list + [n], i) == Occurrences(list, i) + if n == i then 1 else 0 {
      OccurrencesAppend(list, n, i);
    }
  }
}
