/** Simplifying and negating the axioms of one derived atom (src/translate/axiom_rules.py). */
module AxiomRules {

  datatype Literal = Literal(atom: string, negated: bool) {
    function Negate(): Literal {
      Literal(atom, !negated)
    }

    function Positive(): Literal {
      Literal(atom, false)
    }
  }

  type Condition = seq<Literal>

  type Valuation = string -> bool

  // ---------- Meaning ----------

  predicate IsTrue(v: Valuation, l: Literal) {
    v(l.atom) != l.negated
  }

  ghost predicate AllTrue(v: Valuation, c: Condition) {
    forall l :: l in c ==> IsTrue(v, l)
  }

  /** The disjunction of the bodies. */
  ghost predicate SomeTrue(v: Valuation, bodies: seq<Condition>) {
    exists i :: 0 <= i < |bodies| && AllTrue(v, bodies[i])
  }

  ghost predicate SameLiterals(c: Condition, d: Condition) {
    forall l :: l in c <==> l in d
  }

  ghost predicate Dominates(c: Condition, d: Condition) {
    forall l :: l in c ==> l in d
  }

  class Axiom {
    const name: string
    var condition: Condition
    const effect: Literal

    constructor (name: string, condition: Condition, effect: Literal)
      ensures this.name == name && this.condition == condition && this.effect == effect
    {
      this.name, this.condition, this.effect := name, condition, effect;
    }

    method Clone() returns (copy: Axiom)
      ensures fresh(copy) && copy.name == name && copy.condition == condition && copy.effect == effect
    {
      copy := new Axiom(name, condition, effect);
    }
  }

  ghost function Bodies(axioms: seq<Axiom>): (r: seq<Condition>)
    reads axioms
    ensures |r| == |axioms|
  {
    seq(|axioms|, i requires 0 <= i < |axioms| reads axioms => axioms[i].condition)
  }

  ghost predicate Distinct(axioms: seq<Axiom>) {
    forall i, j :: 0 <= i < j < |axioms| ==> axioms[i] != axioms[j]
  }

  // ---------- Duplicates within a condition ----------

  /** The list in some order: the source's sort key is not part of this model. */
  method Sort(c: Condition) returns (r: Condition)
    ensures multiset(r) == multiset(c)
  {
    r := [];
    var rest := multiset(c);
    while |rest| > 0
      invariant multiset(r) + rest == multiset(c)
      decreases |rest|
    {
      var l :| l in rest;
      r := r + [l];
      rest := rest - multiset{l};
    }
  }

  /** Compacts the list in place with a moving index and then cuts it off. */
  method RemoveDuplicates(alist: Condition) returns (r: Condition)
    ensures SameLiterals(r, alist) && |r| <= |alist|
    ensures forall i :: 0 < i < |r| ==> r[i] != r[i - 1]
  {
    r := alist;
    if alist == [] {
      return;
    }
    var nextElem := 1;
    for i := 1 to |alist|
      invariant 1 <= nextElem <= i && |r| == |alist| && r[i..] == alist[i..] && r[i - 1] == alist[i - 1]
      invariant r[nextElem - 1] == alist[i - 1]
      invariant forall k :: 0 < k < nextElem ==> r[k] != r[k - 1]
      invariant SameLiterals(r[..nextElem], alist[..i])
    {
      ghost var before := r;
      assert alist[..i + 1] == alist[..i] + [alist[i]];
      if r[i] != r[i - 1] {
        r := r[nextElem := r[i]];
        nextElem := nextElem + 1;
        assert r[..nextElem] == before[..nextElem - 1] + [alist[i]];
      }
    }
    assert alist[..|alist|] == alist;
    r := r[..nextElem];
  }

  method Clean(axiom: Axiom)
    modifies axiom
    ensures SameLiterals(axiom.condition, old(axiom.condition))
  {
    var sorted := Sort(axiom.condition);
    SamePermutation(sorted, axiom.condition);
    axiom.condition := RemoveDuplicates(sorted);
  }

  lemma {:induction false} SamePermutation(c: Condition, d: Condition)
    requires multiset(c) == multiset(d)
    ensures SameLiterals(c, d)
  {
    forall l ensures l in c <==> l in d {
      assert l in c <==> l in multiset(c);
      assert l in d <==> l in multiset(d);
    }
  }

  lemma {:induction false} SameMeaning(v: Valuation, c: Condition, d: Condition)
    requires SameLiterals(c, d)
    ensures AllTrue(v, c) <==> AllTrue(v, d)
  {
  }

  // ---------- Dropping dominated axioms ----------

  /** The index lists axioms under literals of their bodies; the sets may have shrunk since they were built. */
  ghost predicate Indexes(byLiteral: map<Literal, set<Axiom>>, axioms: seq<Axiom>)
    reads axioms
  {
    && (forall l, a {:trigger a in byLiteral[l]} :: l in byLiteral && a in byLiteral[l] ==> a in axioms && l in a.condition)
    && (forall a, l {:trigger l in a.condition} :: a in axioms && l in a.condition ==> l in byLiteral)
  }

  /** What is skipped is dominated by an axiom that came up earlier or, once it came up itself, later. */
  ghost predicate Skipping(bodies: seq<Condition>, done: nat, came: set<nat>, skip: set<nat>)
    requires done <= |bodies|
  {
    && (forall i :: i in came ==> i < done) && (forall d :: d in skip ==> d < |bodies|)
    && (forall i :: 0 <= i < done ==> i in came || i in skip)
    && (forall d :: d in skip ==> exists i :: i in came && i != d && Dominates(bodies[i], bodies[d]) && (d in came ==> d < i))
  }

  /** Every axiom is dominated by one that is retained. */
  lemma {:induction false} SomeRetained(bodies: seq<Condition>, came: set<nat>, skip: set<nat>, d: nat) returns (r: nat)
    requires Skipping(bodies, |bodies|, came, skip) && d < |bodies|
    ensures r < |bodies| && r !in skip && Dominates(bodies[r], bodies[d])
    decreases if d in came then 0 else 1, |bodies| - d
  {
    if d in skip {
      var i :| i in came && i != d && Dominates(bodies[i], bodies[d]) && (d in came ==> d < i);
      r := SomeRetained(bodies, came, skip, i);
    } else {
      r := d;
    }
  }

  lemma {:induction false} SkipMore(bodies: seq<Condition>, k: nat, came: set<nat>, skip: set<nat>, more: set<nat>)
    requires k < |bodies| && k !in skip && Skipping(bodies, k, came, skip)
    requires forall d :: d in more ==> d < |bodies| && d != k && Dominates(bodies[k], bodies[d])
    ensures Skipping(bodies, k + 1, came + {k}, skip + more)
  {
    forall d | d in skip + more
      ensures exists i :: i in came + {k} && i != d && Dominates(bodies[i], bodies[d]) && (d in came + {k} ==> d < i)
    {
      if d in more {
        assert k in came + {k} && (d in came + {k} ==> d < k);
      } else {
        var i :| i in came && i != d && Dominates(bodies[i], bodies[d]) && (d in came ==> d < i);
        assert i in came + {k};
      }
    }
  }

  /** Keeping a dominating axiom for each dropped one keeps the disjunction. */
  lemma {:induction false} RetainedSuffice(v: Valuation, bodies: seq<Condition>, kept: seq<Condition>, came: set<nat>, skip: set<nat>)
    requires Skipping(bodies, |bodies|, came, skip)
    requires forall i :: 0 <= i < |bodies| && i !in skip ==> bodies[i] in kept
    requires forall c :: c in kept ==> c in bodies
    ensures SomeTrue(v, kept) <==> SomeTrue(v, bodies)
  {
    if SomeTrue(v, bodies) {
      var d :| 0 <= d < |bodies| && AllTrue(v, bodies[d]);
      var r := SomeRetained(bodies, came, skip, d);
      var i :| 0 <= i < |kept| && kept[i] == bodies[r];
      assert AllTrue(v, kept[i]);
    }
    if SomeTrue(v, kept) {
      var i :| 0 <= i < |kept| && AllTrue(v, kept[i]);
      assert kept[i] in bodies;
    }
  }

  /** Builds the index of axioms by body literal. */
  method IndexAxioms(axioms: seq<Axiom>) returns (byLiteral: map<Literal, set<Axiom>>)
    ensures Indexes(byLiteral, axioms)
  {
    byLiteral := map[];
    for i := 0 to |axioms|
      invariant Indexes(byLiteral, axioms[..i])
    {
      var axiom := axioms[i];
      assert axioms[..i + 1] == axioms[..i] + [axiom];
      for k := 0 to |axiom.condition|
        invariant forall l, a {:trigger a in byLiteral[l]} :: l in byLiteral && a in byLiteral[l] ==> a in axioms[..i + 1] && l in a.condition
        invariant forall a, l {:trigger l in a.condition} :: a in axioms[..i] && l in a.condition ==> l in byLiteral
        invariant forall m :: 0 <= m < k ==> axiom.condition[m] in byLiteral
      {
        var literal := axiom.condition[k];
        var filed := if literal in byLiteral then byLiteral[literal] else {};
        byLiteral := byLiteral[literal := filed + {axiom}];
      }
    }
    assert axioms[..|axioms|] == axioms;
  }

  /** Intersects, in place, the set of the first literal with those of the others: all of them contain the whole body. */
  method Dominated(axiom: Axiom, byLiteral: map<Literal, set<Axiom>>, ghost axioms: seq<Axiom>)
    returns (dominated: set<Axiom>, byLiteral': map<Literal, set<Axiom>>)
    requires axiom in axioms && axiom.condition != [] && Indexes(byLiteral, axioms)
    ensures Indexes(byLiteral', axioms)
    ensures forall a :: a in dominated ==> a in axioms && Dominates(axiom.condition, a.condition)
  {
    byLiteral' := byLiteral;
    var first := axiom.condition[0];
    assert first in axiom.condition;
    for k := 1 to |axiom.condition|
      invariant Indexes(byLiteral', axioms) && first in byLiteral'
      invariant forall a :: a in byLiteral'[first] ==> a in axioms && forall m :: 0 <= m < k ==> axiom.condition[m] in a.condition
    {
      var literal := axiom.condition[k];
      assert literal in axiom.condition;
      byLiteral' := byLiteral'[first := byLiteral'[first] * byLiteral'[literal]];
    }
    dominated := byLiteral'[first];
  }

  /** Drops duplicate and dominated axioms; under every valuation the disjunction keeps its truth value. */
  method Simplify(axioms: seq<Axiom>) returns (kept: seq<Axiom>)
    requires Distinct(axioms)
    modifies axioms
    ensures forall a :: a in kept ==> a in axioms
    ensures forall i :: 0 <= i < |axioms| ==> SameLiterals(axioms[i].condition, old(axioms[i].condition))
    ensures forall v: Valuation :: SomeTrue(v, Bodies(kept)) <==> SomeTrue(v, old(Bodies(axioms)))
  {
    for i := 0 to |axioms|
      invariant forall k :: 0 <= k < |axioms| ==> SameLiterals(axioms[k].condition, old(axioms[k].condition))
    {
      Clean(axioms[i]);
    }
    ghost var bodies := Bodies(axioms);
    forall v: Valuation ensures SomeTrue(v, bodies) <==> SomeTrue(v, old(Bodies(axioms))) {
      SameDisjunction(v, bodies, old(Bodies(axioms)));
    }
    kept := DropDominated(axioms);
  }

  lemma {:induction false} SameDisjunction(v: Valuation, bodies: seq<Condition>, bodies': seq<Condition>)
    requires |bodies| == |bodies'| && forall i :: 0 <= i < |bodies| ==> SameLiterals(bodies[i], bodies'[i])
    ensures SomeTrue(v, bodies) <==> SomeTrue(v, bodies')
  {
    forall i | 0 <= i < |bodies| ensures AllTrue(v, bodies[i]) <==> AllTrue(v, bodies'[i]) {
      SameMeaning(v, bodies[i], bodies'[i]);
    }
  }

  method DropDominated(axioms: seq<Axiom>) returns (kept: seq<Axiom>)
    requires Distinct(axioms)
    ensures forall a :: a in kept ==> a in axioms
    ensures forall v: Valuation :: SomeTrue(v, Bodies(kept)) <==> SomeTrue(v, Bodies(axioms))
  {
    var byLiteral := IndexAxioms(axioms);
    ghost var bodies := Bodies(axioms);
    ghost var came: set<nat>, skip: set<nat> := {}, {};
    var axiomsToSkip: set<Axiom> := {};
    for k := 0 to |axioms|
      invariant Indexes(byLiteral, axioms) && Skipping(bodies, k, came, skip)
      invariant forall i :: 0 <= i < |axioms| ==> (axioms[i] in axiomsToSkip <==> i in skip)
    {
      var axiom := axioms[k];
      if axiom !in axiomsToSkip {
        if axiom.condition == [] {
          EmptyBodyDominates(axioms, k);
          return [axiom];
        }
        var dominated;
        dominated, byLiteral := Dominated(axiom, byLiteral, axioms);
        ghost var more := set i | 0 <= i < |axioms| && axioms[i] in dominated - {axiom};
        axiomsToSkip := axiomsToSkip + (dominated - {axiom});
        SkipMore(bodies, k, came, skip, more);
        came, skip := came + {k}, skip + more;
      }
    }
    kept := Retained(axioms, axiomsToSkip);
    forall v: Valuation ensures SomeTrue(v, Bodies(kept)) <==> SomeTrue(v, bodies) {
      RetainedSuffice(v, bodies, Bodies(kept), came, skip);
    }
  }

  lemma {:induction false} EmptyBodyDominates(axioms: seq<Axiom>, k: nat)
    requires k < |axioms| && axioms[k].condition == []
    ensures forall v: Valuation :: SomeTrue(v, Bodies([axioms[k]])) <==> SomeTrue(v, Bodies(axioms))
  {
    forall v: Valuation ensures SomeTrue(v, Bodies([axioms[k]])) && SomeTrue(v, Bodies(axioms)) {
      assert AllTrue(v, Bodies([axioms[k]])[0]) && AllTrue(v, Bodies(axioms)[k]);
    }
  }

  method Retained(axioms: seq<Axiom>, skip: set<Axiom>) returns (kept: seq<Axiom>)
    ensures forall a :: a in kept <==> a in axioms && a !in skip
    ensures forall i :: 0 <= i < |axioms| && axioms[i] !in skip ==> Bodies(axioms)[i] in Bodies(kept)
    ensures forall c :: c in Bodies(kept) ==> c in Bodies(axioms)
  {
    kept := [];
    for i := 0 to |axioms|
      invariant forall a :: a in kept <==> a in axioms[..i] && a !in skip
    {
      if axioms[i] !in skip {
        kept := kept + [axioms[i]];
      }
    }
    assert axioms[..|axioms|] == axioms;
    KeptBodies(axioms, kept, skip);
  }

  lemma {:induction false} KeptBodies(axioms: seq<Axiom>, kept: seq<Axiom>, skip: set<Axiom>)
    requires forall a :: a in kept <==> a in axioms && a !in skip
    ensures forall i :: 0 <= i < |axioms| && axioms[i] !in skip ==> Bodies(axioms)[i] in Bodies(kept)
    ensures forall c :: c in Bodies(kept) ==> c in Bodies(axioms)
  {
    forall i | 0 <= i < |axioms| && axioms[i] !in skip ensures Bodies(axioms)[i] in Bodies(kept) {
      assert axioms[i] in kept;
      var j :| 0 <= j < |kept| && kept[j] == axioms[i];
      assert Bodies(kept)[j] == Bodies(axioms)[i];
    }
    forall c | c in Bodies(kept) ensures c in Bodies(axioms) {
      var j :| 0 <= j < |kept| && Bodies(kept)[j] == c;
      assert kept[j] in kept;
      var i :| 0 <= i < |axioms| && axioms[i] == kept[j];
      assert Bodies(axioms)[i] == c;
    }
  }

  // ---------- Negation ----------

  ghost function Appended(bodies: seq<Condition>, l: Literal): (r: seq<Condition>)
    ensures |r| == |bodies|
  {
    seq(|bodies|, i requires 0 <= i < |bodies| => bodies[i] + [l])
  }

  /** One copy of the bodies for each literal, extended by its negation. */
  ghost function ProductOf(bodies: seq<Condition>, c: Condition): seq<Condition> {
    if c == [] then [] else ProductOf(bodies, c[..|c| - 1]) + Appended(bodies, c[|c| - 1].Negate())
  }

  lemma {:induction false} NegateTrue(v: Valuation, l: Literal)
    ensures IsTrue(v, l.Negate()) <==> !IsTrue(v, l)
  {
  }

  lemma {:induction false} AppendedMeans(v: Valuation, bodies: seq<Condition>, l: Literal)
    ensures SomeTrue(v, Appended(bodies, l)) <==> SomeTrue(v, bodies) && IsTrue(v, l)
  {
    forall i | 0 <= i < |bodies| ensures AllTrue(v, Appended(bodies, l)[i]) <==> AllTrue(v, bodies[i]) && IsTrue(v, l) {
      assert Appended(bodies, l)[i] == bodies[i] + [l];
      assert l in bodies[i] + [l];
      assert forall m :: m in bodies[i] ==> m in bodies[i] + [l];
    }
  }

  lemma {:induction false} SomeTrueConcat(v: Valuation, a: seq<Condition>, b: seq<Condition>)
    ensures SomeTrue(v, a + b) <==> SomeTrue(v, a) || SomeTrue(v, b)
  {
    if i :| 0 <= i < |a| && AllTrue(v, a[i]) {
      assert AllTrue(v, (a + b)[i]);
    }
    if i :| 0 <= i < |b| && AllTrue(v, b[i]) {
      assert AllTrue(v, (a + b)[|a| + i]);
    }
    if i :| 0 <= i < |a + b| && AllTrue(v, (a + b)[i]) {
      assert AllTrue(v, if i < |a| then a[i] else b[i - |a|]);
    }
  }

  lemma {:induction false} ProductMeans(v: Valuation, bodies: seq<Condition>, c: Condition)
    ensures SomeTrue(v, ProductOf(bodies, c)) <==> SomeTrue(v, bodies) && !AllTrue(v, c)
  {
    if c != [] {
      var front, l := c[..|c| - 1], c[|c| - 1];
      assert c == front + [l];
      ProductMeans(v, bodies, front);
      SomeTrueConcat(v, ProductOf(bodies, front), Appended(bodies, l.Negate()));
      AppendedMeans(v, bodies, l.Negate());
      NegateTrue(v, l);
      assert AllTrue(v, c) <==> AllTrue(v, front) && IsTrue(v, l);
    }
  }

  /** Extends every condition in place. */
  method AppendToAll(axioms: seq<Axiom>, l: Literal)
    requires Distinct(axioms)
    modifies axioms
    ensures Bodies(axioms) == Appended(old(Bodies(axioms)), l)
  {
    for i := 0 to |axioms|
      invariant forall k :: 0 <= k < |axioms| ==> axioms[k].condition == old(axioms[k].condition) + if k < i then [l] else []
    {
      axioms[i].condition := axioms[i].condition + [l];
    }
  }

  ghost predicate Named(axioms: seq<Axiom>, name: string, effect: Literal) {
    forall a :: a in axioms ==> a.name == name && a.effect == effect
  }

  /** Copies of the given axioms, each extended by one literal. */
  method CopyWith(axioms: seq<Axiom>, l: Literal, name: string, effect: Literal) returns (copies: seq<Axiom>)
    requires Named(axioms, name, effect)
    ensures Distinct(copies) && fresh(copies) && Named(copies, name, effect)
    ensures Bodies(copies) == Appended(Bodies(axioms), l)
  {
    copies := [];
    for i := 0 to |axioms|
      invariant |copies| == i && Distinct(copies)
      invariant fresh(copies) && Named(copies, name, effect)
      invariant forall k :: 0 <= k < i ==> copies[k].condition == axioms[k].condition + [l]
    {
      var copy := axioms[i].Clone();
      copy.condition := copy.condition + [l];
      copies := copies + [copy];
    }
  }

  method Distribute(axioms: seq<Axiom>, c: Condition, name: string, effect: Literal) returns (product: seq<Axiom>)
    requires Named(axioms, name, effect)
    ensures Distinct(product) && fresh(product) && Named(product, name, effect)
    ensures Bodies(product) == ProductOf(Bodies(axioms), c)
  {
    product := [];
    for k := 0 to |c|
      invariant Distinct(product) && fresh(product) && Named(product, name, effect)
      invariant Bodies(product) == ProductOf(Bodies(axioms), c[..k])
    {
      var copies := CopyWith(axioms, c[k].Negate(), name, effect);
      assert c[..k + 1][..k] == c[..k];
      BodiesConcat(product, copies);
      assert forall a, b :: a in product && b in copies ==> a != b;
      product := product + copies;
    }
    assert c[..|c|] == c;
  }

  lemma {:induction false} BodiesConcat(a: seq<Axiom>, b: seq<Axiom>)
    ensures Bodies(a + b) == Bodies(a) + Bodies(b)
  {
  }

  /** The result's disjunction is true exactly when none of the given bodies is. */
  method Negate(axioms: seq<Axiom>) returns (result: seq<Axiom>)
    requires axioms != []
    ensures forall v: Valuation :: SomeTrue(v, Bodies(result)) <==> !SomeTrue(v, Bodies(axioms))
    ensures fresh(result) && Named(result, axioms[0].name, axioms[0].effect.Negate())
  {
    var name, effect := axioms[0].name, axioms[0].effect.Negate();
    ghost var bodies := Bodies(axioms);
    var first := new Axiom(name, [], effect);
    result := [first];
    forall v: Valuation ensures SomeTrue(v, Bodies(result)) {
      assert AllTrue(v, Bodies(result)[0]);
    }
    for k := 0 to |axioms|
      invariant Distinct(result) && fresh(result) && Named(result, name, effect)
      invariant Bodies(axioms) == bodies
      invariant forall v: Valuation :: SomeTrue(v, Bodies(result)) <==> !SomeTrue(v, bodies[..k])
    {
      var condition := axioms[k].condition;
      ghost var before := Bodies(result);
      assert bodies[..k + 1] == bodies[..k] + [condition];
      if |condition| == 0 {
        forall v: Valuation ensures SomeTrue(v, bodies) {
          assert AllTrue(v, bodies[k]);
        }
        return [];
      } else if |condition| == 1 {
        AppendToAll(result, condition[0].Negate());
      } else {
        result := Distribute(result, condition, name, effect);
      }
      forall v: Valuation ensures SomeTrue(v, Bodies(result)) <==> !SomeTrue(v, bodies[..k + 1]) {
        SomeTrueConcat(v, bodies[..k], [condition]);
        OneBody(v, condition);
        if |condition| == 1 {
          AppendedMeans(v, before, condition[0].Negate());
          NegateTrue(v, condition[0]);
        } else {
          ProductMeans(v, before, condition);
        }
      }
    }
    assert bodies[..|axioms|] == bodies;
    ghost var full := result;
    result := Simplify(result);
    assert forall i :: 0 <= i < |result| ==> result[i] in full;
  }

  lemma {:induction false} OneBody(v: Valuation, c: Condition)
    ensures SomeTrue(v, [c]) <==> AllTrue(v, c)
    ensures |c| == 1 ==> (AllTrue(v, c) <==> IsTrue(v, c[0]))
  {
    if AllTrue(v, c) {
      assert AllTrue(v, [c][0]);
    }
  }

  // ---------- Which axiom literals are needed ----------

  type AxiomsByAtom = map<Literal, seq<Condition>>

  function SignedLiteral(l: Literal, negated: bool): Literal {
    if negated then l.Negate() else l
  }

  /** The literals of the atoms that have axioms. */
  ghost predicate IsAxiomLiteral(byAtom: AxiomsByAtom, l: Literal) {
    l.Positive() in byAtom
  }

  /** Needing a literal makes its axioms' conditions needed, with the literal's own sign. */
  ghost predicate Leads(byAtom: AxiomsByAtom, l: Literal, m: Literal) {
    exists c, k: Literal :: IsAxiomLiteral(byAtom, l) && c in byAtom[l.Positive()] && k in c && m == SignedLiteral(k, l.negated)
  }

  ghost predicate Closed(byAtom: AxiomsByAtom, needed: set<Literal>) {
    forall l, m :: l in needed && Leads(byAtom, l, m) && IsAxiomLiteral(byAtom, m) ==> m in needed
  }

  datatype Operator = Operator(precondition: Condition, addConditions: seq<Condition>, delConditions: seq<Condition>)

  /** Literals that goals, the global constraint and operators ask for; conditions of delete effects count negated. */
  ghost predicate AskedByOperator(op: Operator, l: Literal) {
    || l in op.precondition
    || (exists c :: c in op.addConditions && l in c)
    || (exists c :: c in op.delConditions && l.Negate() in c)
  }

  ghost predicate Asked(operators: seq<Operator>, goals: Condition, constraint: Literal, l: Literal) {
    l in goals || l == constraint || exists op :: op in operators && AskedByOperator(op, l)
  }

  /** A set that holds the axiom literals among those asked for and is closed. */
  ghost predicate Covers(byAtom: AxiomsByAtom, operators: seq<Operator>, goals: Condition, constraint: Literal, needed: set<Literal>) {
    && (forall l :: Asked(operators, goals, constraint, l) && IsAxiomLiteral(byAtom, l) ==> l in needed)
    && Closed(byAtom, needed)
  }

  /** The literals that registering a list with a sign adds. */
  ghost predicate Registers(byAtom: AxiomsByAtom, literals: Condition, negated: bool, l: Literal) {
    IsAxiomLiteral(byAtom, l) && SignedLiteral(l, negated) in literals
  }

  method RegisterLiterals(byAtom: AxiomsByAtom, literals: Condition, negated: bool, needed: set<Literal>, queue: seq<Literal>)
    returns (needed': set<Literal>, queue': seq<Literal>)
    ensures forall l :: l in needed' <==> l in needed || Registers(byAtom, literals, negated, l)
    ensures queue <= queue' && forall l :: l in queue' <==> l in queue || (l in needed' && l !in needed)
    ensures |queue'| - |queue| == |needed'| - |needed|
  {
    needed', queue' := needed, queue;
    for i := 0 to |literals|
      invariant forall l :: l in needed' <==> l in needed || Registers(byAtom, literals[..i], negated, l)
      invariant queue <= queue' && forall l :: l in queue' <==> l in queue || (l in needed' && l !in needed)
      invariant |queue'| - |queue| == |needed'| - |needed|
    {
      var literal := SignedLiteral(literals[i], negated);
      assert literals[..i + 1] == literals[..i] + [literals[i]];
      if literals[i].Positive() in byAtom && literal !in needed' {
        needed' := needed' + {literal};
        queue' := queue' + [literal];
      }
    }
    assert literals[..|literals|] == literals;
  }

  /** The literals that registering several lists adds. */
  ghost predicate RegistersSome(byAtom: AxiomsByAtom, conditions: seq<Condition>, negated: bool, l: Literal) {
    exists c :: c in conditions && Registers(byAtom, c, negated, l)
  }

  method RegisterAll(byAtom: AxiomsByAtom, conditions: seq<Condition>, negated: bool, needed: set<Literal>, queue: seq<Literal>)
    returns (needed': set<Literal>, queue': seq<Literal>)
    ensures forall l :: l in needed' <==> l in needed || RegistersSome(byAtom, conditions, negated, l)
    ensures queue <= queue' && forall l :: l in queue' <==> l in queue || (l in needed' && l !in needed)
    ensures |queue'| - |queue| == |needed'| - |needed|
  {
    needed', queue' := needed, queue;
    for i := 0 to |conditions|
      invariant forall l :: l in needed' <==> l in needed || RegistersSome(byAtom, conditions[..i], negated, l)
      invariant queue <= queue' && forall l :: l in queue' <==> l in queue || (l in needed' && l !in needed)
      invariant |queue'| - |queue| == |needed'| - |needed|
    {
      assert conditions[..i + 1] == conditions[..i] + [conditions[i]];
      RegistersOneMore(byAtom, conditions, i, negated);
      hide Registers, RegistersSome;
      needed', queue' := RegisterLiterals(byAtom, conditions[i], negated, needed', queue');
    }
    assert conditions[..|conditions|] == conditions;
  }

  lemma {:induction false} RegistersOneMore(byAtom: AxiomsByAtom, conditions: seq<Condition>, i: nat, negated: bool)
    requires i < |conditions|
    ensures forall l :: RegistersSome(byAtom, conditions[..i + 1], negated, l) <==>
      RegistersSome(byAtom, conditions[..i], negated, l) || Registers(byAtom, conditions[i], negated, l)
  {
    assert conditions[..i + 1] == conditions[..i] + [conditions[i]];
    forall l
      ensures RegistersSome(byAtom, conditions[..i + 1], negated, l) <==>
        RegistersSome(byAtom, conditions[..i], negated, l) || Registers(byAtom, conditions[i], negated, l)
    {
      hide Registers;
      if Registers(byAtom, conditions[i], negated, l) {
        assert conditions[i] in conditions[..i + 1];
      }
      if c :| c in conditions[..i] && Registers(byAtom, c, negated, l) {
        assert c in conditions[..i + 1];
      }
    }
  }

  method RegisterOperator(byAtom: AxiomsByAtom, op: Operator, needed: set<Literal>, queue: seq<Literal>)
    returns (needed': set<Literal>, queue': seq<Literal>)
    ensures forall l :: l in needed' <==> l in needed || (IsAxiomLiteral(byAtom, l) && AskedByOperator(op, l))
    ensures forall l :: l in queue' <==> l in queue || (l in needed' && l !in needed)
  {
    needed', queue' := RegisterLiterals(byAtom, op.precondition, false, needed, queue);
    needed', queue' := RegisterAll(byAtom, op.addConditions, false, needed', queue');
    needed', queue' := RegisterAll(byAtom, op.delConditions, true, needed', queue');
    AskedIsRegistered(byAtom, op);
  }

  lemma {:induction false} AskedIsRegistered(byAtom: AxiomsByAtom, op: Operator)
    ensures forall l :: IsAxiomLiteral(byAtom, l) && AskedByOperator(op, l) <==>
      Registers(byAtom, op.precondition, false, l) || RegistersSome(byAtom, op.addConditions, false, l)
      || RegistersSome(byAtom, op.delConditions, true, l)
  {
  }

  /** All axiom literals that can be registered. */
  ghost function AllLiterals(byAtom: AxiomsByAtom): set<Literal> {
    byAtom.Keys + (set a | a in byAtom :: a.Negate())
  }

  ghost predicate KeyedByAtoms(byAtom: AxiomsByAtom) {
    forall a :: a in byAtom ==> !a.negated
  }

  lemma {:induction false} Bounded(byAtom: AxiomsByAtom, needed: set<Literal>)
    requires KeyedByAtoms(byAtom) && forall l :: l in needed ==> IsAxiomLiteral(byAtom, l)
    ensures needed <= AllLiterals(byAtom)
  {
    forall l | l in needed ensures l in AllLiterals(byAtom) {
      assert l.Positive() in byAtom;
      assert if l.negated then l == l.Positive().Negate() else l == l.Positive();
    }
  }

  /** Literals taken from the queue have had their conditions registered, and nothing is there without need. */
  ghost predicate Searching(byAtom: AxiomsByAtom, operators: seq<Operator>, goals: Condition, constraint: Literal,
                            needed: set<Literal>, queue: seq<Literal>) {
    && (forall l :: l in needed ==> IsAxiomLiteral(byAtom, l)) && (forall l :: l in queue ==> l in needed)
    && (forall l, m :: l in needed && l !in queue && Leads(byAtom, l, m) && IsAxiomLiteral(byAtom, m) ==> m in needed)
    && (forall other :: Covers(byAtom, operators, goals, constraint, other) ==> needed <= other)
  }

  method InitialLiterals(byAtom: AxiomsByAtom, operators: seq<Operator>, goals: Condition, constraint: Literal)
    returns (needed: set<Literal>, queue: seq<Literal>)
    ensures forall l :: l in needed <==> IsAxiomLiteral(byAtom, l) && Asked(operators, goals, constraint, l)
    ensures forall l :: l in queue <==> l in needed
    ensures Searching(byAtom, operators, goals, constraint, needed, queue)
  {
    needed, queue := RegisterLiterals(byAtom, goals, false, {}, []);
    needed, queue := RegisterLiterals(byAtom, [constraint], false, needed, queue);
    hide AskedByOperator;
    for i := 0 to |operators|
      invariant forall l :: l in needed <==> IsAxiomLiteral(byAtom, l) && Asked(operators[..i], goals, constraint, l)
      invariant forall l :: l in queue <==> l in needed
    {
      assert operators[..i + 1] == operators[..i] + [operators[i]];
      needed, queue := RegisterOperator(byAtom, operators[i], needed, queue);
    }
    assert operators[..|operators|] == operators;
  }

  /** Registers the conditions of all axioms for the literal's atom, with the literal's sign. */
  method RegisterConditions(byAtom: AxiomsByAtom, literal: Literal, needed: set<Literal>, queue: seq<Literal>,
                            ghost operators: seq<Operator>, ghost goals: Condition, ghost constraint: Literal)
    returns (needed': set<Literal>, queue': seq<Literal>)
    requires Searching(byAtom, operators, goals, constraint, needed, queue + [literal])
    ensures Searching(byAtom, operators, goals, constraint, needed', queue')
    ensures needed <= needed' && |queue'| - |queue| == |needed'| - |needed|
  {
    assert literal in queue + [literal];
    needed', queue' := RegisterAll(byAtom, byAtom[literal.Positive()], literal.negated, needed, queue);
    LeadsIsRegistered(byAtom, literal);
    StillSearching(byAtom, operators, goals, constraint, literal, needed, queue, needed', queue');
  }

  lemma {:induction false} LeadsIsRegistered(byAtom: AxiomsByAtom, literal: Literal)
    requires IsAxiomLiteral(byAtom, literal)
    ensures forall m :: Leads(byAtom, literal, m) && IsAxiomLiteral(byAtom, m) <==>
      RegistersSome(byAtom, byAtom[literal.Positive()], literal.negated, m)
  {
    forall m
      ensures Leads(byAtom, literal, m) && IsAxiomLiteral(byAtom, m) <==>
        RegistersSome(byAtom, byAtom[literal.Positive()], literal.negated, m)
    {
      if Leads(byAtom, literal, m) && IsAxiomLiteral(byAtom, m) {
        var c, k: Literal :| c in byAtom[literal.Positive()] && k in c && m == SignedLiteral(k, literal.negated);
        assert Registers(byAtom, c, literal.negated, m);
      }
      if RegistersSome(byAtom, byAtom[literal.Positive()], literal.negated, m) {
        var c :| c in byAtom[literal.Positive()] && Registers(byAtom, c, literal.negated, m);
        assert SignedLiteral(m, literal.negated) in c;
      }
    }
  }

  lemma {:induction false} StillSearching(byAtom: AxiomsByAtom, operators: seq<Operator>, goals: Condition, constraint: Literal,
                                          literal: Literal, needed: set<Literal>, queue: seq<Literal>,
                                          needed': set<Literal>, queue': seq<Literal>)
    requires Searching(byAtom, operators, goals, constraint, needed, queue + [literal])
    requires forall m :: m in needed' <==> m in needed || (Leads(byAtom, literal, m) && IsAxiomLiteral(byAtom, m))
    requires forall l :: l in queue' <==> l in queue || (l in needed' && l !in needed)
    ensures Searching(byAtom, operators, goals, constraint, needed', queue')
  {
    hide Leads, IsAxiomLiteral;
    assert literal in queue + [literal];
    forall l, m | l in needed' && l !in queue' && Leads(byAtom, l, m) && IsAxiomLiteral(byAtom, m) ensures m in needed' {
      if l != literal {
        assert l in needed && l !in queue + [literal];
      }
    }
    forall l | l in queue' ensures l in needed' {
      if l in queue {
        assert l in queue + [literal];
      }
    }
  }

  /** The least set of axiom literals that is closed and covers what goals, constraint and operators ask for. */
  method ComputeNecessaryAxiomLiterals(byAtom: AxiomsByAtom, operators: seq<Operator>, goals: Condition, constraint: Literal)
    returns (needed: set<Literal>)
    requires KeyedByAtoms(byAtom)
    ensures Covers(byAtom, operators, goals, constraint, needed)
    ensures forall other :: Covers(byAtom, operators, goals, constraint, other) ==> needed <= other
    ensures forall l :: l in needed ==> IsAxiomLiteral(byAtom, l)
  {
    hide *;
    var queue;
    needed, queue := InitialLiterals(byAtom, operators, goals, constraint);
    ghost var first := needed;
    while queue != []
      invariant Searching(byAtom, operators, goals, constraint, needed, queue) && first <= needed
      decreases |AllLiterals(byAtom)| - |needed|, |queue|
    {
      var literal := queue[|queue| - 1];
      assert queue == queue[..|queue| - 1] + [literal];
      SearchBounded(byAtom, operators, goals, constraint, needed, queue);
      ghost var before := needed;
      needed, queue := RegisterConditions(byAtom, literal, needed, queue[..|queue| - 1], operators, goals, constraint);
      SearchBounded(byAtom, operators, goals, constraint, needed, queue);
      SubsetSize(before, needed);
    }
    SearchDone(byAtom, operators, goals, constraint, first, needed);
  }

  lemma {:induction false} SearchBounded(byAtom: AxiomsByAtom, operators: seq<Operator>, goals: Condition, constraint: Literal,
                                         needed: set<Literal>, queue: seq<Literal>)
    requires KeyedByAtoms(byAtom) && Searching(byAtom, operators, goals, constraint, needed, queue)
    ensures |needed| <= |AllLiterals(byAtom)|
  {
    Bounded(byAtom, needed);
    SubsetSize(needed, AllLiterals(byAtom));
  }

  lemma {:induction false} SearchDone(byAtom: AxiomsByAtom, operators: seq<Operator>, goals: Condition, constraint: Literal,
                                      first: set<Literal>, needed: set<Literal>)
    requires Searching(byAtom, operators, goals, constraint, needed, []) && first <= needed
    requires forall l :: l in first <==> IsAxiomLiteral(byAtom, l) && Asked(operators, goals, constraint, l)
    ensures Covers(byAtom, operators, goals, constraint, needed)
    ensures forall other :: Covers(byAtom, operators, goals, constraint, other) ==> needed <= other
    ensures forall l :: l in needed ==> IsAxiomLiteral(byAtom, l)
  {
    hide Leads, Asked, IsAxiomLiteral;
    assert Closed(byAtom, needed);
  }

  lemma {:induction false} SubsetSize(a: set<Literal>, b: set<Literal>)
    requires a <= b
    ensures |a| <= |b|
  {
    if x :| x in a {
      SubsetSize(a - {x}, b - {x});
    }
  }
}
