/**
  Axiom rules and their layered least model with negation as failure (src/search/axioms.h:9-15).
 */
module AxiomModel {

  datatype Fact = Fact(v: nat, val: nat)

  datatype Axiom = Axiom(conditions: seq<Fact>, effect: Fact)

  /**
    layers[v] == -1: v is not derived.  layers[v] == comparisonLayer: v holds the outcome of a comparison axiom.
    Any other layer: v is derived by logic axioms.
   */
  datatype AxiomTask = AxiomTask(
    domain: seq<nat>,
    layers: seq<int>,
    defaults: seq<nat>,
    comparisonLayer: int,
    axioms: seq<Axiom>)

  predicate IsFact(t: AxiomTask, f: Fact) {
    f.v < |t.domain| && f.val < t.domain[f.v]
  }

  predicate IsLogic(t: AxiomTask, v: nat) {
    v < |t.layers| && t.layers[v] != -1 && t.layers[v] != t.comparisonLayer
  }

  predicate IsDefault(t: AxiomTask, f: Fact)
    requires f.v < |t.defaults|
  {
    f.val == t.defaults[f.v]
  }

  ghost predicate WellFormed(t: AxiomTask) {
    && |t.domain| == |t.layers| == |t.defaults|
    && t.comparisonLayer >= -1
    && (forall v :: 0 <= v < |t.layers| ==> t.layers[v] >= -1)
    && (forall v :: 0 <= v < |t.layers| ==> IsFact(t, Fact(v, t.defaults[v])))
    && (forall v :: 0 <= v < |t.layers| && IsLogic(t, v) ==> t.comparisonLayer < t.layers[v])
    && (forall a :: a in t.axioms ==> IsFact(t, a.effect) && IsLogic(t, a.effect.v) && !IsDefault(t, a.effect))
    && (forall a, c {:trigger a in t.axioms, c in a.conditions} :: a in t.axioms && c in a.conditions ==> IsFact(t, c))
    && (forall a, b :: a in t.axioms && b in t.axioms && a.effect.v == b.effect.v ==> a.effect == b.effect)
  }

  /** The lowest layer an axiom with this condition may derive into. */
  function Level(t: AxiomTask, f: Fact): int
    requires f.v < |t.layers| && f.v < |t.defaults|
  {
    if !IsLogic(t, f.v) then 0
    else if IsDefault(t, f) then t.layers[f.v] + 1
    else t.layers[f.v]
  }

  /** Rules depend on no higher layer, and on defaults only of lower ones. */
  ghost predicate Stratified(t: AxiomTask)
    requires WellFormed(t)
  {
    forall a, c {:trigger a in t.axioms, c in a.conditions} :: a in t.axioms && c in a.conditions ==> Level(t, c) <= t.layers[a.effect.v]
  }

  ghost predicate IsEffect(t: AxiomTask, f: Fact) {
    exists a :: a in t.axioms && a.effect == f
  }

  // ---------- Layered least model ----------

  ghost predicate IsState(t: AxiomTask, m: seq<nat>) {
    |m| == |t.domain| && forall v :: 0 <= v < |m| ==> IsFact(t, Fact(v, m[v]))
  }

  /** The variables of a layer that are not at their default. */
  ghost function TrueAt(t: AxiomTask, m: seq<nat>, layer: int): set<nat>
    requires WellFormed(t) && IsState(t, m)
  {
    set v: nat | v < |m| && IsLogic(t, v) && t.layers[v] == layer && m[v] != t.defaults[v]
  }

  /** Condition c, with the variables of this layer read off X and all others off m. */
  ghost predicate Holds(t: AxiomTask, m: seq<nat>, layer: int, X: set<nat>, c: Fact)
    requires WellFormed(t) && IsState(t, m) && IsFact(t, c)
  {
    if IsLogic(t, c.v) && t.layers[c.v] == layer then c.v in X && IsEffect(t, c)
    else m[c.v] == c.val
  }

  ghost predicate ClosedAt(t: AxiomTask, m: seq<nat>, layer: int, X: set<nat>)
    requires WellFormed(t) && IsState(t, m)
  {
    forall a :: a in t.axioms && t.layers[a.effect.v] == layer && (forall c :: c in a.conditions ==> Holds(t, m, layer, X, c))
      ==> a.effect.v in X
  }

  /** m agrees with the input on underived variables, and each layer holds exactly what must be derived. */
  ghost predicate IsLayeredModel(t: AxiomTask, input: seq<nat>, m: seq<nat>)
    requires WellFormed(t)
  {
    && IsState(t, m) && |input| == |m|
    && (forall v :: 0 <= v < |m| && !IsLogic(t, v) ==> m[v] == input[v])
    && (forall v :: 0 <= v < |m| && IsLogic(t, v) ==> m[v] == t.defaults[v] || IsEffect(t, Fact(v, m[v])))
    && (forall layer :: ClosedAt(t, m, layer, TrueAt(t, m, layer)))
    && (forall layer, X :: ClosedAt(t, m, layer, X) ==> TrueAt(t, m, layer) <= X)
  }

  ghost predicate AgreeBelow(t: AxiomTask, m: seq<nat>, m': seq<nat>, layer: int)
    requires WellFormed(t) && IsState(t, m) && IsState(t, m')
  {
    forall v :: 0 <= v < |m| && (!IsLogic(t, v) || t.layers[v] < layer) ==> m[v] == m'[v]
  }

  lemma {:induction false} AgreeOnLayer(t: AxiomTask, input: seq<nat>, m: seq<nat>, m': seq<nat>, layer: int)
    requires WellFormed(t) && Stratified(t) && IsLayeredModel(t, input, m) && IsState(t, m')
    requires ClosedAt(t, m', layer, TrueAt(t, m', layer)) && AgreeBelow(t, m, m', layer)
    ensures TrueAt(t, m, layer) <= TrueAt(t, m', layer)
  {
    var X := TrueAt(t, m', layer);
    forall a | a in t.axioms && t.layers[a.effect.v] == layer && (forall c :: c in a.conditions ==> Holds(t, m, layer, X, c))
      ensures a.effect.v in X
    {
      forall c | c in a.conditions ensures Holds(t, m', layer, X, c) {
        assert Holds(t, m, layer, X, c) && Level(t, c) <= layer;
      }
    }
    assert ClosedAt(t, m, layer, X);
  }

  lemma {:induction false} AgreeUpTo(t: AxiomTask, input: seq<nat>, input': seq<nat>, m: seq<nat>, m': seq<nat>, layer: nat)
    requires WellFormed(t) && Stratified(t) && IsLayeredModel(t, input, m) && IsLayeredModel(t, input', m')
    requires forall v :: 0 <= v < |m| && !IsLogic(t, v) ==> input[v] == input'[v]
    ensures AgreeBelow(t, m, m', layer)
  {
    if layer > 0 {
      AgreeUpTo(t, input, input', m, m', layer - 1);
      AgreeOnLayer(t, input, m, m', layer - 1);
      AgreeOnLayer(t, input', m', m, layer - 1);
      forall v | 0 <= v < |m| && IsLogic(t, v) && t.layers[v] == layer - 1 ensures m[v] == m'[v] {
        assert v in TrueAt(t, m, layer - 1) <==> v in TrueAt(t, m', layer - 1);
      }
    }
  }

  /**
    A stratified task has at most one layered least model, and it depends only on the underived variables:
    what the derived variables held before does not matter.
   */
  lemma {:induction false} LayeredModelUnique(t: AxiomTask, input: seq<nat>, input': seq<nat>, m: seq<nat>, m': seq<nat>)
    requires WellFormed(t) && Stratified(t) && IsLayeredModel(t, input, m) && IsLayeredModel(t, input', m')
    requires forall v :: 0 <= v < |m| && !IsLogic(t, v) ==> input[v] == input'[v]
    ensures m == m'
  {
    forall v | 0 <= v < |m| ensures m[v] == m'[v] {
      AgreeUpTo(t, input, input', m, m', if t.layers[v] >= 0 then t.layers[v] + 1 else 0);
    }
  }

  // ---------- Supported derivations ----------

  /** Condition c is true in m, and if derived it was derived before position i of the order or is a default. */
  ghost predicate SupportedCondition(t: AxiomTask, m: seq<nat>, order: seq<nat>, i: nat, c: Fact)
    requires WellFormed(t) && IsState(t, m) && IsFact(t, c) && i <= |order|
  {
    m[c.v] == c.val && (IsLogic(t, c.v) && !IsDefault(t, c) ==> c.v in order[..i])
  }

  ghost predicate SupportedAt(t: AxiomTask, m: seq<nat>, order: seq<nat>, i: nat)
    requires WellFormed(t) && IsState(t, m) && i < |order|
  {
    exists a :: a in t.axioms && a.effect.v == order[i] && a.effect.val == m[order[i]]
      && forall c :: c in a.conditions ==> SupportedCondition(t, m, order, i, c)
  }

  /** order lists the derived variables so that each has a rule supported by what comes before it. */
  ghost predicate Supported(t: AxiomTask, m: seq<nat>, order: seq<nat>)
    requires WellFormed(t) && IsState(t, m)
  {
    && (forall v: nat :: v < |m| && IsLogic(t, v) ==> (m[v] != t.defaults[v] <==> v in order))
    && (forall i :: 0 <= i < |order| ==> order[i] < |m| && SupportedAt(t, m, order, i))
  }

  /** Every rule whose conditions are true has a true effect. */
  ghost predicate RulesSatisfied(t: AxiomTask, m: seq<nat>)
    requires WellFormed(t) && IsState(t, m)
  {
    forall a :: a in t.axioms && (forall c :: c in a.conditions ==> m[c.v] == c.val) ==> m[a.effect.v] == a.effect.val
  }

  lemma {:induction false} SupportedInClosed(t: AxiomTask, m: seq<nat>, order: seq<nat>, layer: int, X: set<nat>, i: nat)
    requires WellFormed(t) && Stratified(t) && IsState(t, m) && Supported(t, m, order) && i < |order|
    requires ClosedAt(t, m, layer, X) && t.layers[order[i]] == layer
    ensures order[i] in X
    decreases i
  {
    assert SupportedAt(t, m, order, i);
    var a :| a in t.axioms && a.effect.v == order[i] && a.effect.val == m[order[i]]
      && forall c :: c in a.conditions ==> SupportedCondition(t, m, order, i, c);
    forall c | c in a.conditions ensures Holds(t, m, layer, X, c) {
      assert SupportedCondition(t, m, order, i, c) && Level(t, c) <= layer;
      if IsLogic(t, c.v) && t.layers[c.v] == layer {
        var j :| 0 <= j < i && order[j] == c.v;
        SupportedInClosed(t, m, order, layer, X, j);
        assert SupportedAt(t, m, order, j);
      }
    }
  }

  /** A supported state that satisfies its rules is the layered least model. */
  lemma {:induction false} SupportedIsLayeredModel(t: AxiomTask, input: seq<nat>, m: seq<nat>, order: seq<nat>)
    requires WellFormed(t) && Stratified(t) && IsState(t, m) && |input| == |m|
    requires forall v :: 0 <= v < |m| && !IsLogic(t, v) ==> m[v] == input[v]
    requires Supported(t, m, order) && RulesSatisfied(t, m)
    ensures IsLayeredModel(t, input, m)
  {
    forall v: nat | v < |m| && IsLogic(t, v) && m[v] != t.defaults[v] ensures IsEffect(t, Fact(v, m[v])) {
      var i :| 0 <= i < |order| && order[i] == v;
      assert SupportedAt(t, m, order, i);
    }
    forall layer ensures ClosedAt(t, m, layer, TrueAt(t, m, layer)) {
      TrueIsClosed(t, m, layer);
    }
    forall layer, X | ClosedAt(t, m, layer, X) ensures TrueAt(t, m, layer) <= X {
      forall v | v in TrueAt(t, m, layer) ensures v in X {
        var i :| 0 <= i < |order| && order[i] == v;
        SupportedInClosed(t, m, order, layer, X, i);
      }
    }
  }

  lemma {:induction false} TrueIsClosed(t: AxiomTask, m: seq<nat>, layer: int)
    requires WellFormed(t) && Stratified(t) && IsState(t, m) && RulesSatisfied(t, m)
    requires forall v: nat :: v < |m| && IsLogic(t, v) && m[v] != t.defaults[v] ==> IsEffect(t, Fact(v, m[v]))
    ensures ClosedAt(t, m, layer, TrueAt(t, m, layer))
  {
    var X := TrueAt(t, m, layer);
    forall a | a in t.axioms && t.layers[a.effect.v] == layer && (forall c :: c in a.conditions ==> Holds(t, m, layer, X, c))
      ensures a.effect.v in X
    {
      forall c | c in a.conditions ensures m[c.v] == c.val {
        assert Holds(t, m, layer, X, c);
      }
    }
  }
}
