/** Rules and atoms of the grounding program after variables were numbered (src/translate/build_model.py:29-53). */
module Datalog {

  datatype Atom = Atom(pred: string, args: seq<string>)

  /** Slot(n): the variable at position n of the rule head.  Free(x): a variable that is projected away. */
  datatype Term = Slot(n: nat) | Const(name: string) | Free(name: string)

  datatype Pattern = Pattern(pred: string, args: seq<Term>)

  datatype Kind = Join | Product | Project

  datatype Rule = Rule(kind: Kind, effect: Pattern, conditions: seq<Pattern>)

  // ---------- Meaning of a program ----------

  datatype Substitution = Substitution(slots: seq<string>, free: map<string, string>)

  ghost predicate TermMatches(t: Term, obj: string, s: Substitution) {
    match t
    case Const(c) => obj == c
    case Slot(n) => n < |s.slots| && obj == s.slots[n]
    case Free(x) => x in s.free && obj == s.free[x]
  }

  ghost predicate Matches(p: Pattern, a: Atom, s: Substitution) {
    && p.pred == a.pred && |p.args| == |a.args|
    && forall i :: 0 <= i < |p.args| ==> TermMatches(p.args[i], a.args[i], s)
  }

  /** From atoms of M, one per condition, a substitution derives the head instance h. */
  ghost predicate Derives(r: Rule, M: iset<Atom>, body: seq<Atom>, s: Substitution, h: Atom) {
    && |body| == |r.conditions|
    && (forall i :: 0 <= i < |body| ==> body[i] in M && Matches(r.conditions[i], body[i], s))
    && Matches(r.effect, h, s)
  }

  ghost predicate ClosedUnder(rules: seq<Rule>, M: iset<Atom>) {
    forall k, body, s, h :: 0 <= k < |rules| && Derives(rules[k], M, body, s, h) ==> h in M
  }

  ghost predicate IsModel(facts: seq<Atom>, rules: seq<Rule>, M: iset<Atom>) {
    (forall a :: a in facts ==> a in M) && ClosedUnder(rules, M)
  }

  ghost function ToISet(s: seq<Atom>): iset<Atom> {
    iset a | a in s
  }

  /** The listed atoms form the least model of facts and rules. */
  ghost predicate IsLeastModel(facts: seq<Atom>, rules: seq<Rule>, atoms: seq<Atom>) {
    && IsModel(facts, rules, ToISet(atoms))
    && forall M :: IsModel(facts, rules, M) ==> ToISet(atoms) <= M
  }

  // ---------- What the rule splitter guarantees ----------

  ghost predicate NoRepeatedVariable(p: Pattern) {
    forall i, j :: 0 <= i < j < |p.args| && !p.args[i].Const? ==> p.args[i] != p.args[j]
  }

  ghost predicate SlotsDisjoint(p: Pattern, q: Pattern) {
    forall i, j :: 0 <= i < |p.args| && 0 <= j < |q.args| && p.args[i].Slot? ==> p.args[i] != q.args[j]
  }

  /** Every head variable occurs in a condition. */
  ghost predicate Safe(r: Rule) {
    forall n :: 0 <= n < |r.effect.args| && r.effect.args[n].Slot? ==> BoundBy(r.conditions, n)
  }

  ghost predicate BoundBy(conds: seq<Pattern>, n: nat) {
    exists i :: 0 <= i < |conds| && Slot(n) in conds[i].args
  }

  ghost predicate Numbered(r: Rule) {
    && (forall n :: 0 <= n < |r.effect.args| ==> r.effect.args[n] == Slot(n) || r.effect.args[n].Const?)
    && (forall i, n: nat :: 0 <= i < |r.conditions| && Slot(n) in r.conditions[i].args
         ==> n < |r.effect.args| && r.effect.args[n] == Slot(n))
    && (forall i :: 0 <= i < |r.conditions| ==> NoRepeatedVariable(r.conditions[i]))
  }

  ghost predicate ValidShape(r: Rule) {
    match r.kind
    case Project => |r.conditions| == 1
    case Join => |r.conditions| == 2 && NoFree(r)
    case Product =>
      && |r.conditions| >= 2 && NoFree(r)
      && forall i, j :: 0 <= i < j < |r.conditions| ==> SlotsDisjoint(r.conditions[i], r.conditions[j])
  }

  ghost predicate NoFree(r: Rule) {
    forall i, k :: 0 <= i < |r.conditions| && 0 <= k < |r.conditions[i].args| ==> !r.conditions[i].args[k].Free?
  }

  ghost predicate ValidRule(r: Rule, arity: string -> nat) {
    && Numbered(r) && Safe(r) && ValidShape(r)
    && |r.effect.args| == arity(r.effect.pred)
    && forall i :: 0 <= i < |r.conditions| ==> |r.conditions[i].args| == arity(r.conditions[i].pred)
  }

  ghost predicate ValidAtom(a: Atom, arity: string -> nat) {
    |a.args| == arity(a.pred)
  }

  // ---------- Matching one condition ----------

  /** The linear-scan test that the unifier's trie implements: same predicate, same constants. */
  predicate Unifies(p: Pattern, a: Atom) {
    && p.pred == a.pred && |p.args| == |a.args|
    && forall i :: 0 <= i < |p.args| && p.args[i].Const? ==> a.args[i] == p.args[i].name
  }

  function GetBindings(p: Pattern, a: Atom): (bs: seq<(nat, string)>)
    requires |p.args| == |a.args|
    ensures forall i :: 0 <= i < |p.args| && p.args[i].Slot? ==> (p.args[i].n, a.args[i]) in bs
    ensures forall b :: b in bs ==> exists i :: 0 <= i < |p.args| && p.args[i] == Slot(b.0) && a.args[i] == b.1
    decreases |p.args|
  {
    if p.args == [] then []
    else
      var rest := GetBindings(Pattern(p.pred, p.args[1..]), Atom(a.pred, a.args[1..]));
      if p.args[0].Slot? then [(p.args[0].n, a.args[0])] + rest else rest
  }

  /** Binding pairs written into head arguments from left to right. */
  function Assign(eff: seq<Term>, bs: seq<(nat, string)>): (r: seq<Term>)
    requires forall b :: b in bs ==> b.0 < |eff|
    ensures |r| == |eff|
    decreases |bs|
  {
    if bs == [] then eff else Assign(eff[bs[0].0 := Const(bs[0].1)], bs[1..])
  }

  ghost predicate Functional(bs: seq<(nat, string)>) {
    forall b, c :: b in bs && c in bs && b.0 == c.0 ==> b == c
  }

  lemma {:induction false} AssignSpec(eff: seq<Term>, bs: seq<(nat, string)>)
    requires Functional(bs) && forall b :: b in bs ==> b.0 < |eff|
    ensures forall b :: b in bs ==> Assign(eff, bs)[b.0] == Const(b.1)
    ensures forall n :: 0 <= n < |eff| && (forall b :: b in bs ==> b.0 != n) ==> Assign(eff, bs)[n] == eff[n]
    decreases |bs|
  {
    if bs != [] {
      var eff' := eff[bs[0].0 := Const(bs[0].1)];
      assert forall b :: b in bs[1..] ==> b in bs;
      AssignSpec(eff', bs[1..]);
      forall b | b in bs ensures Assign(eff, bs)[b.0] == Const(b.1) {
        if b !in bs[1..] {
          assert b == bs[0];
        }
      }
    }
  }

  /** Only the pairs matter, not what the overwritten positions held before. */
  lemma {:induction false} AssignSame(eff: seq<Term>, eff': seq<Term>, bs: seq<(nat, string)>, bs': seq<(nat, string)>)
    requires |eff| == |eff'| && Functional(bs) && forall b :: b in bs ==> b.0 < |eff|
    requires forall b :: b in bs <==> b in bs'
    requires forall n :: 0 <= n < |eff| && eff[n] != eff'[n] ==> exists b :: b in bs && b.0 == n
    ensures Assign(eff, bs) == Assign(eff', bs')
  {
    AssignSpec(eff, bs);
    AssignSpec(eff', bs');
    forall n | 0 <= n < |eff| ensures Assign(eff, bs)[n] == Assign(eff', bs')[n] {
      if b :| b in bs && b.0 == n {
        assert b in bs';
      } else {
        assert eff[n] == eff'[n];
      }
    }
  }

  predicate AllConst(args: seq<Term>) {
    forall i :: 0 <= i < |args| ==> args[i].Const?
  }

  function Names(args: seq<Term>): (r: seq<string>)
    requires AllConst(args)
    ensures |r| == |args| && forall i :: 0 <= i < |args| ==> r[i] == args[i].name
  {
    seq(|args|, i requires 0 <= i < |args| => args[i].name)
  }

  // ---------- One atom per condition ----------

  ghost predicate Compatible(conds: seq<Pattern>, body: seq<Atom>)
    requires |conds| == |body|
  {
    && (forall i :: 0 <= i < |conds| ==> Unifies(conds[i], body[i]))
    && (forall i, j, k, l | 0 <= i < |conds| && 0 <= j < |conds| && 0 <= k < |conds[i].args| && 0 <= l < |conds[j].args|
        :: conds[i].args[k].Slot? && conds[i].args[k] == conds[j].args[l] ==> body[i].args[k] == body[j].args[l])
  }

  ghost function AllBindings(conds: seq<Pattern>, body: seq<Atom>): (bs: seq<(nat, string)>)
    requires |conds| == |body| && forall i :: 0 <= i < |conds| ==> |conds[i].args| == |body[i].args|
    decreases |conds|
  {
    if conds == [] then [] else GetBindings(conds[0], body[0]) + AllBindings(conds[1..], body[1..])
  }

  lemma {:induction false} AllBindingsFrom(conds: seq<Pattern>, body: seq<Atom>, b: (nat, string))
    requires |conds| == |body| && forall i :: 0 <= i < |conds| ==> |conds[i].args| == |body[i].args|
    ensures b in AllBindings(conds, body) <==> exists i :: 0 <= i < |conds| && b in GetBindings(conds[i], body[i])
    decreases |conds|
  {
    if conds != [] {
      AllBindingsFrom(conds[1..], body[1..], b);
      if b in AllBindings(conds[1..], body[1..]) {
        var i :| 0 <= i < |conds| - 1 && b in GetBindings(conds[1..][i], body[1..][i]);
        assert b in GetBindings(conds[i + 1], body[i + 1]);
      }
      if i :| 0 <= i < |conds| && b in GetBindings(conds[i], body[i]) {
        if i > 0 {
          assert b in GetBindings(conds[1..][i - 1], body[1..][i - 1]);
        }
      }
    }
  }

  lemma {:induction false} BindingsFunctional(conds: seq<Pattern>, body: seq<Atom>)
    requires |conds| == |body| && Compatible(conds, body)
    ensures Functional(AllBindings(conds, body))
  {
    var bs := AllBindings(conds, body);
    forall b, c | b in bs && c in bs && b.0 == c.0 ensures b == c {
      var i, k := BindingOrigin(conds, body, b);
      var j, l := BindingOrigin(conds, body, c);
    }
  }

  lemma {:induction false} BindingOrigin(conds: seq<Pattern>, body: seq<Atom>, b: (nat, string)) returns (i: nat, k: nat)
    requires |conds| == |body| && forall i :: 0 <= i < |conds| ==> |conds[i].args| == |body[i].args|
    requires b in AllBindings(conds, body)
    ensures i < |conds| && k < |conds[i].args| && conds[i].args[k] == Slot(b.0) && body[i].args[k] == b.1
  {
    AllBindingsFrom(conds, body, b);
    i :| 0 <= i < |body| && b in GetBindings(conds[i], body[i]);
    k :| 0 <= k < |conds[i].args| && conds[i].args[k] == Slot(b.0) && body[i].args[k] == b.1;
  }

  lemma {:induction false} BindingInRange(r: Rule, body: seq<Atom>, b: (nat, string))
    requires Numbered(r) && |body| == |r.conditions| && Compatible(r.conditions, body)
    requires b in AllBindings(r.conditions, body)
    ensures b.0 < |r.effect.args| && r.effect.args[b.0] == Slot(b.0)
  {
    hide AllBindings, GetBindings, NoFree;
    var i, k := BindingOrigin(r.conditions, body, b);
    assert Slot(b.0) in r.conditions[i].args;
  }

  lemma {:induction false} BindingsInRange(r: Rule, body: seq<Atom>)
    requires Numbered(r) && |body| == |r.conditions| && Compatible(r.conditions, body)
    ensures forall b :: b in AllBindings(r.conditions, body) ==> b.0 < |r.effect.args| && r.effect.args[b.0] == Slot(b.0)
  {
    forall b | b in AllBindings(r.conditions, body)
      ensures b.0 < |r.effect.args| && r.effect.args[b.0] == Slot(b.0)
    {
      BindingInRange(r, body, b);
    }
  }

  /** What a rule writes into its head for these body atoms. */
  ghost function HeadArgs(r: Rule, body: seq<Atom>): seq<Term>
    requires Numbered(r) && |body| == |r.conditions| && Compatible(r.conditions, body)
  {
    BindingsInRange(r, body);
    Assign(r.effect.args, AllBindings(r.conditions, body))
  }

  lemma {:induction false} HeadArgsSpec(r: Rule, body: seq<Atom>)
    requires Numbered(r) && Safe(r) && |body| == |r.conditions| && Compatible(r.conditions, body)
    ensures AllConst(HeadArgs(r, body)) && |HeadArgs(r, body)| == |r.effect.args|
    ensures forall n :: 0 <= n < |r.effect.args| && r.effect.args[n].Const? ==> HeadArgs(r, body)[n] == r.effect.args[n]
    ensures forall i, k | 0 <= i < |body| && 0 <= k < |r.conditions[i].args| && r.conditions[i].args[k].Slot?
      :: r.conditions[i].args[k].n < |r.effect.args|
         && HeadArgs(r, body)[r.conditions[i].args[k].n] == Const(body[i].args[k])
  {
    var bs := AllBindings(r.conditions, body);
    BindingsInRange(r, body);
    BindingsFunctional(r.conditions, body);
    AssignSpec(r.effect.args, bs);
    forall i, k | 0 <= i < |body| && 0 <= k < |r.conditions[i].args| && r.conditions[i].args[k].Slot?
      ensures (r.conditions[i].args[k].n, body[i].args[k]) in bs
    {
      AllBindingsFrom(r.conditions, body, (r.conditions[i].args[k].n, body[i].args[k]));
    }
    forall n | 0 <= n < |r.effect.args| && r.effect.args[n].Slot? ensures HeadArgs(r, body)[n].Const? {
      assert BoundBy(r.conditions, n);
      var i :| 0 <= i < |body| && Slot(n) in r.conditions[i].args;
      var k :| 0 <= k < |r.conditions[i].args| && r.conditions[i].args[k] == Slot(n);
    }
  }

  ghost function Head(r: Rule, body: seq<Atom>): Atom
    requires Numbered(r) && Safe(r) && |body| == |r.conditions| && Compatible(r.conditions, body)
  {
    HeadArgsSpec(r, body);
    Atom(r.effect.pred, Names(HeadArgs(r, body)))
  }

  /** A substitution derivation is a compatible choice of atoms with exactly this head. */
  lemma {:induction false} DerivationIsChoice(r: Rule, M: iset<Atom>, body: seq<Atom>, s: Substitution, h: Atom)
    requires Numbered(r) && Safe(r) && Derives(r, M, body, s, h)
    ensures Compatible(r.conditions, body) && Head(r, body) == h
  {
    forall i, j, k, l | 0 <= i < |body| && 0 <= j < |body| && 0 <= k < |r.conditions[i].args|
        && 0 <= l < |r.conditions[j].args| && r.conditions[i].args[k].Slot? && r.conditions[i].args[k] == r.conditions[j].args[l]
      ensures body[i].args[k] == body[j].args[l]
    {
      assert TermMatches(r.conditions[i].args[k], body[i].args[k], s);
      assert TermMatches(r.conditions[j].args[l], body[j].args[l], s);
    }
    forall i | 0 <= i < |body| ensures Unifies(r.conditions[i], body[i]) {
      forall k | 0 <= k < |r.conditions[i].args| && r.conditions[i].args[k].Const?
        ensures body[i].args[k] == r.conditions[i].args[k].name
      {
        assert TermMatches(r.conditions[i].args[k], body[i].args[k], s);
      }
    }
    HeadArgsSpec(r, body);
    forall n | 0 <= n < |h.args| ensures HeadArgs(r, body)[n].name == h.args[n] {
      assert TermMatches(r.effect.args[n], h.args[n], s);
      if r.effect.args[n].Slot? {
        assert BoundBy(r.conditions, n);
        var i :| 0 <= i < |body| && Slot(n) in r.conditions[i].args;
        var k :| 0 <= k < |r.conditions[i].args| && r.conditions[i].args[k] == Slot(n);
        assert TermMatches(r.conditions[i].args[k], body[i].args[k], s);
      }
    }
    assert Names(HeadArgs(r, body)) == h.args;
  }

  /** The objects of an atom that stand at projected-away variables. */
  ghost function FreeValues(p: Pattern, a: Atom): (m: map<string, string>)
    requires |p.args| == |a.args| && NoRepeatedVariable(p)
    ensures forall i :: 0 <= i < |p.args| && p.args[i].Free? ==> p.args[i].name in m && m[p.args[i].name] == a.args[i]
    decreases |p.args|
  {
    if p.args == [] then map[]
    else
      var p' := Pattern(p.pred, p.args[1..]);
      assert forall i, j :: 0 <= i < j < |p'.args| ==> p'.args[i] == p.args[i + 1] && p'.args[j] == p.args[j + 1];
      var m := FreeValues(p', Atom(a.pred, a.args[1..]));
      assert forall i :: 1 <= i < |p.args| && p.args[i].Free? ==> p'.args[i - 1] == p.args[i];
      if p.args[0].Free? then m[p.args[0].name := a.args[0]] else m
  }

  /** Conversely, a compatible choice of atoms is a derivation of its head. */
  lemma {:induction false} ChoiceIsDerivation(r: Rule, M: iset<Atom>, body: seq<Atom>) returns (s: Substitution)
    requires Numbered(r) && Safe(r) && ValidShape(r) && |body| == |r.conditions| && Compatible(r.conditions, body)
    requires forall i :: 0 <= i < |body| ==> body[i] in M
    ensures Derives(r, M, body, s, Head(r, body))
  {
    HeadArgsSpec(r, body);
    var free := if r.kind.Project? then FreeValues(r.conditions[0], body[0]) else map[];
    s := Substitution(Head(r, body).args, free);
    forall i | 0 <= i < |body| ensures Matches(r.conditions[i], body[i], s) {
      forall k | 0 <= k < |r.conditions[i].args| ensures TermMatches(r.conditions[i].args[k], body[i].args[k], s) {
        match r.conditions[i].args[k]
        case Const(c) =>
        case Slot(n) =>
        case Free(x) => assert r.kind.Project? && i == 0;
      }
    }
    assert Matches(r.effect, Head(r, body), s);
  }
}
