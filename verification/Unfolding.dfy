/** Symbolic rules and what a list of them derives, one after another, from given atoms. */
module Unfolding {

  /** An argument that starts with "?" is a variable; any other is an object. */
  datatype Symbol = Var(name: string) | Obj(name: string)

  datatype Atom = Atom(predicate_: string, args: seq<Symbol>)

  datatype Ground = Ground(predicate_: string, args: seq<string>)

  datatype Kind = Join | Project

  datatype Rule = Rule(kind: Kind, conditions: seq<Atom>, effect: Atom)

  type Substitution = string -> string

  function ValueOf(s: Substitution, x: Symbol): string {
    match x
    case Var(v) => s(v)
    case Obj(o) => o
  }

  function Instance(s: Substitution, a: Atom): Ground {
    Ground(a.predicate_, seq(|a.args|, i requires 0 <= i < |a.args| => ValueOf(s, a.args[i])))
  }

  function ArgsOf(a: Atom): set<Symbol> {
    set x | x in a.args
  }

  ghost predicate AllIn(s: Substitution, conditions: seq<Atom>, M: iset<Ground>) {
    forall a :: a in conditions ==> Instance(s, a) in M
  }

  ghost predicate Derives(s: Substitution, conditions: seq<Atom>, effect: Atom, M: iset<Ground>, g: Ground) {
    AllIn(s, conditions, M) && g == Instance(s, effect)
  }

  ghost predicate Derivable(conditions: seq<Atom>, effect: Atom, M: iset<Ground>, g: Ground) {
    exists s: Substitution :: Derives(s, conditions, effect, M, g)
  }

  /** What one application of a rule yields. */
  ghost function Tuples(conditions: seq<Atom>, effect: Atom, M: iset<Ground>): iset<Ground> {
    iset g | Derivable(conditions, effect, M, g)
  }

  /** The atoms that are there after applying the rules in order. */
  ghost function Unfold(M: iset<Ground>, rules: seq<Rule>): iset<Ground> {
    if rules == [] then M
    else
      var front, r := Unfold(M, rules[..|rules| - 1]), rules[|rules| - 1];
      front + Tuples(r.conditions, r.effect, front)
  }

  lemma {:induction false} UnfoldSnoc(M: iset<Ground>, rules: seq<Rule>, r: Rule)
    ensures Unfold(M, rules + [r]) == Unfold(M, rules) + Tuples(r.conditions, r.effect, Unfold(M, rules))
  {
    assert (rules + [r])[..|rules|] == rules;
  }

  // ---------- Substitutions that agree ----------

  ghost predicate Agree(s: Substitution, t: Substitution, on: set<Symbol>) {
    forall x :: x in on ==> ValueOf(s, x) == ValueOf(t, x)
  }

  lemma {:induction false} SameInstance(s: Substitution, t: Substitution, a: Atom)
    ensures Instance(s, a) == Instance(t, a) <==> Agree(s, t, ArgsOf(a))
  {
    if Instance(s, a) == Instance(t, a) {
      forall x | x in ArgsOf(a) ensures ValueOf(s, x) == ValueOf(t, x) {
        var i :| 0 <= i < |a.args| && a.args[i] == x;
        assert Instance(s, a).args[i] == Instance(t, a).args[i];
      }
    }
    if Agree(s, t, ArgsOf(a)) {
      forall i | 0 <= i < |a.args| ensures Instance(s, a).args[i] == Instance(t, a).args[i] {
        assert a.args[i] in ArgsOf(a);
      }
    }
  }

  /** s on the given symbols and t elsewhere. */
  ghost function Override(t: Substitution, s: Substitution, on: set<Symbol>): Substitution {
    (v: string) => if Var(v) in on then s(v) else t(v)
  }

  lemma {:induction false} OverrideAgrees(t: Substitution, s: Substitution, on: set<Symbol>, kept: set<Symbol>)
    ensures Agree(Override(t, s, on), s, on)
    ensures Agree(s, t, on * kept) ==> Agree(Override(t, s, on), t, kept)
  {
    forall x | x in kept && Agree(s, t, on * kept) ensures ValueOf(Override(t, s, on), x) == ValueOf(t, x) {
      if x in on {
        assert x in on * kept;
      }
    }
  }

  // ---------- Replacing an atom by a projection ----------

  /** In M', the atom a' means: a holds in M for some values of what a' does not keep. */
  ghost predicate Keeps(M': iset<Ground>, a': Atom, M: iset<Ground>, a: Atom, keep: set<Symbol>) {
    && ArgsOf(a') == keep
    && forall s: Substitution :: Instance(s, a') in M' <==> exists t: Substitution :: Agree(t, s, keep) && Instance(t, a) in M
  }

  lemma {:induction false} KeepsItself(M: iset<Ground>, a: Atom)
    ensures Keeps(M, a, M, a, ArgsOf(a))
  {
    forall s: Substitution
      ensures Instance(s, a) in M <==> exists t: Substitution :: Agree(t, s, ArgsOf(a)) && Instance(t, a) in M
    {
      if Instance(s, a) in M {
        assert Agree(s, s, ArgsOf(a));
      }
      if t: Substitution :| Agree(t, s, ArgsOf(a)) && Instance(t, a) in M {
        SameInstance(t, s, a);
      }
    }
  }

  ghost predicate Unused(p: string, M: iset<Ground>) {
    forall g :: g in M ==> g.predicate_ != p
  }

  /** A rule with a new head predicate changes no other atoms. */
  lemma {:induction false} OthersUnchanged(conditions: seq<Atom>, effect: Atom, M: iset<Ground>, s: Substitution, a: Atom)
    requires a.predicate_ != effect.predicate_
    ensures Instance(s, a) in M + Tuples(conditions, effect, M) <==> Instance(s, a) in M
  {
  }

  lemma {:induction false} NewAtom(conditions: seq<Atom>, effect: Atom, M: iset<Ground>, s: Substitution)
    requires Unused(effect.predicate_, M)
    ensures Instance(s, effect) in M + Tuples(conditions, effect, M) <==>
      exists t: Substitution :: Agree(t, s, ArgsOf(effect)) && AllIn(t, conditions, M)
  {
    var g := Instance(s, effect);
    if g in Tuples(conditions, effect, M) {
      var t: Substitution :| Derives(t, conditions, effect, M, g);
      SameInstance(t, s, effect);
      assert Agree(t, s, ArgsOf(effect)) && AllIn(t, conditions, M);
    }
    if t: Substitution :| Agree(t, s, ArgsOf(effect)) && AllIn(t, conditions, M) {
      SameInstance(t, s, effect);
      assert Derives(t, conditions, effect, M, g);
    }
  }

  lemma {:induction false} ProjectionKeeps(a: Atom, a': Atom, M: iset<Ground>)
    requires Unused(a'.predicate_, M)
    ensures Keeps(M + Tuples([a], a', M), a', M, a, ArgsOf(a'))
  {
    forall s: Substitution
      ensures Instance(s, a') in M + Tuples([a], a', M) <==>
        exists t: Substitution :: Agree(t, s, ArgsOf(a')) && Instance(t, a) in M
    {
      NewAtom([a], a', M, s);
      if t: Substitution :| Agree(t, s, ArgsOf(a')) && AllIn(t, [a], M) {
        assert a in [a];
        assert Agree(t, s, ArgsOf(a')) && Instance(t, a) in M;
      }
      if t: Substitution :| Agree(t, s, ArgsOf(a')) && Instance(t, a) in M {
        assert Agree(t, s, ArgsOf(a')) && AllIn(t, [a], M);
      }
    }
  }

  // ---------- Joining two atoms ----------

  /** What a join keeps must include what the two atoms share and what is needed elsewhere. */
  ghost predicate KeepsEnough(a: Atom, keepA: set<Symbol>, b: Atom, keepB: set<Symbol>, needed: set<Symbol>) {
    && keepA <= ArgsOf(a) && keepB <= ArgsOf(b)
    && ArgsOf(a) * ArgsOf(b) <= keepA && ArgsOf(a) * ArgsOf(b) <= keepB
    && needed <= ArgsOf(a) + ArgsOf(b) && needed * ArgsOf(a) <= keepA && needed * ArgsOf(b) <= keepB
  }

  /** Values for the two atoms that agree with one substitution on what is kept agree with each other. */
  lemma {:induction false} Combine(M: iset<Ground>, a: Atom, keepA: set<Symbol>, b: Atom, keepB: set<Symbol>, needed: set<Symbol>,
                                   t: Substitution, ta: Substitution, tb: Substitution) returns (r: Substitution)
    requires KeepsEnough(a, keepA, b, keepB, needed)
    requires Agree(ta, t, keepA) && Instance(ta, a) in M && Agree(tb, t, keepB) && Instance(tb, b) in M
    ensures Agree(r, t, needed) && Instance(r, a) in M && Instance(r, b) in M
  {
    r := Override(tb, ta, ArgsOf(a));
    OverrideAgrees(tb, ta, ArgsOf(a), ArgsOf(b));
    SameInstance(r, ta, a);
    SameInstance(r, tb, b);
  }

  lemma {:induction false} JoinMeans(M: iset<Ground>, a: Atom, keepA: set<Symbol>, b: Atom, keepB: set<Symbol>,
                                     M2: iset<Ground>, a': Atom, b': Atom, c: Atom, s: Substitution)
    requires Keeps(M2, a', M, a, keepA) && Keeps(M2, b', M, b, keepB) && KeepsEnough(a, keepA, b, keepB, ArgsOf(c))
    requires Unused(c.predicate_, M2)
    ensures Instance(s, c) in M2 + Tuples([a', b'], c, M2) <==>
      exists r: Substitution :: Agree(r, s, ArgsOf(c)) && Instance(r, a) in M && Instance(r, b) in M
  {
    NewAtom([a', b'], c, M2, s);
    hide Tuples, KeepsEnough, Unused, ArgsOf, Instance;
    if t: Substitution :| Agree(t, s, ArgsOf(c)) && AllIn(t, [a', b'], M2) {
      assert a' in [a', b'] && b' in [a', b'];
      assert Instance(t, a') in M2 && Instance(t, b') in M2;
      var ta: Substitution :| Agree(ta, t, keepA) && Instance(ta, a) in M;
      var tb: Substitution :| Agree(tb, t, keepB) && Instance(tb, b) in M;
      var r := Combine(M, a, keepA, b, keepB, ArgsOf(c), t, ta, tb);
      assert Agree(r, s, ArgsOf(c));
    }
    if r: Substitution :| Agree(r, s, ArgsOf(c)) && Instance(r, a) in M && Instance(r, b) in M {
      assert Agree(r, r, keepA) && Agree(r, r, keepB);
      assert AllIn(r, [a', b'], M2);
    }
  }

  ghost predicate SplitOff(joinees: seq<Atom>, rest: seq<Atom>, a: Atom, b: Atom) {
    forall d :: d in joinees <==> d in rest || d == a || d == b
  }

  /** Every variable of the two atoms that occurs elsewhere is an argument of the join. */
  ghost predicate KeepsNeeded(elsewhere: seq<Atom>, a: Atom, b: Atom, c: Atom) {
    forall x: Symbol, d :: d in elsewhere && x in ArgsOf(d) && x.Var? && x in ArgsOf(a) + ArgsOf(b) ==> x in ArgsOf(c)
  }

  ghost predicate Unaffected(M2: iset<Ground>, M: iset<Ground>, rest: seq<Atom>, c: Atom) {
    && (forall d :: d in rest ==> d.predicate_ != c.predicate_)
    && (forall s: Substitution, d {:trigger Instance(s, d)} :: d in rest ==> (Instance(s, d) in M2 <==> Instance(s, d) in M))
  }

  lemma {:induction false} Forward(M: iset<Ground>, joinees: seq<Atom>, rest: seq<Atom>, a: Atom, b: Atom, keepA: set<Symbol>,
                                   keepB: set<Symbol>, M2: iset<Ground>, a': Atom, b': Atom, c: Atom, s: Substitution)
    requires SplitOff(joinees, rest, a, b) && Unused(c.predicate_, M2) && Unaffected(M2, M, rest, c)
    requires Keeps(M2, a', M, a, keepA) && Keeps(M2, b', M, b, keepB) && KeepsEnough(a, keepA, b, keepB, ArgsOf(c))
    requires AllIn(s, joinees, M)
    ensures AllIn(s, rest + [c], M2 + Tuples([a', b'], c, M2))
  {
    JoinMeans(M, a, keepA, b, keepB, M2, a', b', c, s);
    assert Agree(s, s, ArgsOf(c)) && Instance(s, a) in M && Instance(s, b) in M;
    forall d | d in rest + [c] ensures Instance(s, d) in M2 + Tuples([a', b'], c, M2) {
      if d != c {
        assert d in joinees && d in rest;
      }
    }
  }

  lemma {:induction false} Backward(M: iset<Ground>, joinees: seq<Atom>, rest: seq<Atom>, a: Atom, b: Atom, keepA: set<Symbol>,
                                    keepB: set<Symbol>, M2: iset<Ground>, a': Atom, b': Atom, c: Atom, head: Atom, s: Substitution)
    returns (s': Substitution)
    requires SplitOff(joinees, rest, a, b) && Unused(c.predicate_, M2) && Unaffected(M2, M, rest, c)
    requires Keeps(M2, a', M, a, keepA) && Keeps(M2, b', M, b, keepB) && KeepsEnough(a, keepA, b, keepB, ArgsOf(c))
    requires KeepsNeeded([head] + rest, a, b, c)
    requires AllIn(s, rest + [c], M2 + Tuples([a', b'], c, M2))
    ensures AllIn(s', joinees, M) && Instance(s', head) == Instance(s, head)
  {
    var M3 := M2 + Tuples([a', b'], c, M2);
    assert c in rest + [c] && Instance(s, c) in M3;
    JoinMeans(M, a, keepA, b, keepB, M2, a', b', c, s);
    var r: Substitution :| Agree(r, s, ArgsOf(c)) && Instance(r, a) in M && Instance(r, b) in M;
    var on := ArgsOf(a) + ArgsOf(b);
    s' := Override(s, r, on);
    OverrideAgrees(s, r, on, {});
    SameInstance(s', r, a);
    SameInstance(s', r, b);
    forall d | d in [head] + rest ensures Instance(s', d) == Instance(s, d) {
      forall x | x in on * ArgsOf(d) ensures ValueOf(r, x) == ValueOf(s, x) {
        if x.Var? {
          assert x in ArgsOf(c);
        }
      }
      OverrideAgrees(s, r, on, ArgsOf(d));
      SameInstance(s', s, d);
    }
    assert head in [head] + rest;
    forall d | d in joinees ensures Instance(s', d) in M {
      if d in rest {
        assert d in [head] + rest && d in rest + [c];
        OthersUnchanged([a', b'], c, M2, s, d);
      }
    }
  }

  /** Replacing two conditions by their join leaves the derived head tuples as they are. */
  lemma {:induction false} JoinStep(M: iset<Ground>, joinees: seq<Atom>, rest: seq<Atom>, a: Atom, b: Atom, keepA: set<Symbol>,
                                    keepB: set<Symbol>, M2: iset<Ground>, a': Atom, b': Atom, c: Atom, head: Atom)
    requires SplitOff(joinees, rest, a, b) && Unused(c.predicate_, M2) && Unaffected(M2, M, rest, c)
    requires Keeps(M2, a', M, a, keepA) && Keeps(M2, b', M, b, keepB) && KeepsEnough(a, keepA, b, keepB, ArgsOf(c))
    requires KeepsNeeded([head] + rest, a, b, c)
    ensures Tuples(rest + [c], head, M2 + Tuples([a', b'], c, M2)) == Tuples(joinees, head, M)
  {
    var M3 := M2 + Tuples([a', b'], c, M2);
    hide Keeps, KeepsEnough, KeepsNeeded, Unaffected, Unused, SplitOff, AllIn;
    forall g | g in Tuples(joinees, head, M) ensures g in Tuples(rest + [c], head, M3) {
      var s: Substitution :| Derives(s, joinees, head, M, g);
      Forward(M, joinees, rest, a, b, keepA, keepB, M2, a', b', c, s);
      assert Derives(s, rest + [c], head, M3, g);
    }
    forall g | g in Tuples(rest + [c], head, M3) ensures g in Tuples(joinees, head, M) {
      var s: Substitution :| Derives(s, rest + [c], head, M3, g);
      var s' := Backward(M, joinees, rest, a, b, keepA, keepB, M2, a', b', c, head, s);
      assert Derives(s', joinees, head, M, g);
    }
  }

  /** The last join may get the head of the original rule for its own. */
  lemma {:induction false} LastJoin(M: iset<Ground>, a: Atom, keepA: set<Symbol>, b: Atom, keepB: set<Symbol>,
                                    M2: iset<Ground>, a': Atom, b': Atom, c: Atom, head: Atom)
    requires Keeps(M2, a', M, a, keepA) && Keeps(M2, b', M, b, keepB) && KeepsEnough(a, keepA, b, keepB, ArgsOf(c))
    requires Unused(c.predicate_, M2) && KeepsNeeded([head], a, b, c)
    ensures Tuples([a', b'], head, M2) == Tuples([c], head, M2 + Tuples([a', b'], c, M2))
  {
    var M3 := M2 + Tuples([a', b'], c, M2);
    var on := ArgsOf(a') + ArgsOf(b');
    forall g | g in Tuples([a', b'], head, M2) ensures g in Tuples([c], head, M3) {
      var s: Substitution :| Derives(s, [a', b'], head, M2, g);
      NewAtom([a', b'], c, M2, s);
      assert Agree(s, s, ArgsOf(c));
      assert Derives(s, [c], head, M3, g);
    }
    forall g | g in Tuples([c], head, M3) ensures g in Tuples([a', b'], head, M2) {
      var s: Substitution :| Derives(s, [c], head, M3, g);
      assert c in [c];
      NewAtom([a', b'], c, M2, s);
      var t: Substitution :| Agree(t, s, ArgsOf(c)) && AllIn(t, [a', b'], M2);
      var s' := Override(s, t, on);
      forall x | x in on * ArgsOf(head) ensures ValueOf(t, x) == ValueOf(s, x) {
        assert head in [head];
        if x.Var? {
          assert x in ArgsOf(c);
        }
      }
      OverrideAgrees(s, t, on, ArgsOf(head));
      SameInstance(s', s, head);
      SameInstance(s', t, a');
      SameInstance(s', t, b');
      assert a' in [a', b'] && b' in [a', b'];
      assert AllIn(s', [a', b'], M2);
      assert Derives(s', [a', b'], head, M2, g);
    }
  }
}
