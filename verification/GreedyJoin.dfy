/** Splitting a rule into binary joins and projections (src/translate/greedy_join.py). */
module GreedyJoin {
  import opened Unfolding

  // ---------- Costs ----------

  type Cost = (int, int, int)

  predicate Less(a: Cost, b: Cost) {
    a.0 < b.0 || (a.0 == b.0 && (a.1 < b.1 || (a.1 == b.1 && a.2 < b.2)))
  }

  function VariablesOf(a: Atom): set<Symbol> {
    set x | x in a.args && x.Var?
  }

  function JoinCost(a: Atom, b: Atom): Cost {
    var (l, r) := if |VariablesOf(a)| > |VariablesOf(b)| then (VariablesOf(b), VariablesOf(a)) else (VariablesOf(a), VariablesOf(b));
    var common := |l * r|;
    (|l| - common, |r| - common, -common)
  }

  lemma {:induction false} PrivatePart(l: set<Symbol>, r: set<Symbol>)
    ensures |l - r| == |l| - |l * r| && |r - l| == |r| - |l * r| && l * r == r * l
  {
    assert l == (l - r) + l * r && (l - r) * (l * r) == {} && r == (r - l) + l * r && (r - l) * (l * r) == {};
  }

  /** The fewest and the most variables that one atom has alone, then the common ones, where more are better. */
  lemma {:induction false} CostMeans(a: Atom, b: Atom)
    ensures var A, B := set x | x in a.args && x.Var?, set x | x in b.args && x.Var?;
      JoinCost(a, b) == if |A - B| <= |B - A| then (|A - B|, |B - A|, -|A * B|) else (|B - A|, |A - B|, -|A * B|)
  {
    var A, B := set x | x in a.args && x.Var?, set x | x in b.args && x.Var?;
    assert VariablesOf(a) == A && VariablesOf(b) == B;
    PrivatePart(A, B);
  }

  /** Costs are compared as tuples: by the first component in which they differ. */
  lemma {:induction false} LessMeans(a: Cost, b: Cost)
    ensures Less(a, b) <==> exists k :: 0 <= k < 3 && Component(a, k) < Component(b, k) && forall j :: 0 <= j < k ==> Component(a, j) == Component(b, j)
  {
    assert Component(a, 0) == a.0 && Component(a, 1) == a.1 && Component(a, 2) == a.2;
  }

  function Component(c: Cost, k: nat): int {
    if k == 0 then c.0 else if k == 1 then c.1 else c.2
  }

  function Without<T>(s: seq<T>, i: nat): (r: seq<T>)
    requires i < |s|
    ensures |r| == |s| - 1
  {
    s[..i] + s[i + 1..]
  }

  lemma {:induction false} WithoutAt<T>(s: seq<T>, i: nat, k: nat)
    requires i < |s| && k < |s| - 1
    ensures Without(s, i)[k] == if k < i then s[k] else s[k + 1]
  {
  }

  /** The lower triangle of the table of pairwise costs. */
  ghost predicate IsCostMatrix(joinees: seq<Atom>, matrix: seq<seq<Cost>>) {
    && |matrix| == |joinees| && (forall i :: 0 <= i < |matrix| ==> |matrix[i]| == i)
    && (forall i, j :: 0 <= j < i < |matrix| ==> matrix[i][j] == JoinCost(joinees[i], joinees[j]))
  }

  /** Dropping a column from the later rows, and then the row, leaves the table of the remaining joinees. */
  lemma {:induction false} DeletedMatrix(joinees: seq<Atom>, matrix: seq<seq<Cost>>, index: nat, matrix': seq<seq<Cost>>)
    requires IsCostMatrix(joinees, matrix) && index < |joinees| && |matrix'| == |matrix|
    requires forall i :: 0 <= i < |matrix| ==> matrix'[i] == if index < i then Without(matrix[i], index) else matrix[i]
    ensures IsCostMatrix(Without(joinees, index), Without(matrix', index))
  {
    hide JoinCost;
    var js, m := Without(joinees, index), Without(matrix', index);
    forall i | 0 <= i < |m| ensures |m[i]| == i && forall j :: 0 <= j < i ==> m[i][j] == JoinCost(js[i], js[j]) {
      forall j | 0 <= j < i ensures |m[i]| == i && m[i][j] == JoinCost(js[i], js[j]) {
        if index <= i {
          assert m[i] == Without(matrix[i + 1], index);
          WithoutAt(matrix[i + 1], index, j);
        }
      }
    }
  }

  class CostMatrix {
    var joinees: seq<Atom>
    var costMatrix: seq<seq<Cost>>

    ghost predicate Valid()
      reads this
    {
      IsCostMatrix(joinees, costMatrix)
    }

    constructor (conditions: seq<Atom>)
      ensures Valid() && joinees == conditions
    {
      joinees, costMatrix := [], [];
      new;
      for i := 0 to |conditions|
        invariant Valid() && joinees == conditions[..i]
      {
        AddEntry(conditions[i]);
      }
    }

    method AddEntry(joinee: Atom)
      requires Valid()
      modifies this
      ensures Valid() && joinees == old(joinees) + [joinee]
    {
      hide JoinCost;
      var newRow: seq<Cost> := [];
      while |newRow| < |joinees|
        invariant |newRow| <= |joinees|
        invariant forall j :: 0 <= j < |newRow| ==> newRow[j] == JoinCost(joinee, joinees[j])
      {
        newRow := newRow + [JoinCost(joinee, joinees[|newRow|])];
      }
      costMatrix := costMatrix + [newRow];
      joinees := joinees + [joinee];
    }

    method DeleteEntry(index: nat)
      requires Valid() && index < |joinees|
      modifies this
      ensures Valid() && joinees == Without(old(joinees), index)
    {
      hide JoinCost, Without;
      ghost var matrix := costMatrix;
      for r := index + 1 to |costMatrix|
        invariant joinees == old(joinees) && |costMatrix| == |matrix|
        invariant forall i :: 0 <= i < |matrix| ==> costMatrix[i] == if index < i < r then Without(matrix[i], index) else matrix[i]
      {
        costMatrix := costMatrix[r := Without(costMatrix[r], index)];
      }
      DeletedMatrix(joinees, matrix, index, costMatrix);
      costMatrix := Without(costMatrix, index);
      joinees := Without(joinees, index);
    }

    /** The first pair of least cost, row by row. */
    method FindMinPair() returns (leftIndex: nat, rightIndex: nat)
      requires Valid() && |joinees| >= 2
      ensures rightIndex < leftIndex < |joinees|
      ensures forall i, j :: 0 <= j < i < |joinees| ==>
        !Less(JoinCost(joinees[i], joinees[j]), JoinCost(joinees[leftIndex], joinees[rightIndex]))
      ensures forall i, j :: 0 <= j < i < |joinees| && (i < leftIndex || (i == leftIndex && j < rightIndex)) ==>
        Less(JoinCost(joinees[leftIndex], joinees[rightIndex]), JoinCost(joinees[i], joinees[j]))
    {
      hide JoinCost;
      leftIndex, rightIndex := 1, 0;
      var minCost := costMatrix[1][0];
      for i := 0 to |costMatrix|
        invariant rightIndex < leftIndex < |joinees| && minCost == costMatrix[leftIndex][rightIndex]
        invariant forall k, j :: 0 <= j < k < i ==> !Less(costMatrix[k][j], minCost)
        invariant leftIndex < i || (leftIndex == 1 && rightIndex == 0 && i <= 1)
        invariant forall k, j :: 0 <= j < k && (k < leftIndex || (k == leftIndex && j < rightIndex)) ==> Less(minCost, costMatrix[k][j])
      {
        for j := 0 to |costMatrix[i]|
          invariant rightIndex < leftIndex < |joinees| && minCost == costMatrix[leftIndex][rightIndex]
          invariant forall k, l :: 0 <= l < k < i ==> !Less(costMatrix[k][l], minCost)
          invariant forall l :: 0 <= l < j ==> !Less(costMatrix[i][l], minCost)
          invariant leftIndex < i || (leftIndex == i && rightIndex < j) || (leftIndex == 1 && rightIndex == 0 && i <= 1)
          invariant forall k, l :: 0 <= l < k && (k < leftIndex || (k == leftIndex && l < rightIndex)) ==> Less(minCost, costMatrix[k][l])
        {
          if Less(costMatrix[i][j], minCost) {
            minCost := costMatrix[i][j];
            leftIndex, rightIndex := i, j;
          }
        }
      }
    }

    method RemoveMinPair() returns (left: Atom, right: Atom, ghost l: nat, ghost r: nat)
      requires Valid() && |joinees| >= 2
      modifies this
      ensures Valid() && r < l < |old(joinees)| && left == old(joinees)[l] && right == old(joinees)[r]
      ensures joinees == Without(Without(old(joinees), l), r)
      ensures forall i, j :: 0 <= j < i < |old(joinees)| && (i < l || (i == l && j < r)) ==>
        Less(JoinCost(left, right), JoinCost(old(joinees)[i], old(joinees)[j]))
      ensures forall i, j :: 0 <= j < i < |old(joinees)| ==> !Less(JoinCost(old(joinees)[i], old(joinees)[j]), JoinCost(left, right))
    {
      hide JoinCost, IsCostMatrix;
      var leftIndex, rightIndex := FindMinPair();
      l, r := leftIndex, rightIndex;
      left, right := joinees[leftIndex], joinees[rightIndex];
      DeleteEntry(leftIndex);
      DeleteEntry(rightIndex);
    }
  }

  // ---------- Occurrences ----------

  ghost function AllArgs(atoms: seq<Atom>): multiset<Symbol> {
    if atoms == [] then multiset{} else multiset(atoms[0].args) + AllArgs(atoms[1..])
  }

  lemma {:induction false} AllArgsWithout(atoms: seq<Atom>, i: nat)
    requires i < |atoms|
    ensures AllArgs(atoms) == AllArgs(Without(atoms, i)) + multiset(atoms[i].args)
  {
    var rest := Without(atoms, i);
    if i == 0 {
      assert rest == atoms[1..];
    } else {
      AllArgsWithout(atoms[1..], i - 1);
      assert rest[0] == atoms[0] && rest[1..] == Without(atoms[1..], i - 1);
      hide Without;
      assert AllArgs(rest) == multiset(atoms[0].args) + AllArgs(rest[1..]);
    }
  }

  lemma {:induction false} AllArgsSnoc(atoms: seq<Atom>, a: Atom)
    ensures AllArgs(atoms + [a]) == AllArgs(atoms) + multiset(a.args)
  {
    if atoms == [] {
      assert atoms + [a] == [a];
    } else {
      assert (atoms + [a])[1..] == atoms[1..] + [a];
      AllArgsSnoc(atoms[1..], a);
    }
  }

  lemma {:induction false} AllArgsMember(atoms: seq<Atom>, x: Symbol)
    ensures x in AllArgs(atoms) <==> exists d :: d in atoms && x in ArgsOf(d)
  {
    if atoms != [] {
      AllArgsMember(atoms[1..], x);
      assert atoms[0] in atoms;
      if d :| d in atoms[1..] && x in ArgsOf(d) {
        assert d in atoms;
      }
      if d :| d in atoms && x in ArgsOf(d) {
        assert d == atoms[0] || d in atoms[1..];
      }
    }
  }

  /** The table counts exactly the variables, and lists none with count zero. */
  ghost predicate Tracks(occurrences: map<Symbol, int>, args: multiset<Symbol>) {
    && (forall x :: x in occurrences <==> x.Var? && x in args)
    && (forall x :: x in occurrences ==> occurrences[x] == args[x])
  }

  class OccurrencesTracker {
    var occurrences: map<Symbol, int>

    constructor (rule: Rule)
      ensures Tracks(occurrences, multiset(rule.effect.args) + AllArgs(rule.conditions))
    {
      occurrences := map[];
      new;
      Update(rule.effect, 1, multiset{});
      assert multiset{} + multiset(rule.effect.args) == multiset(rule.effect.args);
      for i := 0 to |rule.conditions|
        invariant Tracks(occurrences, multiset(rule.effect.args) + AllArgs(rule.conditions[..i]))
      {
        assert rule.conditions[..i + 1] == rule.conditions[..i] + [rule.conditions[i]];
        AllArgsSnoc(rule.conditions[..i], rule.conditions[i]);
        ghost var before := multiset(rule.effect.args) + AllArgs(rule.conditions[..i]);
        Update(rule.conditions[i], 1, before);
        assert before + multiset(rule.conditions[i].args) == multiset(rule.effect.args) + AllArgs(rule.conditions[..i + 1]);
      }
      assert rule.conditions[..|rule.conditions|] == rule.conditions;
    }

    method Update(symatom: Atom, delta: int, ghost args: multiset<Symbol>)
      requires Tracks(occurrences, args) && (delta == 1 || (delta == -1 && multiset(symatom.args) <= args))
      modifies this
      ensures Tracks(occurrences, if delta == 1 then args + multiset(symatom.args) else args - multiset(symatom.args))
    {
      hide Tracks;
      assert symatom.args[..0] == [];
      assert args + multiset{} == args && args - multiset{} == args;
      for i := 0 to |symatom.args|
        invariant Tracks(occurrences, if delta == 1 then args + multiset(symatom.args[..i]) else args - multiset(symatom.args[..i]))
      {
        var x := symatom.args[i];
        PrefixCounts(symatom.args, i, args);
        UpdateOne(x, delta, if delta == 1 then args + multiset(symatom.args[..i]) else args - multiset(symatom.args[..i]));
      }
      assert symatom.args[..|symatom.args|] == symatom.args;
    }

    lemma {:induction false} PrefixCounts(s: seq<Symbol>, i: nat, args: multiset<Symbol>)
      requires i < |s|
      ensures args + multiset(s[..i + 1]) == args + multiset(s[..i]) + multiset{s[i]}
      ensures args - multiset(s[..i + 1]) == args - multiset(s[..i]) - multiset{s[i]}
      ensures multiset(s) <= args ==> s[i] in args - multiset(s[..i])
    {
      assert s[..i + 1] == s[..i] + [s[i]];
      assert s == s[..i] + [s[i]] + s[i + 1..];
    }

    method UpdateOne(x: Symbol, delta: int, ghost args: multiset<Symbol>)
      requires Tracks(occurrences, args) && (delta == 1 || (delta == -1 && x in args))
      modifies this
      ensures Tracks(occurrences, if delta == 1 then args + multiset{x} else args - multiset{x})
    {
      if x.Var? {
        if x !in occurrences {
          occurrences := occurrences[x := 0];
        }
        occurrences := occurrences[x := occurrences[x] + delta];
        assert occurrences[x] >= 0;
        if occurrences[x] == 0 {
          occurrences := occurrences - {x};
        }
      }
    }

    method Variables(ghost args: multiset<Symbol>) returns (vars: set<Symbol>)
      requires Tracks(occurrences, args)
      ensures forall x :: x in vars <==> x.Var? && x in args
    {
      vars := occurrences.Keys;
    }
  }

  // ---------- New rules ----------

  /** Predicate names from the counter on have not been handed out. */
  ghost predicate FreshNames(names: nat -> string) {
    forall i, j :: i != j ==> names(i) != names(j)
  }

  ghost predicate Reserved(names: nat -> string, from: nat, p: string) {
    exists k :: from <= k && p == names(k)
  }

  ghost predicate Avoids(M: iset<Ground>, names: nat -> string, from: nat) {
    forall g :: g in M ==> !Reserved(names, from, g.predicate_)
  }

  ghost predicate AtomsAvoid(atoms: seq<Atom>, names: nat -> string, from: nat) {
    forall d :: d in atoms ==> !Reserved(names, from, d.predicate_)
  }

  /** The rules derive new predicates with names between two counter values. */
  ghost predicate Defines(rules: seq<Rule>, names: nat -> string, from: nat, to: nat) {
    forall r :: r in rules ==> exists k :: from <= k < to && r.effect.predicate_ == names(k)
  }

  lemma {:induction false} UnfoldAvoids(M: iset<Ground>, rules: seq<Rule>, names: nat -> string, from: nat, to: nat)
    requires FreshNames(names) && Avoids(M, names, from) && Defines(rules, names, from, to) && from <= to
    ensures Avoids(Unfold(M, rules), names, to)
  {
    if rules == [] {
      forall g | g in M ensures !Reserved(names, to, g.predicate_) {
        assert !Reserved(names, from, g.predicate_);
      }
    } else {
      var front, r := rules[..|rules| - 1], rules[|rules| - 1];
      assert rules == front + [r];
      assert forall q :: q in front ==> q in rules;
      UnfoldAvoids(M, front, names, from, to);
      UnfoldSnoc(M, front, r);
      assert r in rules;
      forall g | g in Tuples(r.conditions, r.effect, Unfold(M, front)) ensures !Reserved(names, to, g.predicate_) {
      }
    }
  }

  class NameGenerator {
    const names: nat -> string
    var count: nat

    constructor (names: nat -> string, count: nat)
      ensures this.names == names && this.count == count
    {
      this.names, this.count := names, count;
    }

    method Next() returns (name: string)
      modifies this
      ensures name == names(old(count)) && count == old(count) + 1
    {
      name := names(count);
      count := count + 1;
    }
  }

  ghost predicate NoRepeats(s: seq<Symbol>) {
    forall i, j :: 0 <= i < j < |s| ==> s[i] != s[j]
  }

  ghost predicate IsListed(s: set<Symbol>, rest: set<Symbol>, r: seq<Symbol>) {
    rest <= s && NoRepeats(r) && forall x :: x in r <==> x in s && x !in rest
  }

  lemma {:induction false} ListOne(s: set<Symbol>, rest: set<Symbol>, r: seq<Symbol>, x: Symbol)
    requires IsListed(s, rest, r) && x in rest
    ensures IsListed(s, rest - {x}, r + [x])
  {
    assert forall i :: 0 <= i < |r| ==> r[i] in r;
    assert forall y :: y in r + [x] <==> y in r || y == x;
  }

  /** Any duplicate-free listing of a set of arguments. */
  method Listing(s: set<Symbol>) returns (r: seq<Symbol>)
    ensures (forall x :: x in r <==> x in s) && NoRepeats(r)
  {
    r := [];
    var rest := s;
    while rest != {}
      invariant IsListed(s, rest, r)
      decreases |rest|
    {
      var x :| x in rest;
      ListOne(s, rest, r, x);
      r := r + [x];
      rest := rest - {x};
    }
  }

  class ResultList {
    const finalEffect: Atom
    var result: seq<Rule>
    const nameGenerator: NameGenerator

    constructor (rule: Rule, nameGenerator: NameGenerator)
      ensures finalEffect == rule.effect && result == [] && this.nameGenerator == nameGenerator
    {
      finalEffect, result := rule.effect, [];
      this.nameGenerator := nameGenerator;
    }

    method AddRule(kind: Kind, conditions: seq<Atom>, effectVars: seq<Symbol>) returns (effect: Atom)
      modifies this, nameGenerator
      ensures effect == Atom(nameGenerator.names(old(nameGenerator.count)), effectVars)
      ensures result == old(result) + [Rule(kind, conditions, effect)] && nameGenerator.count == old(nameGenerator.count) + 1
    {
      var name := nameGenerator.Next();
      effect := Atom(name, effectVars);
      result := result + [Rule(kind, conditions, effect)];
    }

    /** The last rule derives the original head. */
    method GetResult() returns (r: seq<Rule>)
      requires result != []
      modifies this
      ensures r == result == old(result)[|old(result)| - 1 := old(result)[|old(result)| - 1].(effect := finalEffect)]
    {
      result := result[|result| - 1 := result[|result| - 1].(effect := finalEffect)];
      r := result;
    }
  }

  // ---------- The shape of the produced rules ----------

  /**
    A join drops only what both its conditions have, so it has no variable that only one condition has and that
    nobody asks for; a projection drops something.
   */
  ghost predicate Tight(r: Rule) {
    if r.kind == Join then
      |r.conditions| == 2
      && forall x :: x in ArgsOf(r.conditions[0]) + ArgsOf(r.conditions[1]) && x !in ArgsOf(r.effect) ==>
           x in ArgsOf(r.conditions[0]) && x in ArgsOf(r.conditions[1])
    else |r.conditions| == 1 && ArgsOf(r.effect) < ArgsOf(r.conditions[0])
  }

  ghost predicate Uses(r: Rule, x: Symbol) {
    exists d :: d in r.conditions && x in ArgsOf(d)
  }

  /** The effect has each argument once, from some condition; that of a join has variables only. */
  ghost predicate SafeEffect(r: Rule) {
    NoRepeats(r.effect.args) && forall x :: x in ArgsOf(r.effect) ==> Uses(r, x) && (r.kind == Join ==> x.Var?)
  }

  ghost predicate WellShaped(rules: seq<Rule>) {
    forall r :: r in rules ==> Tight(r) && SafeEffect(r)
  }

  /** A condition other than the atom itself has x. */
  ghost predicate UsesBeside(r: Rule, e: Atom, x: Symbol) {
    exists d :: d in r.conditions && d.predicate_ != e.predicate_ && x in ArgsOf(d)
  }

  ghost predicate UsedLater(rules: seq<Rule>, from: nat, e: Atom, x: Symbol) {
    exists j :: from <= j < |rules| && UsesBeside(rules[j], e, x)
  }

  ghost predicate StillJoined(joinees: seq<Atom>, e: Atom, x: Symbol) {
    exists d :: d in joinees && d.predicate_ != e.predicate_ && x in ArgsOf(d)
  }

  /** What a join passes on is in the head or in another atom that is used later or waits to be joined. */
  ghost predicate AllAskedFor(rules: seq<Rule>, joinees: seq<Atom>, head: Atom) {
    forall i, x :: 0 <= i < |rules| && rules[i].kind == Join && x in ArgsOf(rules[i].effect) ==>
      x in ArgsOf(head) || UsedLater(rules, i + 1, rules[i].effect, x) || StillJoined(joinees, rules[i].effect, x)
  }

  /** The joinee stays, or one rule that drops something is made for it. */
  ghost predicate Narrowed(rules: seq<Rule>, a: Atom, a': Atom, keep: set<Symbol>, rules': seq<Rule>) {
    && ArgsOf(a') == keep
    && ((a' == a && rules' == rules)
        || (keep < ArgsOf(a) && NoRepeats(a'.args) && rules' == rules + [Rule(Project, [a], a')]))
  }

  lemma {:induction false} NarrowedShape(rules: seq<Rule>, a: Atom, a': Atom, keep: set<Symbol>, rules': seq<Rule>)
    requires WellShaped(rules) && Narrowed(rules, a, a', keep, rules')
    ensures WellShaped(rules')
  {
    if rules' != rules {
      var made := Rule(Project, [a], a');
      assert Tight(made);
      forall x | x in ArgsOf(a') ensures Uses(made, x) {
        assert a in made.conditions;
      }
      assert SafeEffect(made);
      hide Tight, SafeEffect;
    }
  }

  lemma {:induction false} JoinShape(a: Atom, a': Atom, b: Atom, b': Atom, vars: set<Symbol>, c: Atom)
    requires vars <= ArgsOf(a) + ArgsOf(b) && (forall x :: x in vars ==> x.Var?) && ArgsOf(c) == vars && NoRepeats(c.args)
    requires ArgsOf(a') == ArgsOf(a) * (vars + ArgsOf(a) * ArgsOf(b))
    requires ArgsOf(b') == ArgsOf(b) * (vars + ArgsOf(a) * ArgsOf(b))
    ensures Tight(Rule(Join, [a', b'], c)) && SafeEffect(Rule(Join, [a', b'], c))
  {
    hide ArgsOf;
    var made := Rule(Join, [a', b'], c);
    forall x | x in ArgsOf(c) ensures Uses(made, x) {
      assert a' in made.conditions && b' in made.conditions;
      assert x in ArgsOf(a') || x in ArgsOf(b');
    }
  }

  lemma {:induction false} RoundShape(r0: seq<Rule>, a: Atom, a': Atom, r1: seq<Rule>, b: Atom, b': Atom, r2: seq<Rule>,
                                      vars: set<Symbol>, c: Atom)
    requires WellShaped(r0)
    requires vars <= ArgsOf(a) + ArgsOf(b) && (forall x :: x in vars ==> x.Var?) && ArgsOf(c) == vars && NoRepeats(c.args)
    requires Narrowed(r0, a, a', ArgsOf(a) * (vars + ArgsOf(a) * ArgsOf(b)), r1)
    requires Narrowed(r1, b, b', ArgsOf(b) * (vars + ArgsOf(a) * ArgsOf(b)), r2)
    ensures WellShaped(r2 + [Rule(Join, [a', b'], c)])
  {
    NarrowedShape(r0, a, a', ArgsOf(a) * (vars + ArgsOf(a) * ArgsOf(b)), r1);
    NarrowedShape(r1, b, b', ArgsOf(b) * (vars + ArgsOf(a) * ArgsOf(b)), r2);
    JoinShape(a, a', b, b', vars, c);
    hide Tight, SafeEffect, ArgsOf;
  }

  /** A joinee that is taken turns up as a condition of one of the rules of the round. */
  lemma {:induction false} TakenIsUsed(r0: seq<Rule>, a: Atom, a': Atom, r1: seq<Rule>, b: Atom, b': Atom, r2: seq<Rule>, c: Atom,
                                       keepA: set<Symbol>, keepB: set<Symbol>, e: Atom, x: Symbol)
    requires Narrowed(r0, a, a', keepA, r1) && Narrowed(r1, b, b', keepB, r2)
    requires (e.predicate_ != a.predicate_ && x in ArgsOf(a)) || (e.predicate_ != b.predicate_ && x in ArgsOf(b))
    ensures UsedLater(r2 + [Rule(Join, [a', b'], c)], |r0|, e, x)
  {
    hide ArgsOf, NoRepeats;
    var r3, made := r2 + [Rule(Join, [a', b'], c)], Rule(Join, [a', b'], c);
    assert a' in made.conditions && b' in made.conditions && r3[|r2|] == made;
    if e.predicate_ != a.predicate_ && x in ArgsOf(a) {
      if a' == a {
        assert UsesBeside(r3[|r2|], e, x);
      } else {
        assert r3[|r0|] == Rule(Project, [a], a') && a in [a];
        assert UsesBeside(r3[|r0|], e, x);
      }
    } else if b' == b {
      assert UsesBeside(r3[|r2|], e, x);
    } else {
      assert r3[|r1|] == Rule(Project, [b], b') && b in [b];
      assert UsesBeside(r3[|r1|], e, x);
    }
  }

  lemma {:induction false} LaterStill(rules: seq<Rule>, more: seq<Rule>, from: nat, e: Atom, x: Symbol)
    requires UsedLater(rules, from, e, x)
    ensures UsedLater(rules + more, from, e, x)
  {
    var j :| from <= j < |rules| && UsesBeside(rules[j], e, x);
    assert (rules + more)[j] == rules[j];
  }

  lemma {:induction false} RoundAsks(r0: seq<Rule>, joinees: seq<Atom>, head: Atom, rest: seq<Atom>, a: Atom, a': Atom, r1: seq<Rule>,
                                     b: Atom, b': Atom, r2: seq<Rule>, keepA: set<Symbol>, keepB: set<Symbol>, c: Atom)
    requires AllAskedFor(r0, joinees, head) && SplitOff(joinees, rest, a, b)
    requires Narrowed(r0, a, a', keepA, r1) && Narrowed(r1, b, b', keepB, r2)
    requires forall d :: d in rest ==> d.predicate_ != c.predicate_
    requires EffectVars(head, rest, a, b, ArgsOf(c))
    ensures AllAskedFor(r2 + [Rule(Join, [a', b'], c)], rest + [c], head)
  {
    var r3 := r2 + [Rule(Join, [a', b'], c)];
    assert r3[..|r0|] == r0 && r3 == r0 + r3[|r0|..];
    forall i, x | 0 <= i < |r3| && r3[i].kind == Join && x in ArgsOf(r3[i].effect)
      ensures x in ArgsOf(head) || UsedLater(r3, i + 1, r3[i].effect, x) || StillJoined(rest + [c], r3[i].effect, x)
    {
      if i < |r0| {
        assert r3[i] == r0[i];
        OldStillAsked(r0, joinees, head, rest, a, a', r1, b, b', r2, keepA, keepB, c, i, x);
      } else {
        assert i == |r2|;
        AllArgsMember(rest, x);
        if x !in ArgsOf(head) {
          assert x !in multiset(head.args);
          var d :| d in rest && x in ArgsOf(d);
          assert d in rest + [c];
        }
      }
    }
  }

  lemma {:induction false} OldStillAsked(r0: seq<Rule>, joinees: seq<Atom>, head: Atom, rest: seq<Atom>, a: Atom, a': Atom, r1: seq<Rule>,
                                         b: Atom, b': Atom, r2: seq<Rule>, keepA: set<Symbol>, keepB: set<Symbol>, c: Atom, i: nat, x: Symbol)
    requires AllAskedFor(r0, joinees, head) && SplitOff(joinees, rest, a, b) && i < |r0|
    requires Narrowed(r0, a, a', keepA, r1) && Narrowed(r1, b, b', keepB, r2)
    requires r0[i].kind == Join && x in ArgsOf(r0[i].effect)
    ensures var r3 := r2 + [Rule(Join, [a', b'], c)];
      x in ArgsOf(head) || UsedLater(r3, i + 1, r0[i].effect, x) || StillJoined(rest + [c], r0[i].effect, x)
  {
    var r3, e := r2 + [Rule(Join, [a', b'], c)], r0[i].effect;
    assert r3 == r0 + r3[|r0|..];
    hide ArgsOf, UsesBeside;
    if UsedLater(r0, i + 1, e, x) {
      LaterStill(r0, r3[|r0|..], i + 1, e, x);
    } else if StillJoined(joinees, e, x) {
      var d :| d in joinees && d.predicate_ != e.predicate_ && x in ArgsOf(d);
      if d in rest {
        assert d in rest + [c];
      } else {
        TakenIsUsed(r0, a, a', r1, b, b', r2, c, keepA, keepB, e, x);
        var j :| |r0| <= j < |r3| && UsesBeside(r3[j], e, x);
      }
    }
  }

  /** When one atom is left it is the effect of the last join, and all its arguments are in the head. */
  lemma {:induction false} LastIsHead(rules: seq<Rule>, head: Atom)
    requires rules != [] && WellShaped(rules) && rules[|rules| - 1].kind == Join
    requires AllAskedFor(rules, [rules[|rules| - 1].effect], head)
    ensures ArgsOf(rules[|rules| - 1].effect) <= ArgsOf(head)
    ensures var final := rules[|rules| - 1 := rules[|rules| - 1].(effect := head)];
      && WellShaped(final[..|final| - 1]) && Tight(final[|final| - 1])
      && forall i, x :: 0 <= i < |final| - 1 && final[i].kind == Join && x in ArgsOf(final[i].effect) ==>
           x in ArgsOf(head) || UsedLater(final, i + 1, final[i].effect, x)
  {
    var n := |rules| - 1;
    var last := rules[n];
    var final := rules[n := last.(effect := head)];
    assert last in rules && Tight(last);
    forall x | x in ArgsOf(last.effect) ensures x in ArgsOf(head) {
      assert !UsedLater(rules, n + 1, last.effect, x);
      assert !StillJoined([last.effect], last.effect, x);
    }
    assert final[..n] == rules[..n];
    forall r | r in final[..n] ensures Tight(r) && SafeEffect(r) {
      assert r in rules;
    }
    hide Tight, SafeEffect, ArgsOf;
    forall i, x | 0 <= i < n && final[i].kind == Join && x in ArgsOf(final[i].effect)
      ensures x in ArgsOf(head) || UsedLater(final, i + 1, final[i].effect, x)
    {
      assert final[i] == rules[i];
      if UsedLater(rules, i + 1, rules[i].effect, x) {
        var j :| i + 1 <= j < |rules| && UsesBeside(rules[j], rules[i].effect, x);
        assert final[j].conditions == rules[j].conditions;
        assert UsesBeside(final[j], rules[i].effect, x);
      }
    }
  }

  // ---------- One round of the main loop ----------

  /** Either the atom stays, or a rule with a new predicate projects it to what is kept. */
  ghost predicate ProjectStep(names: nat -> string, rules: seq<Rule>, n: nat, a: Atom, a': Atom, keep: set<Symbol>,
                              rules': seq<Rule>, n': nat) {
    || (a' == a && keep == ArgsOf(a) && rules' == rules && n' == n)
    || (a'.predicate_ == names(n) && ArgsOf(a') == keep && rules' == rules + [Rule(Project, [a], a')] && n' == n + 1)
  }

  lemma {:induction false} ReservedUnused(M: iset<Ground>, names: nat -> string, n: nat)
    requires Avoids(M, names, n)
    ensures Unused(names(n), M)
  {
    assert Reserved(names, n, names(n));
  }

  lemma {:induction false} ProjectStepMeans(M: iset<Ground>, names: nat -> string, rules: seq<Rule>, n: nat, a: Atom, a': Atom,
                                            keep: set<Symbol>, rules': seq<Rule>, n': nat)
    requires ProjectStep(names, rules, n, a, a', keep, rules', n') && Avoids(Unfold(M, rules), names, n) && FreshNames(names)
    ensures Keeps(Unfold(M, rules'), a', Unfold(M, rules), a, keep)
    ensures forall s: Substitution, d: Atom {:trigger Instance(s, d)} :: !Reserved(names, n, d.predicate_) ==>
      (Instance(s, d) in Unfold(M, rules') <==> Instance(s, d) in Unfold(M, rules))
    ensures Avoids(Unfold(M, rules'), names, n')
  {
    if rules' == rules {
      KeepsItself(Unfold(M, rules), a);
    } else {
      ReservedUnused(Unfold(M, rules), names, n);
      ProjectionKeeps(a, a', Unfold(M, rules));
      UnfoldSnoc(M, rules, Rule(Project, [a], a'));
      forall s: Substitution, d: Atom | !Reserved(names, n, d.predicate_)
        ensures Instance(s, d) in Unfold(M, rules') <==> Instance(s, d) in Unfold(M, rules)
      {
        assert Reserved(names, n, a'.predicate_);
        OthersUnchanged([a], a', Unfold(M, rules), s, d);
      }
      forall g | g in Unfold(M, rules') ensures !Reserved(names, n', g.predicate_) {
        assert g in Unfold(M, rules) ==> !Reserved(names, n, g.predicate_);
      }
    }
  }

  lemma {:induction false} ReservedLater(names: nat -> string, n: nat, n': nat, p: string)
    requires n <= n' && !Reserved(names, n, p)
    ensures !Reserved(names, n', p)
  {
  }

  /** After both projections, the two joinees mean what they did, and nothing else changed. */
  lemma {:induction false} BothProjected(M: iset<Ground>, names: nat -> string, r0: seq<Rule>, n0: nat, a: Atom, a': Atom, keepA: set<Symbol>,
                                         r1: seq<Rule>, n1: nat, b: Atom, b': Atom, keepB: set<Symbol>, r2: seq<Rule>, n2: nat,
                                         rest: seq<Atom>, c: Atom)
    requires FreshNames(names) && Avoids(Unfold(M, r0), names, n0) && AtomsAvoid([a, b] + rest, names, n0)
    requires ProjectStep(names, r0, n0, a, a', keepA, r1, n1) && ProjectStep(names, r1, n1, b, b', keepB, r2, n2)
    requires c.predicate_ == names(n2)
    ensures Keeps(Unfold(M, r2), a', Unfold(M, r0), a, keepA) && Keeps(Unfold(M, r2), b', Unfold(M, r0), b, keepB)
    ensures Unaffected(Unfold(M, r2), Unfold(M, r0), rest, c) && Unused(c.predicate_, Unfold(M, r2))
    ensures Avoids(Unfold(M, r2), names, n2)
  {
    var M0, M1, M2 := Unfold(M, r0), Unfold(M, r1), Unfold(M, r2);
    ProjectStepMeans(M, names, r0, n0, a, a', keepA, r1, n1);
    ProjectStepMeans(M, names, r1, n1, b, b', keepB, r2, n2);
    ReservedUnused(M2, names, n2);
    assert a in [a, b] + rest && b in [a, b] + rest;
    forall d | d in [a, b] + rest ensures !Reserved(names, n0, d.predicate_) && !Reserved(names, n1, d.predicate_) && d.predicate_ != c.predicate_ {
      ReservedLater(names, n0, n1, d.predicate_);
      ReservedLater(names, n0, n2, d.predicate_);
      assert Reserved(names, n2, c.predicate_);
    }
    hide Unfold, Tuples;
    AStillKept(M0, M1, M2, names, n1, a, a', keepA, n0);
    forall s: Substitution ensures Instance(s, b) in M1 <==> Instance(s, b) in M0 {
    }
    forall d | d in rest ensures d in [a, b] + rest {
    }
  }

  lemma {:induction false} AStillKept(M0: iset<Ground>, M1: iset<Ground>, M2: iset<Ground>, names: nat -> string, n1: nat, a: Atom,
                                      a': Atom, keepA: set<Symbol>, n0: nat)
    requires Keeps(M1, a', M0, a, keepA) && FreshNames(names)
    requires (a' == a && !Reserved(names, n1, a.predicate_)) || (a'.predicate_ == names(n0) && n1 == n0 + 1)
    requires forall s: Substitution, d: Atom {:trigger Instance(s, d)} :: !Reserved(names, n1, d.predicate_) ==>
      (Instance(s, d) in M2 <==> Instance(s, d) in M1)
    ensures Keeps(M2, a', M0, a, keepA)
  {
    assert !Reserved(names, n1, a'.predicate_);
    forall s: Substitution ensures Instance(s, a') in M2 <==> Instance(s, a') in M1 {
    }
  }

  /** The rules so far, applied first, turn the original rule into one with the current joinees for conditions. */
  ghost predicate Equivalent(names: nat -> string, from: nat, rules: seq<Rule>, conditions: seq<Atom>, joinees: seq<Atom>, head: Atom) {
    forall M :: Avoids(M, names, from) ==> Tuples(joinees, head, Unfold(M, rules)) == Tuples(conditions, head, M)
  }

  /** The last of the rules, given the original head, derives exactly what the original rule derives. */
  ghost predicate LastEquivalent(names: nat -> string, from: nat, rules: seq<Rule>, conditions: seq<Atom>, head: Atom) {
    rules != [] && forall M :: Avoids(M, names, from) ==>
      Tuples(rules[|rules| - 1].conditions, head, Unfold(M, rules[..|rules| - 1])) == Tuples(conditions, head, M)
  }

  lemma {:induction false} RoundEquivalent(names: nat -> string, from: nat, conditions: seq<Atom>, head: Atom, joinees: seq<Atom>,
                                           rest: seq<Atom>, r0: seq<Rule>, n0: nat, a: Atom, a': Atom, keepA: set<Symbol>,
                                           r1: seq<Rule>, n1: nat, b: Atom, b': Atom, keepB: set<Symbol>, r2: seq<Rule>, n2: nat, c: Atom)
    requires FreshNames(names) && from <= n0 && Defines(r0, names, from, n0) && Equivalent(names, from, r0, conditions, joinees, head)
    requires AtomsAvoid([a, b] + rest, names, n0) && SplitOff(joinees, rest, a, b)
    requires ProjectStep(names, r0, n0, a, a', keepA, r1, n1) && ProjectStep(names, r1, n1, b, b', keepB, r2, n2)
    requires c.predicate_ == names(n2) && KeepsEnough(a, keepA, b, keepB, ArgsOf(c)) && KeepsNeeded([head] + rest, a, b, c)
    ensures var r3 := r2 + [Rule(Join, [a', b'], c)];
      Equivalent(names, from, r3, conditions, rest + [c], head) && (rest == [] ==> LastEquivalent(names, from, r3, conditions, head))
  {
    var r3 := r2 + [Rule(Join, [a', b'], c)];
    hide Keeps, KeepsEnough, KeepsNeeded, Unaffected, Unused, SplitOff, Tuples, Unfold, ProjectStep, Avoids, AtomsAvoid, Defines;
    forall M | Avoids(M, names, from)
      ensures Tuples(rest + [c], head, Unfold(M, r3)) == Tuples(conditions, head, M)
      ensures rest == [] ==> Tuples([a', b'], head, Unfold(M, r2)) == Tuples(conditions, head, M)
    {
      UnfoldAvoids(M, r0, names, from, n0);
      BothProjected(M, names, r0, n0, a, a', keepA, r1, n1, b, b', keepB, r2, n2, rest, c);
      JoinStep(Unfold(M, r0), joinees, rest, a, b, keepA, keepB, Unfold(M, r2), a', b', c, head);
      UnfoldSnoc(M, r2, Rule(Join, [a', b'], c));
      if rest == [] {
        assert [head] + rest == [head] && rest + [c] == [c];
        LastJoin(Unfold(M, r0), a, keepA, b, keepB, Unfold(M, r2), a', b', c, head);
      }
    }
    assert r3[..|r3| - 1] == r2;
  }

  lemma {:induction false} PairSplitOff(joinees: seq<Atom>, l: nat, r: nat)
    requires r < l < |joinees|
    ensures SplitOff(joinees, Without(Without(joinees, l), r), joinees[l], joinees[r])
    ensures AllArgs(joinees) == AllArgs(Without(Without(joinees, l), r)) + multiset(joinees[l].args) + multiset(joinees[r].args)
    ensures |Without(Without(joinees, l), r)| == |joinees| - 2
  {
    var once := Without(joinees, l);
    assert once[r] == joinees[r];
    AllArgsWithout(joinees, l);
    AllArgsWithout(once, r);
    assert joinees == joinees[..l] + [joinees[l]] + joinees[l + 1..];
    assert once == once[..r] + [once[r]] + once[r + 1..];
    forall d ensures d in joinees <==> d in once || d == joinees[l] {
    }
    forall d ensures d in once <==> d in Without(once, r) || d == once[r] {
    }
  }

  /** The arguments of a join: the variables of the pair that still occur somewhere else. */
  ghost predicate EffectVars(head: Atom, rest: seq<Atom>, a: Atom, b: Atom, vars: set<Symbol>) {
    forall x :: x in vars <==> x.Var? && x in ArgsOf(a) + ArgsOf(b) && x in multiset(head.args) + AllArgs(rest)
  }

  lemma {:induction false} EffectVarsNeeded(head: Atom, rest: seq<Atom>, a: Atom, b: Atom, c: Atom)
    requires EffectVars(head, rest, a, b, ArgsOf(c))
    ensures KeepsNeeded([head] + rest, a, b, c)
  {
    forall x: Symbol, d | d in [head] + rest && x in ArgsOf(d) && x.Var? && x in ArgsOf(a) + ArgsOf(b) ensures x in ArgsOf(c) {
      AllArgsMember(rest, x);
      if d == head {
        assert x in multiset(head.args);
      } else {
        assert d in rest;
      }
    }
  }

  lemma {:induction false} EffectVarsEnough(head: Atom, rest: seq<Atom>, a: Atom, b: Atom, vars: set<Symbol>)
    requires EffectVars(head, rest, a, b, vars)
    ensures var needed := vars + ArgsOf(a) * ArgsOf(b);
      KeepsEnough(a, ArgsOf(a) * needed, b, ArgsOf(b) * needed, vars)
  {
  }

  /** Takes the cheapest pair and finds out what its join has to keep. */
  method PickPair(costMatrix: CostMatrix, occurrences: OccurrencesTracker, ghost head: Atom)
    returns (left: Atom, right: Atom, effectVars: set<Symbol>, ghost l: nat, ghost r: nat)
    requires costMatrix.Valid() && |costMatrix.joinees| >= 2
    requires Tracks(occurrences.occurrences, multiset(head.args) + AllArgs(costMatrix.joinees))
    modifies costMatrix, occurrences
    ensures costMatrix.Valid() && r < l < |old(costMatrix.joinees)|
    ensures left == old(costMatrix.joinees)[l] && right == old(costMatrix.joinees)[r]
    ensures costMatrix.joinees == Without(Without(old(costMatrix.joinees), l), r)
    ensures SplitOff(old(costMatrix.joinees), costMatrix.joinees, left, right)
    ensures Tracks(occurrences.occurrences, multiset(head.args) + AllArgs(costMatrix.joinees))
    ensures EffectVars(head, costMatrix.joinees, left, right, effectVars)
  {
    hide IsCostMatrix, Tracks, AllArgs, JoinCost, SplitOff, Without;
    ghost var all := multiset(head.args) + AllArgs(costMatrix.joinees);
    left, right, l, r := costMatrix.RemoveMinPair();
    PairSplitOff(old(costMatrix.joinees), l, r);
    ghost var others := multiset(head.args) + AllArgs(costMatrix.joinees);
    assert all - multiset(left.args) == others + multiset(right.args);
    assert others + multiset(right.args) - multiset(right.args) == others;
    occurrences.Update(left, -1, all);
    occurrences.Update(right, -1, others + multiset(right.args));
    var variables := occurrences.Variables(others);
    effectVars := variables * (ArgsOf(left) + ArgsOf(right));
  }

  /** Projects away what neither the join nor the rest needs; a joinee that keeps all its arguments stays as it is. */
  method ProjectJoinee(result: ResultList, joinee: Atom, needed: set<Symbol>) returns (joinee': Atom, ghost keep: set<Symbol>)
    modifies result, result.nameGenerator
    ensures keep == ArgsOf(joinee) * needed
    ensures ProjectStep(result.nameGenerator.names, old(result.result), old(result.nameGenerator.count), joinee, joinee', keep,
                        result.result, result.nameGenerator.count)
    ensures Narrowed(old(result.result), joinee, joinee', keep, result.result)
  {
    var retainedVars := ArgsOf(joinee) * needed;
    keep := retainedVars;
    joinee' := joinee;
    if retainedVars != ArgsOf(joinee) {
      var vars := Listing(retainedVars);
      joinee' := result.AddRule(Project, [joinee], vars);
      assert ArgsOf(joinee') == keep;
    }
  }

  /** The state of the main loop between two rounds. */
  ghost predicate Splitting(names: nat -> string, from: nat, n: nat, rules: seq<Rule>, conditions: seq<Atom>, joinees: seq<Atom>, head: Atom) {
    && from <= n && Defines(rules, names, from, n) && AtomsAvoid(joinees, names, n)
    && Equivalent(names, from, rules, conditions, joinees, head)
    && WellShaped(rules) && AllAskedFor(rules, joinees, head)
  }

  lemma {:induction false} RoundDefines(names: nat -> string, from: nat, r0: seq<Rule>, n0: nat, a: Atom, a': Atom, keepA: set<Symbol>,
                                        r1: seq<Rule>, n1: nat, b: Atom, b': Atom, keepB: set<Symbol>, r2: seq<Rule>, n2: nat, c: Atom,
                                        joinees: seq<Atom>, rest: seq<Atom>)
    requires from <= n0 && Defines(r0, names, from, n0) && FreshNames(names) && c.predicate_ == names(n2)
    requires ProjectStep(names, r0, n0, a, a', keepA, r1, n1) && ProjectStep(names, r1, n1, b, b', keepB, r2, n2)
    requires AtomsAvoid(joinees, names, n0) && SplitOff(joinees, rest, a, b)
    ensures Defines(r2 + [Rule(Join, [a', b'], c)], names, from, n2 + 1) && AtomsAvoid(rest + [c], names, n2 + 1)
    ensures AtomsAvoid([a, b] + rest, names, n0)
    ensures forall d :: d in rest ==> d.predicate_ != c.predicate_
  {
    var r3 := r2 + [Rule(Join, [a', b'], c)];
    forall r | r in r3 ensures exists k :: from <= k < n2 + 1 && r.effect.predicate_ == names(k) {
      if r in r0 {
        var k :| from <= k < n0 && r.effect.predicate_ == names(k);
        assert from <= k < n2 + 1;
      } else if r in r1 {
        assert r.effect.predicate_ == names(n0);
      } else if r in r2 {
        assert r.effect.predicate_ == names(n1);
      } else {
        assert r.effect.predicate_ == names(n2);
      }
    }
    forall d | d in [a, b] + rest ensures !Reserved(names, n0, d.predicate_) {
      assert d in joinees;
    }
    forall d | d in rest + [c] ensures !Reserved(names, n2 + 1, d.predicate_) && (d in rest ==> d.predicate_ != c.predicate_) {
      if d in rest {
        assert d in joinees;
        assert Reserved(names, n0, names(n2));
        ReservedLater(names, n0, n2 + 1, d.predicate_);
      }
    }
  }

  lemma {:induction false} EffectVarsAre(head: Atom, rest: seq<Atom>, a: Atom, b: Atom, vars: set<Symbol>)
    requires EffectVars(head, rest, a, b, vars)
    ensures vars <= ArgsOf(a) + ArgsOf(b) && forall x :: x in vars ==> x.Var?
  {
  }

  lemma {:induction false} SameArgs(a: Atom, vars: set<Symbol>)
    requires forall x :: x in a.args <==> x in vars
    ensures ArgsOf(a) == vars
  {
  }

  method Round(costMatrix: CostMatrix, occurrences: OccurrencesTracker, result: ResultList, ghost rule: Rule, ghost from: nat)
    requires costMatrix.Valid() && |costMatrix.joinees| >= 2
    requires Tracks(occurrences.occurrences, multiset(rule.effect.args) + AllArgs(costMatrix.joinees))
    requires FreshNames(result.nameGenerator.names)
    requires Splitting(result.nameGenerator.names, from, result.nameGenerator.count, result.result, rule.conditions,
                       costMatrix.joinees, rule.effect)
    modifies costMatrix, occurrences, result, result.nameGenerator
    ensures costMatrix.Valid() && |costMatrix.joinees| == |old(costMatrix.joinees)| - 1
    ensures Tracks(occurrences.occurrences, multiset(rule.effect.args) + AllArgs(costMatrix.joinees))
    ensures Splitting(result.nameGenerator.names, from, result.nameGenerator.count, result.result, rule.conditions,
                      costMatrix.joinees, rule.effect)
    ensures result.result != [] && result.result[|result.result| - 1].kind == Join
    ensures costMatrix.joinees[|costMatrix.joinees| - 1] == result.result[|result.result| - 1].effect
    ensures |costMatrix.joinees| == 1 ==>
      LastEquivalent(result.nameGenerator.names, from, result.result, rule.conditions, rule.effect)
  {
    hide IsCostMatrix, Tracks, AllArgs, SplitOff, EffectVars, ProjectStep, Defines, AtomsAvoid, Equivalent, LastEquivalent, FreshNames,
         KeepsEnough, KeepsNeeded, ArgsOf, Without, WellShaped, AllAskedFor, Narrowed, NoRepeats;
    ghost var names, head := result.nameGenerator.names, rule.effect;
    ghost var r0, n0 := result.result, result.nameGenerator.count;
    var left, right, effectVars, l, r := PickPair(costMatrix, occurrences, head);
    ghost var joinees, rest := old(costMatrix.joinees), costMatrix.joinees;
    var commonVars := ArgsOf(left) * ArgsOf(right);
    var left', keepLeft := ProjectJoinee(result, left, effectVars + commonVars);
    ghost var r1, n1 := result.result, result.nameGenerator.count;
    var right', keepRight := ProjectJoinee(result, right, effectVars + commonVars);
    ghost var r2, n2 := result.result, result.nameGenerator.count;
    var args := Listing(effectVars);
    var jointCondition := result.AddRule(Join, [left', right'], args);
    SameArgs(jointCondition, effectVars);
    EffectVarsAre(head, rest, left, right, effectVars);
    RoundShape(r0, left, left', r1, right, right', r2, effectVars, jointCondition);
    EffectVarsEnough(head, rest, left, right, effectVars);
    EffectVarsNeeded(head, rest, left, right, jointCondition);
    RoundDefines(names, from, r0, n0, left, left', keepLeft, r1, n1, right, right', keepRight, r2, n2, jointCondition, joinees, rest);
    RoundAsks(r0, joinees, head, rest, left, left', r1, right, right', r2, keepLeft, keepRight, jointCondition);
    RoundEquivalent(names, from, rule.conditions, head, joinees, rest, r0, n0, left, left', keepLeft, r1, n1,
                    right, right', keepRight, r2, n2, jointCondition);
    costMatrix.AddEntry(jointCondition);
    AllArgsSnoc(rest, jointCondition);
    assert multiset(head.args) + AllArgs(rest) + multiset(jointCondition.args) == multiset(head.args) + AllArgs(costMatrix.joinees);
    occurrences.Update(jointCondition, 1, multiset(head.args) + AllArgs(rest));
  }

  /**
   * For every interpretation of the body predicates, applying the produced rules in order
   * derives with the last one exactly the head tuples of the original rule.
   * A variable that only one joinee has and nobody asks for is projected away before the join.
   */
  method GreedyJoin(rule: Rule, nameGenerator: NameGenerator) returns (rules: seq<Rule>)
    requires |rule.conditions| >= 2 && FreshNames(nameGenerator.names)
    requires AtomsAvoid(rule.conditions, nameGenerator.names, nameGenerator.count)
    modifies nameGenerator
    ensures rules != [] && rules[|rules| - 1].effect == rule.effect && rules[|rules| - 1].kind == Join
    ensures forall r :: r in rules ==> Tight(r)
    ensures forall r :: r in rules[..|rules| - 1] ==> SafeEffect(r)
    ensures forall i, x :: 0 <= i < |rules| - 1 && rules[i].kind == Join && x in ArgsOf(rules[i].effect) ==>
      x in ArgsOf(rule.effect) || UsedLater(rules, i + 1, rules[i].effect, x)
    ensures Defines(rules[..|rules| - 1], nameGenerator.names, old(nameGenerator.count), nameGenerator.count)
    ensures LastEquivalent(nameGenerator.names, old(nameGenerator.count), rules, rule.conditions, rule.effect)
  {
    ghost var from := nameGenerator.count;
    var costMatrix := new CostMatrix(rule.conditions);
    var occurrences := new OccurrencesTracker(rule);
    var result := new ResultList(rule, nameGenerator);
    while |costMatrix.joinees| >= 2
      invariant costMatrix.Valid() && |costMatrix.joinees| >= 1
      invariant Tracks(occurrences.occurrences, multiset(rule.effect.args) + AllArgs(costMatrix.joinees))
      invariant Splitting(nameGenerator.names, from, nameGenerator.count, result.result, rule.conditions, costMatrix.joinees, rule.effect)
      invariant result.result != [] ==> result.result[|result.result| - 1].kind == Join
      invariant result.result != [] ==> costMatrix.joinees[|costMatrix.joinees| - 1] == result.result[|result.result| - 1].effect
      invariant |costMatrix.joinees| == 1 ==> LastEquivalent(nameGenerator.names, from, result.result, rule.conditions, rule.effect)
      decreases |costMatrix.joinees|
    {
      Round(costMatrix, occurrences, result, rule, from);
    }
    ghost var made := result.result;
    assert costMatrix.joinees == [made[|made| - 1].effect];
    LastIsHead(made, rule.effect);
    rules := result.GetResult();
    assert rules[..|rules| - 1] == made[..|made| - 1];
    hide Tight, SafeEffect, UsedLater;
    forall r | r in rules ensures Tight(r) {
      assert r in rules[..|rules| - 1] || r == rules[|rules| - 1];
    }
  }
}
