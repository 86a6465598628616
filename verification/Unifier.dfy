/**
  The discrimination trie that finds the rule conditions matching an atom (src/translate/build_model.py:181-271).
  A trie is owned by one root and is rebuilt along the insertion path, so its nodes are values here.
 */
module Unifier {
  import opened Datalog

  /** Condition `cond` of rule number `rule`. */
  datatype Match = Match(rule: nat, cond: nat)

  datatype Generator =
    | LeafGenerator(matches: seq<Match>)
    | MatchGenerator(index: nat, matches: seq<Match>, branches: map<string, Generator>, next: Generator)

  type Constraints = seq<(nat, string)>

  /** Every argument position the trie looks at exists in an atom with this many arguments. */
  ghost predicate Within(g: Generator, arity: nat) {
    g.MatchGenerator? ==>
      g.index < arity && Within(g.next, arity) && forall k :: k in g.branches ==> Within(g.branches[k], arity)
  }

  /** The matches a trie yields for an atom. */
  function Generate(g: Generator, a: Atom): seq<Match>
    requires Within(g, |a.args|)
  {
    match g
    case LeafGenerator(matches) => matches
    case MatchGenerator(index, matches, branches, next) =>
      var key := a.args[index];
      matches + (if key in branches then Generate(branches[key], a) else []) + Generate(next, a)
  }

  function LeafInsert(matches: seq<Match>, args: Constraints, value: Match): Generator
    decreases |args|
  {
    if args == [] then LeafGenerator(matches + [value])
    else MatchGenerator(args[0].0, matches, map[args[0].1 := LeafInsert([], args[1..], value)], LeafGenerator([]))
  }

  function Insert(g: Generator, args: Constraints, value: Match): Generator
    decreases g
  {
    match g
    case LeafGenerator(matches) => LeafInsert(matches, args, value)
    case MatchGenerator(index, matches, branches, next) =>
      if args == [] then g.(matches := matches + [value])
      else
        var (argIndex, arg) := args[0];
        if index < argIndex then
          g.(next := Insert(next, args, value))
        else if index > argIndex then
          MatchGenerator(argIndex, [], map[arg := LeafInsert([], args[1..], value)], g)
        else if arg in branches then
          g.(branches := branches[arg := Insert(branches[arg], args[1..], value)])
        else
          g.(branches := branches[arg := LeafInsert([], args[1..], value)])
  }

  ghost predicate InRange(args: Constraints, arity: nat) {
    forall c :: c in args ==> c.0 < arity
  }

  ghost predicate Satisfies(a: Atom, args: Constraints)
    requires InRange(args, |a.args|)
  {
    forall c :: c in args ==> a.args[c.0] == c.1
  }

  lemma {:induction false} LeafInsertSpec(matches: seq<Match>, args: Constraints, value: Match, a: Atom)
    requires InRange(args, |a.args|)
    ensures Within(LeafInsert(matches, args, value), |a.args|)
    ensures Yield(LeafInsert(matches, args, value), a) == multiset(matches) + Contribution(a, args, value)
    decreases |args|
  {
    if args == [] {
      NoConstraints(a, value);
    } else {
      SplitFirst(a, args, value);
      LeafInsertSpec([], args[1..], value, a);
      YieldOfNode(LeafInsert(matches, args, value), a);
    }
  }

  ghost function Contribution(a: Atom, args: Constraints, value: Match): multiset<Match>
    requires InRange(args, |a.args|)
  {
    if Satisfies(a, args) then multiset{value} else multiset{}
  }

  lemma {:induction false} NoConstraints(a: Atom, value: Match)
    ensures Contribution(a, [], value) == multiset{value}
  {
  }

  lemma {:induction false} SplitFirst(a: Atom, args: Constraints, value: Match)
    requires InRange(args, |a.args|) && args != []
    ensures args[0].0 < |a.args| && InRange(args[1..], |a.args|)
    ensures Contribution(a, args, value)
         == if a.args[args[0].0] == args[0].1 then Contribution(a, args[1..], value) else multiset{}
  {
    assert forall c :: c in args[1..] ==> c in args;
    assert forall c :: c in args ==> c == args[0] || c in args[1..];
  }

  ghost function Yield(g: Generator, a: Atom): multiset<Match>
    requires Within(g, |a.args|)
  {
    multiset(Generate(g, a))
  }

  lemma {:induction false} YieldOfNode(g: Generator, a: Atom)
    requires g.MatchGenerator? && Within(g, |a.args|)
    ensures var key := a.args[g.index];
      Yield(g, a) == multiset(g.matches)
        + (if key in g.branches then Yield(g.branches[key], a) else multiset{}) + Yield(g.next, a)
  {
  }

  /** Inserting a match adds exactly that match, and exactly for the atoms that satisfy its constants. */
  lemma {:induction false} InsertSpec(g: Generator, args: Constraints, value: Match, a: Atom)
    requires Within(g, |a.args|) && InRange(args, |a.args|)
    ensures Within(Insert(g, args, value), |a.args|)
    ensures Yield(Insert(g, args, value), a) == Yield(g, a) + Contribution(a, args, value)
    decreases g, 1
  {
    if g.LeafGenerator? {
      LeafInsertSpec(g.matches, args, value, a);
    } else if args == [] {
      hide Contribution;
      NoConstraints(a, value);
    } else {
      InsertBelow(g, args, value, a);
    }
  }

  lemma {:induction false} InsertBelow(g: Generator, args: Constraints, value: Match, a: Atom)
    requires g.MatchGenerator? && args != [] && Within(g, |a.args|) && InRange(args, |a.args|)
    ensures Within(Insert(g, args, value), |a.args|)
    ensures Yield(Insert(g, args, value), a) == Yield(g, a) + Contribution(a, args, value)
    decreases g, 0
  {
    hide Contribution, Yield;
    SplitFirst(a, args, value);
    YieldOfNode(g, a);
    if g.index < args[0].0 {
      InsertSpec(g.next, args, value, a);
    } else if g.index > args[0].0 || args[0].1 !in g.branches {
      LeafInsertSpec([], args[1..], value, a);
    } else {
      InsertSpec(g.branches[args[0].1], args[1..], value, a);
    }
    YieldOfNode(Insert(g, args, value), a);
  }

  /** The constants of a condition with their positions. */
  function ConstantArguments(args: seq<Term>, from: nat): (r: Constraints)
    requires from <= |args|
    ensures forall c :: c in r ==> from <= c.0 < |args|
    ensures forall c :: c in r <==> from <= c.0 < |args| && args[c.0] == Const(c.1)
    decreases |args| - from
  {
    if from == |args| then []
    else (if args[from].Const? then [(from, args[from].name)] else []) + ConstantArguments(args, from + 1)
  }

  lemma {:induction false} UnifiesByConstants(p: Pattern, a: Atom)
    requires p.pred == a.pred && |p.args| == |a.args|
    ensures Satisfies(a, ConstantArguments(p.args, 0)) <==> Unifies(p, a)
  {
    if Satisfies(a, ConstantArguments(p.args, 0)) {
      forall i | 0 <= i < |p.args| && p.args[i].Const? ensures a.args[i] == p.args[i].name {
        assert (i, p.args[i].name) in ConstantArguments(p.args, 0);
      }
    }
  }

  function MatchOf(rules: seq<Rule>, a: Atom, k: nat, c: nat): (r: multiset<Match>)
    requires k < |rules| && c < |rules[k].conditions|
  {
    if Unifies(rules[k].conditions[c], a) then multiset{Match(k, c)} else multiset{}
  }

  /** The linear scan: conditions 0..c of rule k and all conditions of the rules before it. */
  ghost function Scan(rules: seq<Rule>, a: Atom, k: nat, c: nat): (r: multiset<Match>)
    requires k <= |rules| && (k < |rules| ==> c <= |rules[k].conditions|) && (k == |rules| ==> c == 0)
    decreases k, c
  {
    if c > 0 then Scan(rules, a, k, c - 1) + MatchOf(rules, a, k, c - 1)
    else if k > 0 then Scan(rules, a, k - 1, |rules[k - 1].conditions|)
    else multiset{}
  }

  /** In a scan every matching pair occurs once and nothing else does. */
  lemma {:induction false} ScanSpec(rules: seq<Rule>, a: Atom, k: nat, c: nat, m: Match)
    requires k <= |rules| && (k < |rules| ==> c <= |rules[k].conditions|) && (k == |rules| ==> c == 0)
    ensures Scan(rules, a, k, c)[m]
         == if (m.rule < k || (m.rule == k && m.cond < c)) && m.cond < |rules[m.rule].conditions|
               && Unifies(rules[m.rule].conditions[m.cond], a)
            then 1 else 0
    decreases k, c
  {
    hide Unifies;
    if c > 0 {
      ScanSpec(rules, a, k, c - 1, m);
      var one := MatchOf(rules, a, k, c - 1);
      assert one[m] == if m == Match(k, c - 1) && Unifies(rules[k].conditions[c - 1], a) then 1 else 0;
      hide MatchOf;
      assert Scan(rules, a, k, c)[m] == Scan(rules, a, k, c - 1)[m] + one[m];
    } else if k > 0 {
      ScanSpec(rules, a, k - 1, |rules[k - 1].conditions|, m);
    }
  }

  class Unifier {
    var predicateToRuleGenerator: map<string, Generator>
    ghost const rules: seq<Rule>
    ghost const arity: string -> nat

    /** Every atom gets the answers of the linear scan over the rules. */
    ghost predicate Valid()
      reads this
    {
      Fits(arity) && forall a :: ValidAtom(a, arity) ==> Yields(a, arity) == Scan(rules, a, |rules|, 0)
    }

    ghost predicate Fits(arity: string -> nat)
      reads this
    {
      forall p :: p in predicateToRuleGenerator ==> Within(predicateToRuleGenerator[p], arity(p))
    }

    ghost function Yields(a: Atom, arity: string -> nat): multiset<Match>
      requires Fits(arity) && ValidAtom(a, arity)
      reads this
    {
      if a.pred in predicateToRuleGenerator then multiset(Generate(predicateToRuleGenerator[a.pred], a)) else multiset{}
    }

    constructor (rules: seq<Rule>, ghost arity: string -> nat)
      requires forall k :: 0 <= k < |rules| ==> ValidRule(rules[k], arity)
      ensures Valid() && this.rules == rules && this.arity == arity
    {
      predicateToRuleGenerator := map[];
      this.rules, this.arity := rules, arity;
      new;
      for k := 0 to |rules|
        invariant Fits(arity)
        invariant forall a :: ValidAtom(a, arity) ==> Yields(a, arity) == Scan(rules, a, k, 0)
      {
        InsertRule(rules, k, arity);
      }
    }

    method InsertRule(rules: seq<Rule>, k: nat, ghost arity: string -> nat)
      requires Fits(arity) && k < |rules| && ValidRule(rules[k], arity)
      requires forall a :: ValidAtom(a, arity) ==> Yields(a, arity) == Scan(rules, a, k, 0)
      modifies this
      ensures Fits(arity)
      ensures forall a :: ValidAtom(a, arity) ==> Yields(a, arity) == Scan(rules, a, k + 1, 0)
    {
      hide Yields, Fits;
      for i := 0 to |rules[k].conditions|
        invariant Fits(arity)
        invariant forall a :: ValidAtom(a, arity) ==> Yields(a, arity) == Scan(rules, a, k, i)
      {
        label L:
        InsertCondition(rules, k, i, arity);
        forall a | ValidAtom(a, arity) ensures Yields(a, arity) == Scan(rules, a, k, i + 1) {
          assert old@L(Yields(a, arity)) == Scan(rules, a, k, i);
        }
      }
      forall a | ValidAtom(a, arity) ensures Yields(a, arity) == Scan(rules, a, k + 1, 0) {
        assert Scan(rules, a, k + 1, 0) == Scan(rules, a, k, |rules[k].conditions|);
      }
    }

    method InsertCondition(rules: seq<Rule>, k: nat, i: nat, ghost arity: string -> nat)
      requires Fits(arity) && k < |rules| && i < |rules[k].conditions|
      requires |rules[k].conditions[i].args| == arity(rules[k].conditions[i].pred)
      modifies this
      ensures Fits(arity)
      ensures forall a :: ValidAtom(a, arity) ==> Yields(a, arity) == old(Yields(a, arity)) + MatchOf(rules, a, k, i)
    {
      var condition := rules[k].conditions[i];
      var root := if condition.pred in predicateToRuleGenerator then predicateToRuleGenerator[condition.pred]
                  else LeafGenerator([]);
      var constantArguments := ConstantArguments(condition.args, 0);
      var newroot := Insert(root, constantArguments, Match(k, i));
      predicateToRuleGenerator := predicateToRuleGenerator[condition.pred := newroot];
      var sample := Atom(condition.pred, seq(|condition.args|, _ => ""));
      InsertSpec(root, constantArguments, Match(k, i), sample);
      forall a | ValidAtom(a, arity) ensures Yields(a, arity) == old(Yields(a, arity)) + MatchOf(rules, a, k, i) {
        if a.pred == condition.pred {
          InsertSpec(root, constantArguments, Match(k, i), a);
          UnifiesByConstants(condition, a);
        }
      }
    }

    /** The pairs a linear scan finds, each as often. */
    method Unify(a: Atom) returns (result: seq<Match>)
      requires Valid() && ValidAtom(a, arity)
      ensures multiset(result) == Scan(rules, a, |rules|, 0)
    {
      result := if a.pred in predicateToRuleGenerator then Generate(predicateToRuleGenerator[a.pred], a) else [];
    }
  }
}
