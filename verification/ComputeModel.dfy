/** The evaluation loop (src/translate/build_model.py:306-341) and its correctness. */
module ComputeModel {
  import opened Datalog
  import opened BuildModel
  import U = Unifier

  type Seen = seq<seq<set<Atom>>>

  // ---------- Completeness ----------

  ghost predicate IsSeenBody(r: Rule, seen: seq<set<Atom>>, body: seq<Atom>) {
    && |body| == |r.conditions| == |seen|
    && (forall i :: 0 <= i < |body| ==> body[i] in seen[i])
    && Compatible(r.conditions, body)
  }

  /** Every body of filed atoms has its head in the queue. */
  ghost predicate Complete(rules: seq<Rule>, seen: Seen, atoms: seq<Atom>) {
    && |seen| == |rules|
    && forall k, body :: 0 <= k < |rules| && IsSeenBody(rules[k], seen[k], body) ==> HasHead(rules[k], body, atoms)
  }

  ghost function Filed(seen: Seen, k: nat, c: nat, a: Atom): Seen
    requires k < |seen| && c < |seen[k]|
  {
    seen[k := seen[k][c := seen[k][c] + {a}]]
  }

  lemma {:induction false} StepKeepsComplete(rules: seq<Rule>, seen: Seen, k: nat, c: nat, a: Atom,
                                             before: seq<Atom>, after: seq<Atom>)
    requires Complete(rules, seen, before) && k < |rules| && c < |seen[k]|
    requires Fired(rules[k], Filed(seen, k, c, a)[k], c, a, before, after)
    ensures Complete(rules, Filed(seen, k, c, a), after)
  {
    var seen' := Filed(seen, k, c, a);
    forall l, body | 0 <= l < |rules| && IsSeenBody(rules[l], seen'[l], body) ensures HasHead(rules[l], body, after) {
      if l == k && body[c] == a {
        assert IsChoice(rules[k], seen'[k], c, a, body);
      } else {
        assert IsSeenBody(rules[l], seen[l], body);
        var h :| IsHead(rules[l], body, h) && h in before;
      }
    }
  }

  // ---------- Soundness ----------

  ghost predicate Sound(facts: seq<Atom>, rules: seq<Rule>, atoms: seq<Atom>) {
    forall M, a :: IsModel(facts, rules, M) && a in atoms ==> a in M
  }

  ghost predicate SeenAmong(seen: Seen, atoms: seq<Atom>) {
    forall k, c, a :: 0 <= k < |seen| && 0 <= c < |seen[k]| && a in seen[k][c] ==> a in atoms
  }

  lemma {:induction false} StepKeepsSound(facts: seq<Atom>, rules: seq<Rule>, seen: Seen, k: nat, c: nat, a: Atom,
                                          before: seq<Atom>, after: seq<Atom>)
    requires Sound(facts, rules, before) && SeenAmong(seen, before) && a in before
    requires k < |rules| == |seen| && c < |seen[k]| && ValidShape(rules[k])
    requires Fired(rules[k], seen[k], c, a, before, after)
    ensures Sound(facts, rules, after)
  {
    forall M, h | IsModel(facts, rules, M) && h in after ensures h in M {
      var i :| 0 <= i < |after| && after[i] == h;
      if i < |before| {
        assert h in before;
      } else {
        assert FromChoice(rules[k], seen[k], c, a, after[i]);
        var body :| IsChoice(rules[k], seen[k], c, a, body) && IsHead(rules[k], body, h);
        assert forall j :: 0 <= j < |body| ==> body[j] in before;
        var s := ChoiceIsDerivation(rules[k], M, body);
      }
    }
  }

  // ---------- A finite Herbrand base ----------

  ghost function Tuples(objects: set<string>, n: nat): (r: set<seq<string>>)
    ensures forall t :: t in r <==> |t| == n && forall i :: 0 <= i < n ==> t[i] in objects
  {
    if n == 0 then {[]}
    else
      var r := set o, t | o in objects && t in Tuples(objects, n - 1) :: [o] + t;
      assert forall t :: |t| == n && (forall i :: 0 <= i < n ==> t[i] in objects) ==> t == [t[0]] + t[1..] && t[1..] in Tuples(objects, n - 1);
      r
  }

  ghost function Base(preds: set<string>, objects: set<string>, arity: string -> nat): (r: set<Atom>)
    ensures forall a :: a in r <==> a.pred in preds && |a.args| == arity(a.pred) && forall i :: 0 <= i < |a.args| ==> a.args[i] in objects
  {
    var r := set p, t | p in preds && t in Tuples(objects, arity(p)) :: Atom(p, t);
    assert forall a: Atom :: a.pred in preds && a.args in Tuples(objects, arity(a.pred)) ==> Atom(a.pred, a.args) in r;
    r
  }

  ghost function Predicates(facts: seq<Atom>, rules: seq<Rule>): set<string> {
    (set a | a in facts :: a.pred) + (set r | r in rules :: r.effect.pred)
  }

  ghost function Objects(facts: seq<Atom>, rules: seq<Rule>): set<string> {
    (set a, i | a in facts && 0 <= i < |a.args| :: a.args[i])
    + (set r, i | r in rules && 0 <= i < |r.effect.args| && r.effect.args[i].Const? :: r.effect.args[i].name)
  }

  ghost function HerbrandBase(facts: seq<Atom>, rules: seq<Rule>, arity: string -> nat): set<Atom> {
    Base(Predicates(facts, rules), Objects(facts, rules), arity)
  }

  ghost predicate Within(atoms: seq<Atom>, base: set<Atom>) {
    forall a :: a in atoms ==> a in base
  }

  lemma {:induction false} HeadInBase(facts: seq<Atom>, rules: seq<Rule>, arity: string -> nat, k: nat, body: seq<Atom>, h: Atom)
    requires k < |rules| && ValidRule(rules[k], arity) && IsHead(rules[k], body, h)
    requires forall i :: 0 <= i < |body| ==> body[i] in HerbrandBase(facts, rules, arity)
    ensures h in HerbrandBase(facts, rules, arity)
  {
    var r := rules[k];
    assert r in rules;
    HeadArgsSpec(r, body);
    forall n | 0 <= n < |h.args| ensures h.args[n] in Objects(facts, rules) {
      if r.effect.args[n].Slot? {
        assert BoundBy(r.conditions, n);
        var i :| 0 <= i < |body| && Slot(n) in r.conditions[i].args;
        var l :| 0 <= l < |r.conditions[i].args| && r.conditions[i].args[l] == Slot(n);
        assert h.args[n] == body[i].args[l];
      }
    }
  }

  lemma {:induction false} ChoiceBody(r: Rule, seen: seq<set<Atom>>, c: nat, a: Atom, h: Atom, atoms: seq<Atom>) returns (body: seq<Atom>)
    requires FromChoice(r, seen, c, a, h) && a in atoms
    requires forall k, b :: 0 <= k < |seen| && b in seen[k] ==> b in atoms
    ensures IsHead(r, body, h) && forall j :: 0 <= j < |body| ==> body[j] in atoms
  {
    hide IsHead, Compatible;
    body :| IsChoice(r, seen, c, a, body) && IsHead(r, body, h);
  }

  lemma {:induction false} StepKeepsWithin(facts: seq<Atom>, rules: seq<Rule>, arity: string -> nat, seen: Seen, k: nat, c: nat,
                                           a: Atom, before: seq<Atom>, after: seq<Atom>)
    requires Within(before, HerbrandBase(facts, rules, arity)) && SeenAmong(seen, before) && a in before
    requires k < |rules| == |seen| && c < |seen[k]| && ValidRule(rules[k], arity)
    requires Fired(rules[k], seen[k], c, a, before, after)
    ensures Within(after, HerbrandBase(facts, rules, arity))
  {
    hide HerbrandBase, ValidRule, IsHead, HasHead, IsChoice, FromChoice;
    forall h | h in after ensures h in HerbrandBase(facts, rules, arity) {
      var i :| 0 <= i < |after| && after[i] == h;
      if i < |before| {
        assert h in before;
      } else {
        assert FromChoice(rules[k], seen[k], c, a, after[i]);
        var body := ChoiceBody(rules[k], seen[k], c, a, h, before);
        HeadInBase(facts, rules, arity, k, body, h);
      }
    }
  }

  lemma {:induction false} FactsWithin(facts: seq<Atom>, rules: seq<Rule>, arity: string -> nat)
    requires forall a :: a in facts ==> ValidAtom(a, arity)
    ensures Within(facts, HerbrandBase(facts, rules, arity))
  {
  }

  lemma {:induction false} DistinctFits(s: seq<Atom>, base: set<Atom>)
    requires Distinct(s) && Within(s, base)
    ensures |s| <= |base|
    decreases |s|
  {
    if s != [] {
      var last := s[|s| - 1];
      var front := s[..|s| - 1];
      assert last in base;
      forall a | a in front ensures a in base - {last} {
      }
      DistinctFits(front, base - {last});
    }
  }

  // ---------- The result ----------

  ghost predicate FiledFor(p: Pattern, s: set<Atom>, atoms: seq<Atom>) {
    forall a :: a in s <==> a in atoms && Unifies(p, a)
  }

  /** Filed are exactly the popped atoms that match. */
  ghost predicate AllFiled(rules: seq<Rule>, seen: Seen, atoms: seq<Atom>) {
    && |seen| == |rules|
    && (forall k :: 0 <= k < |rules| ==> |seen[k]| == |rules[k].conditions|)
    && (forall k, c :: 0 <= k < |rules| && 0 <= c < |seen[k]| ==> FiledFor(rules[k].conditions[c], seen[k][c], atoms))
  }

  lemma {:induction false} FixpointIsLeastModel(facts: seq<Atom>, rules: seq<Rule>, seen: Seen, atoms: seq<Atom>)
    requires forall k :: 0 <= k < |rules| ==> Numbered(rules[k]) && Safe(rules[k])
    requires Complete(rules, seen, atoms) && AllFiled(rules, seen, atoms) && Sound(facts, rules, atoms)
    requires facts <= atoms
    ensures IsLeastModel(facts, rules, atoms)
  {
    var M := ToISet(atoms);
    forall k, body, s, h | 0 <= k < |rules| && Derives(rules[k], M, body, s, h) ensures h in M {
      DerivationIsChoice(rules[k], M, body, s, h);
      forall i | 0 <= i < |body| ensures body[i] in seen[k][i] {
        assert FiledFor(rules[k].conditions[i], seen[k][i], atoms);
      }
      assert IsSeenBody(rules[k], seen[k], body);
    }
  }

  // ---------- The loop ----------

  ghost function SeenBy(objs: seq<BuildRule>): Seen
    reads objs
  {
    seq(|objs|, k requires 0 <= k < |objs| reads objs => objs[k].seen)
  }

  /** The rule objects belong to the rules and their indices are consistent. */
  ghost predicate Built(rules: seq<Rule>, objs: seq<BuildRule>)
    reads objs
  {
    && |objs| == |rules|
    && (forall k, l :: 0 <= k < l < |objs| ==> objs[k] != objs[l])
    && (forall k :: 0 <= k < |objs| ==> objs[k].Valid() && objs[k].rule == rules[k])
  }

  method ConvertRules(rules: seq<Rule>, ghost arity: string -> nat) returns (objs: seq<BuildRule>)
    requires forall k :: 0 <= k < |rules| ==> ValidRule(rules[k], arity)
    ensures Built(rules, objs) && fresh(objs)
    ensures AllFiled(rules, SeenBy(objs), [])
  {
    hide BuildRule.Valid, ValidRule, Unifies;
    objs := [];
    for k := 0 to |rules|
      invariant Built(rules[..k], objs) && fresh(objs)
      invariant forall l, c :: 0 <= l < k && 0 <= c < |objs[l].seen| ==> objs[l].seen[c] == {}
    {
      ShapeOf(rules[k], arity);
      var obj := new BuildRule(rules[k]);
      objs := objs + [obj];
    }
    assert rules[..|rules|] == rules;
    NothingFiled(rules, objs);
  }

  lemma {:induction false} ShapeOf(r: Rule, arity: string -> nat)
    requires ValidRule(r, arity)
    ensures Numbered(r) && Safe(r) && ValidShape(r)
  {
  }

  lemma {:induction false} NothingFiled(rules: seq<Rule>, objs: seq<BuildRule>)
    requires Built(rules, objs)
    requires forall l, c :: 0 <= l < |objs| && 0 <= c < |objs[l].seen| ==> objs[l].seen[c] == {}
    ensures AllFiled(rules, SeenBy(objs), [])
  {
  }

  /** One matched condition: file the atom, then fire the rule. */
  method Process(rules: seq<Rule>, objs: seq<BuildRule>, m: U.Match, a: Atom, queue: Queue)
    requires Built(rules, objs) && queue.Valid()
    requires m.rule < |rules| && m.cond < |rules[m.rule].conditions| && Unifies(rules[m.rule].conditions[m.cond], a)
    modifies objs[m.rule], queue
    ensures Built(rules, objs) && queue.Valid() && queue.queuePos == old(queue.queuePos)
    ensures m.rule < |old(SeenBy(objs))| && m.cond < |old(SeenBy(objs))[m.rule]|
    ensures m.rule < |Filed(old(SeenBy(objs)), m.rule, m.cond, a)|
    ensures SeenBy(objs) == Filed(old(SeenBy(objs)), m.rule, m.cond, a)
    ensures Fired(rules[m.rule], Filed(old(SeenBy(objs)), m.rule, m.cond, a)[m.rule], m.cond, a, old(queue.queue), queue.queue)
  {
    hide Fired;
    var obj := objs[m.rule];
    assert forall l :: 0 <= l < |objs| && l != m.rule ==> objs[l] != obj;
    obj.UpdateIndex(a, m.cond);
    obj.Fire(a, m.cond, queue);
    assert SeenBy(objs) == Filed(old(SeenBy(objs)), m.rule, m.cond, a);
  }

  /** While one atom is being processed: it is filed for the matches done so far. */
  ghost predicate PartlyFiled(rules: seq<Rule>, seen: Seen, popped: seq<Atom>, next: Atom, done: seq<U.Match>) {
    && |seen| == |rules|
    && (forall k :: 0 <= k < |rules| ==> |seen[k]| == |rules[k].conditions|)
    && (forall k, c :: 0 <= k < |rules| && 0 <= c < |seen[k]| ==>
          FiledFor(rules[k].conditions[c], seen[k][c], if U.Match(k, c) in done then popped + [next] else popped))
  }

  lemma {:induction false} NoneDone(rules: seq<Rule>, seen: Seen, popped: seq<Atom>, next: Atom)
    requires AllFiled(rules, seen, popped)
    ensures PartlyFiled(rules, seen, popped, next, [])
  {
  }

  lemma {:induction false} FileOneMore(rules: seq<Rule>, seen: Seen, popped: seq<Atom>, next: Atom, done: seq<U.Match>, m: U.Match)
    requires PartlyFiled(rules, seen, popped, next, done)
    requires m.rule < |rules| && m.cond < |rules[m.rule].conditions| && Unifies(rules[m.rule].conditions[m.cond], next)
    ensures PartlyFiled(rules, Filed(seen, m.rule, m.cond, next), popped, next, done + [m])
  {
    var seen' := Filed(seen, m.rule, m.cond, next);
    forall k, c | 0 <= k < |rules| && 0 <= c < |seen'[k]|
      ensures FiledFor(rules[k].conditions[c], seen'[k][c], if U.Match(k, c) in done + [m] then popped + [next] else popped)
    {
      assert FiledFor(rules[k].conditions[c], seen[k][c], if U.Match(k, c) in done then popped + [next] else popped);
    }
  }

  lemma {:induction false} MatchesAreScan(rules: seq<Rule>, a: Atom, matches: seq<U.Match>)
    requires multiset(matches) == U.Scan(rules, a, |rules|, 0)
    ensures forall m :: m in matches <==>
      m.rule < |rules| && m.cond < |rules[m.rule].conditions| && Unifies(rules[m.rule].conditions[m.cond], a)
  {
    forall m ensures m in matches <==>
      m.rule < |rules| && m.cond < |rules[m.rule].conditions| && Unifies(rules[m.rule].conditions[m.cond], a)
    {
      U.ScanSpec(rules, a, |rules|, 0, m);
      assert m in matches <==> multiset(matches)[m] > 0;
    }
  }

  lemma {:induction false} AllMatchesFiled(rules: seq<Rule>, seen: Seen, popped: seq<Atom>, next: Atom, matches: seq<U.Match>)
    requires PartlyFiled(rules, seen, popped, next, matches)
    requires multiset(matches) == U.Scan(rules, next, |rules|, 0)
    ensures AllFiled(rules, seen, popped + [next])
  {
    MatchesAreScan(rules, next, matches);
    forall k, c | 0 <= k < |rules| && 0 <= c < |seen[k]| ensures FiledFor(rules[k].conditions[c], seen[k][c], popped + [next]) {
      assert U.Match(k, c) in matches <==> Unifies(rules[k].conditions[c], next);
    }
  }

  /** What holds of the queue and the indices between steps. */
  ghost predicate LoopInv(facts: seq<Atom>, rules: seq<Rule>, arity: string -> nat, seen: Seen, atoms: seq<Atom>) {
    && facts <= atoms
    && Complete(rules, seen, atoms)
    && Sound(facts, rules, atoms)
    && Within(atoms, HerbrandBase(facts, rules, arity))
  }

  lemma {:induction false} StepKeepsInv(facts: seq<Atom>, rules: seq<Rule>, arity: string -> nat, seen: Seen,
                                        popped: seq<Atom>, next: Atom, done: seq<U.Match>, m: U.Match,
                                        before: seq<Atom>, after: seq<Atom>)
    requires LoopInv(facts, rules, arity, seen, before) && PartlyFiled(rules, seen, popped, next, done)
    requires next in before && forall a :: a in popped ==> a in before
    requires m.rule < |rules| && m.cond < |rules[m.rule].conditions| && ValidRule(rules[m.rule], arity)
    requires Unifies(rules[m.rule].conditions[m.cond], next)
    requires Fired(rules[m.rule], Filed(seen, m.rule, m.cond, next)[m.rule], m.cond, next, before, after)
    ensures LoopInv(facts, rules, arity, Filed(seen, m.rule, m.cond, next), after)
    ensures PartlyFiled(rules, Filed(seen, m.rule, m.cond, next), popped, next, done + [m])
  {
    var seen' := Filed(seen, m.rule, m.cond, next);
    FileOneMore(rules, seen, popped, next, done, m);
    FiledAreAmong(rules, seen', popped, next, done + [m], before);
    FiredGrows(rules[m.rule], seen'[m.rule], m.cond, next, before, after);
    hide Fired, Filed, Complete, Sound, Within, PartlyFiled, SeenAmong, Numbered, Safe, ValidShape, Unifies, HerbrandBase;
    StepKeepsComplete(rules, seen, m.rule, m.cond, next, before, after);
    StepKeepsSound(facts, rules, seen', m.rule, m.cond, next, before, after);
    StepKeepsWithin(facts, rules, arity, seen', m.rule, m.cond, next, before, after);
  }

  lemma {:induction false} FiledAreAmong(rules: seq<Rule>, seen: Seen, popped: seq<Atom>, next: Atom, done: seq<U.Match>,
                                         atoms: seq<Atom>)
    requires PartlyFiled(rules, seen, popped, next, done)
    requires next in atoms && forall a :: a in popped ==> a in atoms
    ensures SeenAmong(seen, atoms)
  {
    forall k, c, a | 0 <= k < |seen| && 0 <= c < |seen[k]| && a in seen[k][c] ensures a in atoms {
      assert FiledFor(rules[k].conditions[c], seen[k][c], if U.Match(k, c) in done then popped + [next] else popped);
    }
  }

  /** The least model of facts and rules, each atom once, facts first. */
  method ComputeModel(facts: seq<Atom>, rules: seq<Rule>, ghost arity: string -> nat) returns (model: seq<Atom>)
    requires Distinct(facts) && forall a :: a in facts ==> ValidAtom(a, arity)
    requires forall k :: 0 <= k < |rules| ==> ValidRule(rules[k], arity)
    ensures Distinct(model) && facts <= model
    ensures IsLeastModel(facts, rules, model)
  {
    hide LoopInv, AllFiled, HerbrandBase, IsLeastModel, Built, SeenBy, ValidRule, U.Unifier.Valid;
    var objs := ConvertRules(rules, arity);
    var unifier := new U.Unifier(rules, arity);
    var queue := new Queue(facts);
    StartInv(facts, rules, arity, SeenBy(objs));
    ghost var base := HerbrandBase(facts, rules, arity);
    while queue.NonEmpty()
      invariant fresh(objs) && fresh(queue) && fresh(unifier)
      invariant Built(rules, objs) && queue.Valid()
      invariant unifier.Valid() && unifier.rules == rules && unifier.arity == arity
      invariant LoopInv(facts, rules, arity, SeenBy(objs), queue.queue)
      invariant AllFiled(rules, SeenBy(objs), queue.queue[..queue.queuePos])
      decreases |base| - queue.queuePos
    {
      QueueFits(facts, rules, arity, SeenBy(objs), queue.queue);
      ghost var popped := queue.queue[..queue.queuePos];
      var nextAtom := queue.Pop();
      AtomValid(facts, rules, arity, SeenBy(objs), queue.queue, nextAtom);
      var matches := unifier.Unify(nextAtom);
      FireMatches(facts, rules, arity, objs, popped, nextAtom, matches, queue);
    }
    assert queue.queue[..queue.queuePos] == queue.queue;
    ModelFromInv(facts, rules, arity, SeenBy(objs), queue.queue);
    return queue.queue;
  }

  method FireMatches(ghost facts: seq<Atom>, rules: seq<Rule>, ghost arity: string -> nat, objs: seq<BuildRule>,
                     ghost popped: seq<Atom>, nextAtom: Atom, matches: seq<U.Match>, queue: Queue)
    requires forall k :: 0 <= k < |rules| ==> ValidRule(rules[k], arity)
    requires Built(rules, objs) && queue.Valid() && LoopInv(facts, rules, arity, SeenBy(objs), queue.queue)
    requires AllFiled(rules, SeenBy(objs), popped) && queue.queuePos == |popped| + 1
    requires popped + [nextAtom] <= queue.queue
    requires multiset(matches) == U.Scan(rules, nextAtom, |rules|, 0)
    modifies objs, queue
    ensures Built(rules, objs) && queue.Valid() && queue.queuePos == old(queue.queuePos)
    ensures LoopInv(facts, rules, arity, SeenBy(objs), queue.queue)
    ensures AllFiled(rules, SeenBy(objs), queue.queue[..queue.queuePos])
  {
    hide LoopInv, AllFiled, PartlyFiled, ValidRule, BuildRule.Valid, Unifies, Queue.Valid, Built, SeenBy, U.Scan;
    MatchesAreScan(rules, nextAtom, matches);
    NoneDone(rules, SeenBy(objs), popped, nextAtom);
    for i := 0 to |matches|
      invariant Built(rules, objs) && queue.Valid() && queue.queuePos == |popped| + 1
      invariant popped + [nextAtom] <= queue.queue
      invariant LoopInv(facts, rules, arity, SeenBy(objs), queue.queue)
      invariant PartlyFiled(rules, SeenBy(objs), popped, nextAtom, matches[..i])
    {
      assert matches[i] in matches;
      FireMatch(facts, rules, arity, objs, popped, nextAtom, matches[..i], matches[i], queue);
      assert matches[..i] + [matches[i]] == matches[..i + 1];
    }
    assert matches[..|matches|] == matches;
    AllMatchesFiled(rules, SeenBy(objs), popped, nextAtom, matches);
    assert popped + [nextAtom] == queue.queue[..queue.queuePos];
  }

  method FireMatch(ghost facts: seq<Atom>, rules: seq<Rule>, ghost arity: string -> nat, objs: seq<BuildRule>,
                   ghost popped: seq<Atom>, nextAtom: Atom, ghost done: seq<U.Match>, m: U.Match, queue: Queue)
    requires m.rule < |rules| && ValidRule(rules[m.rule], arity)
    requires m.cond < |rules[m.rule].conditions| && Unifies(rules[m.rule].conditions[m.cond], nextAtom)
    requires Built(rules, objs) && queue.Valid() && queue.queuePos == |popped| + 1 && popped + [nextAtom] <= queue.queue
    requires LoopInv(facts, rules, arity, SeenBy(objs), queue.queue)
    requires PartlyFiled(rules, SeenBy(objs), popped, nextAtom, done)
    modifies objs, queue
    ensures Built(rules, objs) && queue.Valid() && queue.queuePos == |popped| + 1 && popped + [nextAtom] <= queue.queue
    ensures LoopInv(facts, rules, arity, SeenBy(objs), queue.queue)
    ensures PartlyFiled(rules, SeenBy(objs), popped, nextAtom, done + [m])
  {
    hide LoopInv, PartlyFiled, Filed, ValidRule, BuildRule.Valid, Unifies, Queue.Valid, SeenBy, Fired;
    assert objs[m.rule] in objs;
    ghost var seen, before := SeenBy(objs), queue.queue;
    Process(rules, objs, m, nextAtom, queue);
    PrefixMembers(popped, nextAtom, before);
    FiredGrows(rules[m.rule], Filed(seen, m.rule, m.cond, nextAtom)[m.rule], m.cond, nextAtom, before, queue.queue);
    StepKeepsInv(facts, rules, arity, seen, popped, nextAtom, done, m, before, queue.queue);
  }

  lemma {:induction false} PrefixMembers(popped: seq<Atom>, next: Atom, atoms: seq<Atom>)
    requires popped + [next] <= atoms
    ensures next in atoms && forall a :: a in popped ==> a in atoms
  {
    assert atoms[|popped|] == (popped + [next])[|popped|];
    forall a | a in popped ensures a in atoms {
      var i :| 0 <= i < |popped| && popped[i] == a;
      assert atoms[i] == (popped + [next])[i];
    }
  }

  lemma {:induction false} FiredGrows(r: Rule, seen: seq<set<Atom>>, c: nat, a: Atom, before: seq<Atom>, after: seq<Atom>)
    requires Fired(r, seen, c, a, before, after)
    ensures before <= after
  {
  }

  lemma {:induction false} StartInv(facts: seq<Atom>, rules: seq<Rule>, arity: string -> nat, seen: Seen)
    requires forall a :: a in facts ==> ValidAtom(a, arity)
    requires forall k :: 0 <= k < |rules| ==> ValidRule(rules[k], arity)
    requires AllFiled(rules, seen, [])
    ensures LoopInv(facts, rules, arity, seen, facts)
  {
    FactsWithin(facts, rules, arity);
    forall k, body | 0 <= k < |rules| ensures !IsSeenBody(rules[k], seen[k], body) {
      NothingSeen(rules, arity, seen, k, body);
    }
  }

  lemma {:induction false} NothingSeen(rules: seq<Rule>, arity: string -> nat, seen: Seen, k: nat, body: seq<Atom>)
    requires k < |rules| && ValidRule(rules[k], arity) && AllFiled(rules, seen, [])
    ensures !IsSeenBody(rules[k], seen[k], body)
  {
    assert |rules[k].conditions| > 0;
    assert FiledFor(rules[k].conditions[0], seen[k][0], []);
  }

  lemma {:induction false} QueueFits(facts: seq<Atom>, rules: seq<Rule>, arity: string -> nat, seen: Seen, atoms: seq<Atom>)
    requires LoopInv(facts, rules, arity, seen, atoms) && Distinct(atoms)
    ensures |atoms| <= |HerbrandBase(facts, rules, arity)|
  {
    DistinctFits(atoms, HerbrandBase(facts, rules, arity));
  }

  lemma {:induction false} AtomValid(facts: seq<Atom>, rules: seq<Rule>, arity: string -> nat, seen: Seen, atoms: seq<Atom>, a: Atom)
    requires LoopInv(facts, rules, arity, seen, atoms) && a in atoms
    ensures ValidAtom(a, arity)
  {
  }

  lemma {:induction false} ModelFromInv(facts: seq<Atom>, rules: seq<Rule>, arity: string -> nat, seen: Seen, atoms: seq<Atom>)
    requires forall k :: 0 <= k < |rules| ==> ValidRule(rules[k], arity)
    requires LoopInv(facts, rules, arity, seen, atoms) && AllFiled(rules, seen, atoms)
    ensures IsLeastModel(facts, rules, atoms) && facts <= atoms
  {
    FixpointIsLeastModel(facts, rules, seen, atoms);
  }
}
