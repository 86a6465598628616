/** Semi-naive evaluation of the grounding program (src/translate/build_model.py). */
module BuildModel {
  import opened Datalog
  import U = Unifier

  // ---------- Choices of body atoms ----------

  ghost function Without<T>(s: seq<T>, c: nat): (r: seq<T>)
    requires c < |s|
    ensures |r| == |s| - 1
  {
    s[..c] + s[c + 1..]
  }

  ghost function With<T>(s: seq<T>, c: nat, x: T): (r: seq<T>)
    requires c <= |s|
    ensures |r| == |s| + 1
  {
    s[..c] + [x] + s[c..]
  }

  /** A compatible body whose atom for condition c is new and whose other atoms were seen before. */
  ghost predicate IsChoice(r: Rule, seen: seq<set<Atom>>, c: nat, newAtom: Atom, body: seq<Atom>) {
    && |body| == |r.conditions| == |seen| && c < |body|
    && body[c] == newAtom
    && (forall i :: 0 <= i < |body| && i != c ==> body[i] in seen[i])
    && Compatible(r.conditions, body)
  }

  lemma {:induction false} ChoiceWasSeen(r: Rule, seen: seq<set<Atom>>, c: nat, newAtom: Atom, body: seq<Atom>, i: nat)
    requires IsChoice(r, seen, c, newAtom, body) && i < |seen| && i != c
    ensures body[i] in seen[i]
  {
  }

  lemma {:induction false} AssignConcat(eff: seq<Term>, bs: seq<(nat, string)>, cs: seq<(nat, string)>)
    requires forall b :: b in bs + cs ==> b.0 < |eff|
    ensures (forall b :: b in bs ==> b.0 < |eff|) && (forall b :: b in cs ==> b.0 < |eff|)
    ensures Assign(eff, bs + cs) == Assign(Assign(eff, bs), cs)
    decreases |bs|
  {
    assert forall b :: b in bs ==> b in bs + cs;
    assert forall b :: b in cs ==> b in bs + cs;
    if bs == [] {
      assert bs + cs == cs;
    } else {
      assert bs[0] in bs;
      assert (bs + cs)[1..] == bs[1..] + cs;
      AssignConcat(eff[bs[0].0 := Const(bs[0].1)], bs[1..], cs);
    }
  }

  ghost predicate SameArity(conds: seq<Pattern>, body: seq<Atom>) {
    |conds| == |body| && forall i :: 0 <= i < |conds| ==> |conds[i].args| == |body[i].args|
  }

  ghost function RestBindings(conds: seq<Pattern>, body: seq<Atom>, c: nat): seq<(nat, string)>
    requires SameArity(conds, body) && c < |body|
  {
    AllBindings(Without(conds, c), Without(body, c))
  }

  lemma {:induction false} BindingFrom(conds: seq<Pattern>, body: seq<Atom>, i: nat, k: nat)
    requires SameArity(conds, body) && i < |conds| && k < |conds[i].args| && conds[i].args[k].Slot?
    ensures (conds[i].args[k].n, body[i].args[k]) in AllBindings(conds, body)
  {
    AllBindingsFrom(conds, body, (conds[i].args[k].n, body[i].args[k]));
  }

  lemma {:induction false} BindingsSplit(conds: seq<Pattern>, body: seq<Atom>, c: nat, b: (nat, string))
    requires SameArity(conds, body) && c < |body|
    ensures b in AllBindings(conds, body) <==> b in GetBindings(conds[c], body[c]) || b in RestBindings(conds, body, c)
  {
    hide AllBindings;
    var conds', rest := Without(conds, c), Without(body, c);
    if b in AllBindings(conds, body) {
      var i, k := BindingOrigin(conds, body, b);
      if i != c {
        var j := if i < c then i else i - 1;
        assert conds'[j] == conds[i] && rest[j] == body[i];
        BindingFrom(conds', rest, j, k);
      }
    }
    if b in RestBindings(conds, body, c) {
      var j, k := BindingOrigin(conds', rest, b);
      var i := if j < c then j else j + 1;
      assert conds'[j] == conds[i] && rest[j] == body[i];
      BindingFrom(conds, body, i, k);
    }
    if b in GetBindings(conds[c], body[c]) {
      var k :| 0 <= k < |conds[c].args| && conds[c].args[k] == Slot(b.0) && body[c].args[k] == b.1;
      BindingFrom(conds, body, c, k);
    }
  }

  /** Binding condition c first and the others afterwards yields the head, whatever the others overwrite. */
  lemma {:induction false} HeadFromOrder(r: Rule, body: seq<Atom>, c: nat, eff: seq<Term>)
    requires Numbered(r) && |body| == |r.conditions| && c < |body| && Compatible(r.conditions, body)
    requires forall b :: b in GetBindings(r.conditions[c], body[c]) ==> b.0 < |r.effect.args|
    requires var eff0 := Assign(r.effect.args, GetBindings(r.conditions[c], body[c]));
      && |eff| == |eff0|
      && forall n :: 0 <= n < |eff| && eff[n] != eff0[n] ==> exists b :: b in RestBindings(r.conditions, body, c) && b.0 == n
    ensures forall b :: b in RestBindings(r.conditions, body, c) ==> b.0 < |eff|
    ensures Assign(eff, RestBindings(r.conditions, body, c)) == HeadArgs(r, body)
  {
    var first, rest, all := GetBindings(r.conditions[c], body[c]), RestBindings(r.conditions, body, c), AllBindings(r.conditions, body);
    forall b ensures b in all <==> b in first + rest {
      BindingsSplit(r.conditions, body, c, b);
    }
    BindingsFunctional(r.conditions, body);
    BindingsInRange(r, body);
    assert forall b :: b in rest ==> b in all;
    AssignConcat(r.effect.args, first, rest);
    AssignSame(Assign(r.effect.args, first), eff, rest, rest);
    AssignSame(r.effect.args, r.effect.args, first + rest, all);
  }

  ghost predicate IsHead(r: Rule, body: seq<Atom>, h: Atom) {
    Numbered(r) && Safe(r) && |body| == |r.conditions| && Compatible(r.conditions, body) && h == Head(r, body)
  }

  ghost predicate HasHead(r: Rule, body: seq<Atom>, atoms: seq<Atom>) {
    exists h :: IsHead(r, body, h) && h in atoms
  }

  ghost predicate FromChoice(r: Rule, seen: seq<set<Atom>>, c: nat, newAtom: Atom, h: Atom) {
    exists body :: IsChoice(r, seen, c, newAtom, body) && IsHead(r, body, h)
  }

  /** The heads of all bodies that use newAtom for condition c, and no other atoms, were added. */
  ghost predicate Fired(r: Rule, seen: seq<set<Atom>>, c: nat, newAtom: Atom, before: seq<Atom>, after: seq<Atom>) {
    && before <= after
    && (forall body :: IsChoice(r, seen, c, newAtom, body) ==> HasHead(r, body, after))
    && (forall i :: |before| <= i < |after| ==> FromChoice(r, seen, c, newAtom, after[i]))
  }

  // ---------- Join keys ----------

  function SharedVars(left: seq<Term>, right: seq<Term>, n: nat): (r: seq<nat>)
    ensures forall v: nat :: v in r <==> v < n && Slot(v) in left && Slot(v) in right
  {
    if n == 0 then []
    else SharedVars(left, right, n - 1) + (if Slot(n - 1) in left && Slot(n - 1) in right then [n - 1] else [])
  }

  function IndexOf(args: seq<Term>, t: Term): (i: nat)
    requires t in args
    ensures i < |args| && args[i] == t && t !in args[..i]
  {
    if args[0] == t then 0 else 1 + IndexOf(args[1..], t)
  }

  /** The shared variables of a join rule in increasing order. */
  function CommonVars(r: Rule): seq<nat>
    requires |r.conditions| == 2
  {
    SharedVars(r.conditions[0].args, r.conditions[1].args, |r.effect.args|)
  }

  function KeyAt(vars: seq<nat>, p: Pattern, a: Atom): (key: seq<string>)
    requires |p.args| == |a.args| && forall v :: v in vars ==> Slot(v) in p.args
    ensures |key| == |vars|
    ensures forall i :: 0 <= i < |vars| ==> key[i] == a.args[IndexOf(p.args, Slot(vars[i]))]
  {
    seq(|vars|, i requires 0 <= i < |vars| => a.args[IndexOf(p.args, Slot(vars[i]))])
  }

  function JoinKey(r: Rule, c: nat, a: Atom): seq<string>
    requires |r.conditions| == 2 && c < 2 && |r.conditions[c].args| == |a.args|
  {
    KeyAt(CommonVars(r), r.conditions[c], a)
  }

  ghost function Pair(c: nat, newAtom: Atom, other: Atom): seq<Atom> {
    if c == 0 then [newAtom, other] else [other, newAtom]
  }

  ghost predicate Agree(p: Pattern, a: Atom, q: Pattern, o: Atom)
    requires |p.args| == |a.args| && |q.args| == |o.args|
  {
    forall k, l | 0 <= k < |p.args| && 0 <= l < |q.args| :: p.args[k].Slot? && p.args[k] == q.args[l] ==> a.args[k] == o.args[l]
  }

  lemma {:induction false} KeysMeanAgree(r: Rule, c: nat, a: Atom, o: Atom)
    requires Numbered(r) && r.kind.Join? && ValidShape(r) && c < 2
    requires |r.conditions[c].args| == |a.args| && |r.conditions[1 - c].args| == |o.args|
    ensures JoinKey(r, c, a) == JoinKey(r, 1 - c, o) <==> Agree(r.conditions[c], a, r.conditions[1 - c], o)
  {
    if JoinKey(r, c, a) == JoinKey(r, 1 - c, o) {
      EqualKeysAgree(r, c, a, o);
    }
    if Agree(r.conditions[c], a, r.conditions[1 - c], o) {
      AgreeingKeysEqual(r, c, a, o);
    }
  }

  lemma {:induction false} EqualKeysAgree(r: Rule, c: nat, a: Atom, o: Atom)
    requires Numbered(r) && r.kind.Join? && ValidShape(r) && c < 2
    requires |r.conditions[c].args| == |a.args| && |r.conditions[1 - c].args| == |o.args|
    requires JoinKey(r, c, a) == JoinKey(r, 1 - c, o)
    ensures Agree(r.conditions[c], a, r.conditions[1 - c], o)
  {
    var vars, p, q := CommonVars(r), r.conditions[c], r.conditions[1 - c];
    var k0, k1 := JoinKey(r, c, a), JoinKey(r, 1 - c, o);
    assert NoRepeatedVariable(p) && NoRepeatedVariable(q);
    forall k, l | 0 <= k < |p.args| && 0 <= l < |q.args| && p.args[k].Slot? && p.args[k] == q.args[l]
      ensures a.args[k] == o.args[l]
    {
      var v := p.args[k].n;
      assert Slot(v) in p.args && Slot(v) in q.args;
      assert v in vars;
      var i :| 0 <= i < |vars| && vars[i] == v;
      assert IndexOf(p.args, Slot(v)) == k && IndexOf(q.args, Slot(v)) == l;
      assert k0[i] == k1[i];
    }
  }

  lemma {:induction false} AgreeingKeysEqual(r: Rule, c: nat, a: Atom, o: Atom)
    requires r.kind.Join? && ValidShape(r) && c < 2
    requires |r.conditions[c].args| == |a.args| && |r.conditions[1 - c].args| == |o.args|
    requires Agree(r.conditions[c], a, r.conditions[1 - c], o)
    ensures JoinKey(r, c, a) == JoinKey(r, 1 - c, o)
  {
    var vars, p, q := CommonVars(r), r.conditions[c], r.conditions[1 - c];
    var k0, k1 := JoinKey(r, c, a), JoinKey(r, 1 - c, o);
    forall i | 0 <= i < |vars| ensures k0[i] == k1[i] {
      assert vars[i] in vars;
      var k, l := IndexOf(p.args, Slot(vars[i])), IndexOf(q.args, Slot(vars[i]));
      assert p.args[k] == q.args[l];
    }
  }

  lemma {:induction false} PairCompatible(r: Rule, c: nat, a: Atom, o: Atom)
    requires Numbered(r) && |r.conditions| == 2 && c < 2
    requires Unifies(r.conditions[c], a) && Unifies(r.conditions[1 - c], o)
    ensures Compatible(r.conditions, Pair(c, a, o)) <==> Agree(r.conditions[c], a, r.conditions[1 - c], o)
  {
    var body := Pair(c, a, o);
    assert body[c] == a && body[1 - c] == o;
    assert Compatible(r.conditions, body) <==>
      forall i, j :: 0 <= i < 2 && 0 <= j < 2 ==> Agree(r.conditions[i], body[i], r.conditions[j], body[j]);
    SameCondition(r.conditions[c], a);
    SameCondition(r.conditions[1 - c], o);
    assert Agree(r.conditions[c], body[c], r.conditions[1 - c], body[1 - c])
      <==> Agree(r.conditions[1 - c], body[1 - c], r.conditions[c], body[c]);
  }

  /** Two matching atoms of a join rule fit together exactly when their keys agree. */
  lemma {:induction false} KeysAgree(r: Rule, c: nat, a: Atom, o: Atom)
    requires Numbered(r) && r.kind.Join? && ValidShape(r) && c < 2
    requires Unifies(r.conditions[c], a) && Unifies(r.conditions[1 - c], o)
    ensures Compatible(r.conditions, Pair(c, a, o)) <==> JoinKey(r, c, a) == JoinKey(r, 1 - c, o)
  {
    hide Compatible, JoinKey, Agree, Numbered, NoFree;
    KeysMeanAgree(r, c, a, o);
    PairCompatible(r, c, a, o);
  }

  lemma {:induction false} SameCondition(p: Pattern, a: Atom)
    requires |p.args| == |a.args| && NoRepeatedVariable(p)
    ensures Agree(p, a, p, a)
  {
    forall k, l | 0 <= k < |p.args| && 0 <= l < |p.args| && p.args[k].Slot? && p.args[k] == p.args[l] ensures k == l {
    }
  }

  // ---------- Cartesian products ----------

  /** itertools.product */
  function CartesianProduct<T>(factors: seq<seq<T>>): seq<seq<T>>
    decreases |factors|
  {
    if factors == [] then [[]] else Prepend(factors[0], CartesianProduct(factors[1..]))
  }

  function Prepend<T>(xs: seq<T>, rests: seq<seq<T>>): (r: seq<seq<T>>)
    decreases |xs|
  {
    if xs == [] then [] else PrependOne(xs[0], rests) + Prepend(xs[1..], rests)
  }

  function PrependOne<T>(x: T, rests: seq<seq<T>>): (r: seq<seq<T>>)
    ensures |r| == |rests| && forall i :: 0 <= i < |rests| ==> r[i] == [x] + rests[i]
  {
    seq(|rests|, i requires 0 <= i < |rests| => [x] + rests[i])
  }

  lemma {:induction false} PrependSpec<T>(xs: seq<T>, rests: seq<seq<T>>, t: seq<T>)
    ensures t in Prepend(xs, rests) <==> |t| > 0 && t[0] in xs && t[1..] in rests
    decreases |xs|
  {
    if xs != [] {
      PrependSpec(xs[1..], rests, t);
      var one := PrependOne(xs[0], rests);
      if t in one {
        var i :| 0 <= i < |rests| && one[i] == t;
        assert t[1..] == rests[i];
      }
      if |t| > 0 && t[0] == xs[0] && t[1..] in rests {
        var i :| 0 <= i < |rests| && rests[i] == t[1..];
        assert one[i] == t;
      }
    }
  }

  lemma {:induction false} ProductSpec<T>(factors: seq<seq<T>>, t: seq<T>)
    ensures t in CartesianProduct(factors)
      <==> |t| == |factors| && forall i :: 0 <= i < |t| ==> t[i] in factors[i]
    decreases |factors|
  {
    if factors != [] {
      PrependSpec(factors[0], CartesianProduct(factors[1..]), t);
      if |t| > 0 {
        ProductSpec(factors[1..], t[1..]);
      }
    }
  }

  function Chain<T>(lists: seq<seq<T>>): seq<T>
    decreases |lists|
  {
    if lists == [] then [] else lists[0] + Chain(lists[1..])
  }

  // ---------- The queue ----------

  ghost predicate Distinct(s: seq<Atom>) {
    forall i, j :: 0 <= i < j < |s| ==> s[i] != s[j]
  }

  class Queue {
    var queue: seq<Atom>
    var queuePos: nat
    var enqueued: set<Atom>
    var numPushes: nat

    ghost predicate Valid()
      reads this
    {
      queuePos <= |queue| && (forall a :: a in enqueued <==> a in queue) && Distinct(queue)
    }

    constructor (atoms: seq<Atom>)
      requires Distinct(atoms)
      ensures Valid() && queue == atoms && queuePos == 0
    {
      queue, queuePos, numPushes := atoms, 0, |atoms|;
      enqueued := set a | a in atoms;
    }

    predicate NonEmpty()
      reads this
    {
      queuePos < |queue|
    }

    method Push(pred: string, args: seq<Term>)
      requires Valid() && AllConst(args)
      modifies this
      ensures Valid() && queuePos == old(queuePos)
      ensures var a := Atom(pred, Names(args));
        queue == if a in old(enqueued) then old(queue) else old(queue) + [a]
    {
      numPushes := numPushes + 1;
      var eff := Atom(pred, Names(args));
      if eff !in enqueued {
        enqueued := enqueued + {eff};
        queue := queue + [eff];
      }
    }

    method Pop() returns (result: Atom)
      requires Valid() && NonEmpty()
      modifies this
      ensures Valid() && queue == old(queue) && queuePos == old(queuePos) + 1
      ensures result == queue[old(queuePos)]
    {
      result := queue[queuePos];
      queuePos := queuePos + 1;
    }
  }

  /** The loop of prepare_effect and of the join rule: an atom's objects written into head arguments. */
  method WriteArgs(eff: seq<Term>, cond: Pattern, a: Atom) returns (r: seq<Term>)
    requires |cond.args| == |a.args|
    requires forall n: nat :: Slot(n) in cond.args ==> n < |eff|
    ensures forall b :: b in GetBindings(cond, a) ==> b.0 < |eff|
    ensures r == Assign(eff, GetBindings(cond, a))
  {
    r := eff;
    assert cond == Pattern(cond.pred, cond.args[0..]) && a == Atom(a.pred, a.args[0..]);
    for i := 0 to |cond.args|
      invariant |r| == |eff|
      invariant forall b :: b in GetBindings(Pattern(cond.pred, cond.args[i..]), Atom(a.pred, a.args[i..])) ==> b.0 < |eff|
      invariant Assign(eff, GetBindings(cond, a))
             == Assign(r, GetBindings(Pattern(cond.pred, cond.args[i..]), Atom(a.pred, a.args[i..])))
    {
      var rest := GetBindings(Pattern(cond.pred, cond.args[i..][1..]), Atom(a.pred, a.args[i..][1..]));
      assert cond.args[i..][1..] == cond.args[i + 1..] && a.args[i..][1..] == a.args[i + 1..];
      if cond.args[i].Slot? {
        assert GetBindings(Pattern(cond.pred, cond.args[i..]), Atom(a.pred, a.args[i..]))
            == [(cond.args[i].n, a.args[i])] + rest;
        r := r[cond.args[i].n := Const(a.args[i])];
      }
    }
  }

  function CountEmpty(lists: seq<seq<Atom>>): (n: nat)
    ensures n == 0 <==> forall i :: 0 <= i < |lists| ==> lists[i] != []
    decreases |lists|
  {
    if lists == [] then 0 else (if lists[0] == [] then 1 else 0) + CountEmpty(lists[1..])
  }

  lemma {:induction false} CountEmptyUpdate(lists: seq<seq<Atom>>, c: nat, list: seq<Atom>)
    requires c < |lists| && list != []
    ensures CountEmpty(lists[c := list]) == CountEmpty(lists) - if lists[c] == [] then 1 else 0
    decreases |lists|
  {
    if c == 0 {
      assert lists[c := list][1..] == lists[1..];
    } else {
      CountEmptyUpdate(lists[1..], c - 1, list);
      assert lists[c := list][1..] == lists[1..][c - 1 := list];
    }
  }

  // ---------- Rules with their indices ----------

  ghost predicate Bucketed(m: map<seq<string>, seq<Atom>>, key: seq<string>, a: Atom) {
    key in m && a in m[key]
  }

  /** m files exactly the atoms of s, each under its join key for condition c. */
  ghost predicate Indexes(r: Rule, c: nat, m: map<seq<string>, seq<Atom>>, s: set<Atom>)
    requires |r.conditions| == 2 && c < 2
  {
    && (forall a :: a in s ==> Unifies(r.conditions[c], a) && Bucketed(m, JoinKey(r, c, a), a))
    && (forall key, a :: Bucketed(m, key, a) ==> a in s && Unifies(r.conditions[c], a) && JoinKey(r, c, a) == key)
  }

  lemma {:induction false} IndexesUpdate(r: Rule, c: nat, m: map<seq<string>, seq<Atom>>, s: set<Atom>, a: Atom)
    requires |r.conditions| == 2 && c < 2 && Indexes(r, c, m, s) && Unifies(r.conditions[c], a)
    ensures var key := JoinKey(r, c, a);
      Indexes(r, c, m[key := (if key in m then m[key] else []) + [a]], s + {a})
  {
    var key := JoinKey(r, c, a);
    var m' := m[key := (if key in m then m[key] else []) + [a]];
    forall k, b | Bucketed(m', k, b) ensures (b == a && k == key) || Bucketed(m, k, b) {
    }
    forall b | b in s + {a} ensures Bucketed(m', JoinKey(r, c, b), b) {
      if b != a {
        assert Bucketed(m, JoinKey(r, c, b), b);
      }
    }
  }

  class BuildRule {
    const rule: Rule
    const commonVarPositions: seq<seq<nat>>
    var atomsByKey: seq<map<seq<string>, seq<Atom>>>
    var atomsByIndex: seq<seq<Atom>>
    var emptyAtomListNo: nat
    ghost var seen: seq<set<Atom>>

    ghost predicate Valid()
      reads this
    {
      && Numbered(rule) && Safe(rule) && ValidShape(rule)
      && |seen| == |rule.conditions|
      && (forall c, a :: 0 <= c < |seen| && a in seen[c] ==> Unifies(rule.conditions[c], a))
      && (rule.kind.Join? ==> ValidJoin())
      && (rule.kind.Product? ==> ValidProduct())
    }

    ghost predicate ValidJoin()
      requires |seen| == |rule.conditions| == 2
      reads this
    {
      && |atomsByKey| == |commonVarPositions| == 2
      && (forall c :: 0 <= c < 2 ==> commonVarPositions[c] == Positions(rule, c))
      && (forall c :: 0 <= c < 2 ==> Indexes(rule, c, atomsByKey[c], seen[c]))
    }

    ghost predicate ValidProduct()
      requires |seen| == |rule.conditions|
      reads this
    {
      && |atomsByIndex| == |seen|
      && (forall c, a :: 0 <= c < |seen| ==> (a in seen[c] <==> a in atomsByIndex[c]))
      && emptyAtomListNo == CountEmpty(atomsByIndex)
    }

    constructor (r: Rule)
      requires Numbered(r) && Safe(r) && ValidShape(r)
      ensures Valid() && rule == r && forall c :: 0 <= c < |seen| ==> seen[c] == {}
    {
      rule := r;
      commonVarPositions := if r.kind.Join? then [Positions(r, 0), Positions(r, 1)] else [];
      atomsByKey := [map[], map[]];
      atomsByIndex := seq(|r.conditions|, _ => []);
      emptyAtomListNo := |r.conditions|;
      seen := seq(|r.conditions|, _ => {});
      new;
      AllEmpty(|rule.conditions|);
    }

    /** Files an atom under the condition it matched. */
    method UpdateIndex(newAtom: Atom, c: nat)
      requires Valid() && c < |rule.conditions| && Unifies(rule.conditions[c], newAtom)
      modifies this
      ensures Valid() && seen == old(seen)[c := old(seen)[c] + {newAtom}]
    {
      if rule.kind.Join? {
        var key := KeyFrom(newAtom, c);
        assert key == JoinKey(rule, c, newAtom);
        IndexesUpdate(rule, c, atomsByKey[c], seen[c], newAtom);
        var bucket := if key in atomsByKey[c] then atomsByKey[c][key] else [];
        atomsByKey := atomsByKey[c := atomsByKey[c][key := bucket + [newAtom]]];
      } else if rule.kind.Product? {
        CountEmptyUpdate(atomsByIndex, c, atomsByIndex[c] + [newAtom]);
        if atomsByIndex[c] == [] {
          emptyAtomListNo := emptyAtomListNo - 1;
        }
        atomsByIndex := atomsByIndex[c := atomsByIndex[c] + [newAtom]];
      }
      seen := seen[c := seen[c] + {newAtom}];
    }

    method PrepareEffect(newAtom: Atom, c: nat) returns (effectArgs: seq<Term>)
      requires Valid() && c < |rule.conditions| && Unifies(rule.conditions[c], newAtom)
      ensures forall b :: b in GetBindings(rule.conditions[c], newAtom) ==> b.0 < |rule.effect.args|
      ensures effectArgs == Assign(rule.effect.args, GetBindings(rule.conditions[c], newAtom))
    {
      effectArgs := WriteArgs(rule.effect.args, rule.conditions[c], newAtom);
    }

    method FireProject(newAtom: Atom, c: nat, queue: Queue)
      requires Valid() && queue.Valid() && rule.kind.Project?
      requires c < |rule.conditions| && Unifies(rule.conditions[c], newAtom)
      modifies queue
      ensures queue.Valid() && queue.queuePos == old(queue.queuePos)
      ensures Fired(rule, seen, c, newAtom, old(queue.queue), queue.queue)
    {
      var effectArgs := PrepareEffect(newAtom, c);
      SingleBody(rule, newAtom);
      queue.Push(rule.effect.pred, effectArgs);
      assert IsChoice(rule, seen, c, newAtom, [newAtom]);
      assert IsHead(rule, [newAtom], Atom(rule.effect.pred, Names(effectArgs)));
      forall body | IsChoice(rule, seen, c, newAtom, body) ensures body == [newAtom] {
      }
    }

    method FireJoin(newAtom: Atom, c: nat, queue: Queue)
      requires Valid() && queue.Valid() && rule.kind.Join?
      requires c < |rule.conditions| && Unifies(rule.conditions[c], newAtom)
      modifies queue
      ensures queue.Valid() && queue.queuePos == old(queue.queuePos)
      ensures Fired(rule, seen, c, newAtom, old(queue.queue), queue.queue)
    {
      hide IsHead, HasHead, Numbered, Safe, NoFree, JoinKey, Bucketed;
      var effectArgs := PrepareEffect(newAtom, c);
      var key := KeyFrom(newAtom, c);
      assert key == JoinKey(rule, c, newAtom) by { KeyIsJoinKey(newAtom, c); }
      var atoms := if key in atomsByKey[1 - c] then atomsByKey[1 - c][key] else [];
      ArePartners(newAtom, c, atoms);
      JoinWith(rule, newAtom, c, atoms, effectArgs, queue);
      forall body | IsChoice(rule, seen, c, newAtom, body) ensures HasHead(rule, body, queue.queue) {
        IsListed(newAtom, c, atoms, body);
      }
      forall k | |old(queue.queue)| <= k < |queue.queue| ensures FromChoice(rule, seen, c, newAtom, queue.queue[k]) {
        assert FromPartner(rule, c, newAtom, atoms, queue.queue[k]);
        var o :| o in atoms && IsHead(rule, Pair(c, newAtom, o), queue.queue[k]);
        assert IsChoice(rule, seen, c, newAtom, Pair(c, newAtom, o));
      }
    }

    /** The bucket of newAtom's key holds the atoms that fit it. */
    lemma {:induction false} ArePartners(newAtom: Atom, c: nat, atoms: seq<Atom>)
      requires Valid() && rule.kind.Join? && c < 2 && Unifies(rule.conditions[c], newAtom)
      requires var key := JoinKey(rule, c, newAtom);
        atoms == if key in atomsByKey[1 - c] then atomsByKey[1 - c][key] else []
      ensures forall a :: a in atoms ==> IsPartner(rule, c, newAtom, a)
      ensures forall a :: a in atoms ==> IsChoice(rule, seen, c, newAtom, Pair(c, newAtom, a))
    {
      hide Numbered, Safe, JoinKey;
      forall a | a in atoms
        ensures IsPartner(rule, c, newAtom, a) && IsChoice(rule, seen, c, newAtom, Pair(c, newAtom, a))
      {
        assert Bucketed(atomsByKey[1 - c], JoinKey(rule, c, newAtom), a);
        KeysAgree(rule, c, newAtom, a);
      }
    }

    lemma {:induction false} IsListed(newAtom: Atom, c: nat, atoms: seq<Atom>, body: seq<Atom>)
      requires Valid() && rule.kind.Join? && c < 2 && Unifies(rule.conditions[c], newAtom)
      requires var key := JoinKey(rule, c, newAtom);
        atoms == if key in atomsByKey[1 - c] then atomsByKey[1 - c][key] else []
      requires IsChoice(rule, seen, c, newAtom, body)
      ensures body == Pair(c, newAtom, body[1 - c]) && body[1 - c] in atoms
    {
      hide Numbered, Safe, JoinKey, Compatible;
      var o := body[1 - c];
      assert body == Pair(c, newAtom, o);
      KeysAgree(rule, c, newAtom, o);
      assert Bucketed(atomsByKey[1 - c], JoinKey(rule, c, newAtom), o);
    }

    lemma {:induction false} KeyIsJoinKey(a: Atom, c: nat)
      requires Valid() && rule.kind.Join? && c < 2 && Unifies(rule.conditions[c], a)
      ensures KeyFrom(a, c) == JoinKey(rule, c, a)
    {
    }

    method FireProduct(newAtom: Atom, c: nat, queue: Queue)
      requires Valid() && queue.Valid() && rule.kind.Product?
      requires c < |rule.conditions| && Unifies(rule.conditions[c], newAtom) && newAtom in seen[c]
      modifies queue
      ensures queue.Valid() && queue.queuePos == old(queue.queuePos)
      ensures Fired(rule, seen, c, newAtom, old(queue.queue), queue.queue)
    {
      hide IsHead, HasHead, Numbered, Safe, NoFree, Compatible;
      if emptyAtomListNo != 0 {
        NoChoice(newAtom, c);
        return;
      }
      assert forall i :: 0 <= i < |atomsByIndex| ==> AllUnify(rule.conditions[i], atomsByIndex[i]) by { ListedUnify(); }
      var factors: seq<seq<Bindings>> := [];
      for pos := 0 to |rule.conditions|
        invariant |factors| == if pos <= c then pos else pos - 1
        invariant forall j :: 0 <= j < |factors| ==>
          factors[j] == BindingsOf(rule.conditions[Other(c, j)], atomsByIndex[Other(c, j)])
      {
        if pos != c {
          factors := factors + [BindingsOf(rule.conditions[pos], atomsByIndex[pos])];
        }
      }
      assert AreFactors(rule, c, atomsByIndex, factors);
      var effectArgs := PrepareEffect(newAtom, c);
      PushProduct(rule, newAtom, c, atomsByIndex, factors, effectArgs, queue);
      forall body ensures IsChoice(rule, seen, c, newAtom, body) <==> FromLists(rule, atomsByIndex, c, newAtom, body) {
        SeenAreListed(newAtom, c, body);
      }
      forall k | |old(queue.queue)| <= k < |queue.queue| ensures FromChoice(rule, seen, c, newAtom, queue.queue[k]) {
        assert FromListedBody(rule, atomsByIndex, c, newAtom, queue.queue[k]);
        var body :| FromLists(rule, atomsByIndex, c, newAtom, body) && IsHead(rule, body, queue.queue[k]);
      }
    }

    lemma {:induction false} ListedUnify()
      requires Valid() && rule.kind.Product?
      ensures forall i :: 0 <= i < |atomsByIndex| ==> AllUnify(rule.conditions[i], atomsByIndex[i])
    {
      forall i, j | 0 <= i < |atomsByIndex| && 0 <= j < |atomsByIndex[i]| ensures Unifies(rule.conditions[i], atomsByIndex[i][j]) {
        assert atomsByIndex[i][j] in atomsByIndex[i];
        assert atomsByIndex[i][j] in seen[i];
      }
    }

    lemma {:induction false} SeenAreListed(newAtom: Atom, c: nat, body: seq<Atom>)
      requires Valid() && rule.kind.Product?
      ensures IsChoice(rule, seen, c, newAtom, body) <==> FromLists(rule, atomsByIndex, c, newAtom, body)
    {
      if FromLists(rule, atomsByIndex, c, newAtom, body) {
        forall i | 0 <= i < |body| && i != c ensures body[i] in seen[i] {
          assert i == Other(c, if i < c then i else i - 1);
        }
      }
    }

    lemma {:induction false} NoChoice(newAtom: Atom, c: nat)
      requires Valid() && rule.kind.Product? && c < |seen| && newAtom in seen[c] && emptyAtomListNo != 0
      ensures forall body :: !IsChoice(rule, seen, c, newAtom, body)
    {
      hide Numbered, Safe, ValidShape, Unifies, Compatible, IsChoice;
      var i :| 0 <= i < |atomsByIndex| && atomsByIndex[i] == [];
      assert newAtom in atomsByIndex[c];
      assert forall a :: a !in seen[i];
      forall body ensures !IsChoice(rule, seen, c, newAtom, body) {
        if IsChoice(rule, seen, c, newAtom, body) {
          ChoiceWasSeen(rule, seen, c, newAtom, body, i);
        }
      }
    }

    /** Derives what the new atom, already filed for condition c, adds. */
    method Fire(newAtom: Atom, c: nat, queue: Queue)
      requires Valid() && queue.Valid()
      requires c < |rule.conditions| && Unifies(rule.conditions[c], newAtom) && newAtom in seen[c]
      modifies queue
      ensures queue.Valid() && queue.queuePos == old(queue.queuePos)
      ensures Fired(rule, seen, c, newAtom, old(queue.queue), queue.queue)
    {
      hide Fired;
      match rule.kind
      case Project => FireProject(newAtom, c, queue);
      case Join => FireJoin(newAtom, c, queue);
      case Product => FireProduct(newAtom, c, queue);
    }

    function KeyFrom(a: Atom, c: nat): (key: seq<string>)
      requires c < |commonVarPositions| && forall p :: p in commonVarPositions[c] ==> p < |a.args|
    {
      var ps := commonVarPositions[c];
      seq(|ps|, i requires 0 <= i < |ps| => assert ps[i] in ps; a.args[ps[i]])
    }
  }

  lemma {:induction false} AllEmpty(n: nat)
    ensures CountEmpty(seq(n, _ => [])) == n
  {
    if n > 0 {
      assert seq(n, _ => [])[1..] == seq<seq<Atom>>(n - 1, _ => []);
      AllEmpty(n - 1);
    }
  }

  lemma {:induction false} SingleBody(r: Rule, a: Atom)
    requires Numbered(r) && Safe(r) && r.kind.Project? && ValidShape(r) && Unifies(r.conditions[0], a)
    requires forall b :: b in GetBindings(r.conditions[0], a) ==> b.0 < |r.effect.args|
    ensures Compatible(r.conditions, [a])
    ensures Assign(r.effect.args, GetBindings(r.conditions[0], a)) == HeadArgs(r, [a])
    ensures AllConst(HeadArgs(r, [a]))
  {
    SameCondition(r.conditions[0], a);
    HeadFromOrder(r, [a], 0, Assign(r.effect.args, GetBindings(r.conditions[0], a)));
    assert RestBindings(r.conditions, [a], 0) == [];
    HeadArgsSpec(r, [a]);
  }

  ghost predicate IsPartner(r: Rule, c: nat, a: Atom, o: Atom) {
    && r.kind.Join? && Numbered(r) && Safe(r) && ValidShape(r) && c < 2
    && Unifies(r.conditions[c], a) && Unifies(r.conditions[1 - c], o)
    && JoinKey(r, c, a) == JoinKey(r, 1 - c, o)
  }

  ghost predicate FromPartner(r: Rule, c: nat, newAtom: Atom, atoms: seq<Atom>, h: Atom) {
    exists a :: a in atoms && IsHead(r, Pair(c, newAtom, a), h)
  }

  /** The loop over the bucket of partner atoms. */
  method JoinWith(r: Rule, newAtom: Atom, c: nat, atoms: seq<Atom>, effectArgs0: seq<Term>, queue: Queue)
    requires queue.Valid() && |r.conditions| == 2 && c < 2
    requires forall a :: a in atoms ==> IsPartner(r, c, newAtom, a)
    requires |r.conditions[c].args| == |newAtom.args|
    requires forall b :: b in GetBindings(r.conditions[c], newAtom) ==> b.0 < |r.effect.args|
    requires effectArgs0 == Assign(r.effect.args, GetBindings(r.conditions[c], newAtom))
    modifies queue
    ensures queue.Valid() && queue.queuePos == old(queue.queuePos) && old(queue.queue) <= queue.queue
    ensures forall a :: a in atoms ==> HasHead(r, Pair(c, newAtom, a), queue.queue)
    ensures forall k :: |old(queue.queue)| <= k < |queue.queue| ==> FromPartner(r, c, newAtom, atoms, queue.queue[k])
  {
    hide IsPartner, IsHead, Pair, Numbered, Safe;
    var effectArgs := effectArgs0;
    var otherCond := r.conditions[1 - c];
    for i := 0 to |atoms|
      invariant queue.Valid() && queue.queuePos == old(queue.queuePos) && old(queue.queue) <= queue.queue
      invariant OverwrittenBy(otherCond, effectArgs0, effectArgs)
      invariant forall a :: a in atoms[..i] ==> HasHead(r, Pair(c, newAtom, a), queue.queue)
      invariant forall k :: |old(queue.queue)| <= k < |queue.queue| ==> FromPartner(r, c, newAtom, atoms, queue.queue[k])
    {
      JoinBody(r, c, newAtom, atoms[i], effectArgs);
      effectArgs := WriteArgs(effectArgs, otherCond, atoms[i]);
      ghost var before := queue.queue;
      queue.Push(r.effect.pred, effectArgs);
      forall a | a in atoms[..i + 1] ensures HasHead(r, Pair(c, newAtom, a), queue.queue) {
        if a in atoms[..i] {
          assert HasHead(r, Pair(c, newAtom, a), before);
        } else {
          assert IsHead(r, Pair(c, newAtom, a), Atom(r.effect.pred, Names(effectArgs)));
        }
      }
    }
  }

  // ---------- Product rules ----------

  type Bindings = seq<(nat, string)>

  ghost predicate AllUnify(p: Pattern, atoms: seq<Atom>) {
    forall i :: 0 <= i < |atoms| ==> Unifies(p, atoms[i])
  }

  function BindingsOf(p: Pattern, atoms: seq<Atom>): (r: seq<Bindings>)
    requires AllUnify(p, atoms)
    ensures |r| == |atoms| && forall i :: 0 <= i < |atoms| ==> |p.args| == |atoms[i].args| && r[i] == GetBindings(p, atoms[i])
  {
    seq(|atoms|, i requires 0 <= i < |atoms| => assert Unifies(p, atoms[i]); GetBindings(p, atoms[i]))
  }

  /** The j-th condition other than c. */
  function Other(c: nat, j: nat): nat {
    if j < c then j else j + 1
  }

  ghost predicate ListsUnify(r: Rule, lists: seq<seq<Atom>>) {
    |lists| == |r.conditions| && forall i :: 0 <= i < |lists| ==> AllUnify(r.conditions[i], lists[i])
  }

  /** One factor per other condition, in order: the binding lists of its atoms. */
  ghost predicate AreFactors(r: Rule, c: nat, lists: seq<seq<Atom>>, factors: seq<seq<Bindings>>) {
    && ListsUnify(r, lists) && c < |lists| && |factors| == |lists| - 1
    && forall j :: 0 <= j < |factors| ==> factors[j] == BindingsOf(r.conditions[Other(c, j)], lists[Other(c, j)])
  }

  ghost predicate FromLists(r: Rule, lists: seq<seq<Atom>>, c: nat, newAtom: Atom, body: seq<Atom>) {
    && |body| == |r.conditions| == |lists| && c < |body| && body[c] == newAtom
    && (forall j :: 0 <= j < |body| - 1 ==> body[Other(c, j)] in lists[Other(c, j)])
    && Compatible(r.conditions, body)
  }

  ghost predicate FromListedBody(r: Rule, lists: seq<seq<Atom>>, c: nat, newAtom: Atom, h: Atom) {
    exists body :: FromLists(r, lists, c, newAtom, body) && IsHead(r, body, h)
  }

  /** The combination picks the atoms of this body. */
  ghost predicate PicksBody(r: Rule, c: nat, body: seq<Atom>, combination: seq<Bindings>) {
    && SameArity(r.conditions, body) && c < |body| && |combination| == |body| - 1
    && forall j :: 0 <= j < |combination| ==> combination[j] == GetBindings(r.conditions[Other(c, j)], body[Other(c, j)])
  }

  lemma {:induction false} CombinationOfBody(r: Rule, lists: seq<seq<Atom>>, c: nat, newAtom: Atom, body: seq<Atom>,
                                             factors: seq<seq<Bindings>>) returns (combination: seq<Bindings>)
    requires AreFactors(r, c, lists, factors) && FromLists(r, lists, c, newAtom, body)
    ensures PicksBody(r, c, body, combination) && combination in CartesianProduct(factors)
  {
    assert SameArity(r.conditions, body);
    combination := seq(|body| - 1, j requires 0 <= j < |body| - 1 =>
      assert |r.conditions[Other(c, j)].args| == |body[Other(c, j)].args|;
      GetBindings(r.conditions[Other(c, j)], body[Other(c, j)]));
    forall j | 0 <= j < |combination| ensures combination[j] in factors[j] {
      var i := Other(c, j);
      var t :| 0 <= t < |lists[i]| && lists[i][t] == body[i];
      assert factors[j][t] == combination[j];
    }
    ProductSpec(factors, combination);
  }

  ghost function PickAtom(p: Pattern, atoms: seq<Atom>, bs: Bindings): (a: Atom)
    requires AllUnify(p, atoms) && bs in BindingsOf(p, atoms)
    ensures a in atoms && Unifies(p, a) && GetBindings(p, a) == bs
  {
    var t :| 0 <= t < |atoms| && BindingsOf(p, atoms)[t] == bs;
    atoms[t]
  }

  lemma {:induction false} BodyOfCombination(r: Rule, lists: seq<seq<Atom>>, c: nat, newAtom: Atom,
                                             factors: seq<seq<Bindings>>, combination: seq<Bindings>)
    returns (body: seq<Atom>)
    requires r.kind.Product? && ValidShape(r) && Numbered(r) && AreFactors(r, c, lists, factors)
    requires Unifies(r.conditions[c], newAtom) && combination in CartesianProduct(factors)
    ensures PicksBody(r, c, body, combination) && FromLists(r, lists, c, newAtom, body)
  {
    hide ValidShape, Numbered, CartesianProduct, Unifies;
    ProductSpec(factors, combination);
    var rest := seq(|combination|, j requires 0 <= j < |combination| =>
      assert combination[j] in factors[j];
      PickAtom(r.conditions[Other(c, j)], lists[Other(c, j)], combination[j]));
    body := With(rest, c, newAtom);
    forall j | 0 <= j < |combination|
      ensures body[Other(c, j)] == rest[j] && Unifies(r.conditions[Other(c, j)], rest[j])
      ensures rest[j] in lists[Other(c, j)] && GetBindings(r.conditions[Other(c, j)], rest[j]) == combination[j]
    {
      assert combination[j] in factors[j];
    }
    forall i | 0 <= i < |body| ensures Unifies(r.conditions[i], body[i]) {
      if i != c {
        assert i == Other(c, if i < c then i else i - 1);
      }
    }
    DisjointCompatible(r, body);
    AllSameArity(r, body);
  }

  lemma {:induction false} AllSameArity(r: Rule, body: seq<Atom>)
    requires |body| == |r.conditions| && Compatible(r.conditions, body)
    ensures SameArity(r.conditions, body)
  {
  }

  lemma {:induction false} CrossDisjoint(r: Rule, i: nat, j: nat, k: nat, l: nat)
    requires r.kind.Product? && ValidShape(r) && i < |r.conditions| && j < |r.conditions| && i != j
    requires k < |r.conditions[i].args| && l < |r.conditions[j].args| && r.conditions[i].args[k].Slot?
    ensures r.conditions[i].args[k] != r.conditions[j].args[l]
  {
    assert SlotsDisjoint(r.conditions[if i < j then i else j], r.conditions[if i < j then j else i]);
  }

  lemma {:induction false} DisjointCompatible(r: Rule, body: seq<Atom>)
    requires r.kind.Product? && ValidShape(r) && Numbered(r) && |body| == |r.conditions|
    requires forall i :: 0 <= i < |body| ==> Unifies(r.conditions[i], body[i])
    ensures Compatible(r.conditions, body)
  {
    forall i, j, k, l | 0 <= i < |body| && 0 <= j < |body| && 0 <= k < |r.conditions[i].args|
        && 0 <= l < |r.conditions[j].args| && r.conditions[i].args[k].Slot?
      ensures r.conditions[i].args[k] == r.conditions[j].args[l] ==> body[i].args[k] == body[j].args[l]
    {
      if i == j {
        SameCondition(r.conditions[i], body[i]);
      } else {
        CrossDisjoint(r, i, j, k, l);
      }
    }
  }

  lemma {:induction false} ChainIsRest(r: Rule, c: nat, body: seq<Atom>, combination: seq<Bindings>)
    requires PicksBody(r, c, body, combination)
    ensures Chain(combination) == RestBindings(r.conditions, body, c)
  {
    assert forall j :: 0 <= j < |combination| ==>
      Without(r.conditions, c)[j] == r.conditions[Other(c, j)] && Without(body, c)[j] == body[Other(c, j)];
    ChainIsAll(Without(r.conditions, c), Without(body, c), combination);
  }

  lemma {:induction false} ChainIsAll(conds: seq<Pattern>, body: seq<Atom>, combination: seq<Bindings>)
    requires SameArity(conds, body) && |combination| == |body|
    requires forall i :: 0 <= i < |body| ==> combination[i] == GetBindings(conds[i], body[i])
    ensures Chain(combination) == AllBindings(conds, body)
    decreases |conds|
  {
    if conds != [] {
      ChainIsAll(conds[1..], body[1..], combination[1..]);
    }
  }

  ghost predicate OverwrittenByOthers(r: Rule, c: nat, eff0: seq<Term>, eff: seq<Term>) {
    && |eff| == |eff0|
    && forall n: nat :: n < |eff| && eff[n] != eff0[n] ==> WrittenByOther(r, c, n)
  }

  ghost predicate WrittenByOther(r: Rule, c: nat, n: nat) {
    exists i :: 0 <= i < |r.conditions| && i != c && Slot(n) in r.conditions[i].args
  }

  /** Writing a combination after the new atom's objects gives the head of every body it picks. */
  lemma {:induction false} CombinationHead(r: Rule, c: nat, body: seq<Atom>, combination: seq<Bindings>, eff: seq<Term>)
    requires Numbered(r) && Safe(r) && PicksBody(r, c, body, combination) && Compatible(r.conditions, body)
    requires forall b :: b in GetBindings(r.conditions[c], body[c]) ==> b.0 < |r.effect.args|
    requires OverwrittenByOthers(r, c, Assign(r.effect.args, GetBindings(r.conditions[c], body[c])), eff)
    ensures forall b :: b in Chain(combination) ==> b.0 < |eff|
    ensures AllConst(Assign(eff, Chain(combination)))
    ensures IsHead(r, body, Atom(r.effect.pred, Names(Assign(eff, Chain(combination)))))
    ensures OverwrittenByOthers(r, c, Assign(r.effect.args, GetBindings(r.conditions[c], body[c])), Assign(eff, Chain(combination)))
  {
    ChainIsRest(r, c, body, combination);
    var eff0 := Assign(r.effect.args, GetBindings(r.conditions[c], body[c]));
    var rest := RestBindings(r.conditions, body, c);
    forall n: nat | n < |eff| && eff[n] != eff0[n] ensures exists b :: b in rest && b.0 == n {
      var i :| 0 <= i < |r.conditions| && i != c && Slot(n) in r.conditions[i].args;
      var k :| 0 <= k < |r.conditions[i].args| && r.conditions[i].args[k] == Slot(n);
      InRest(r.conditions, body, c, i, k);
    }
    HeadFromOrder(r, body, c, eff);
    HeadArgsSpec(r, body);
    StillOverwritten(r, c, body, eff0, eff);
  }

  lemma {:induction false} InRest(conds: seq<Pattern>, body: seq<Atom>, c: nat, i: nat, k: nat)
    requires SameArity(conds, body) && c < |conds| && i < |conds| && i != c && k < |conds[i].args| && conds[i].args[k].Slot?
    ensures (conds[i].args[k].n, body[i].args[k]) in RestBindings(conds, body, c)
  {
    var j := if i < c then i else i - 1;
    assert Without(conds, c)[j] == conds[i] && Without(body, c)[j] == body[i];
    BindingFrom(Without(conds, c), Without(body, c), j, k);
  }

  lemma {:induction false} StillOverwritten(r: Rule, c: nat, body: seq<Atom>, eff0: seq<Term>, eff: seq<Term>)
    requires |body| == |r.conditions| && c < |body| && Compatible(r.conditions, body) && SameArity(r.conditions, body)
    requires OverwrittenByOthers(r, c, eff0, eff)
    requires forall b :: b in RestBindings(r.conditions, body, c) ==> b.0 < |eff|
    ensures OverwrittenByOthers(r, c, eff0, Assign(eff, RestBindings(r.conditions, body, c)))
  {
    var rest := RestBindings(r.conditions, body, c);
    RestFunctional(r.conditions, body, c);
    AssignSpec(eff, rest);
    forall n: nat | n < |eff| && Assign(eff, rest)[n] != eff0[n] ensures WrittenByOther(r, c, n) {
      if b :| b in rest && b.0 == n {
        var j, k := BindingOrigin(Without(r.conditions, c), Without(body, c), b);
        assert r.conditions[Other(c, j)] == Without(r.conditions, c)[j];
      } else {
        assert eff[n] != eff0[n];
      }
    }
  }

  lemma {:induction false} RestFunctional(conds: seq<Pattern>, body: seq<Atom>, c: nat)
    requires |body| == |conds| && c < |body| && Compatible(conds, body) && SameArity(conds, body)
    ensures Functional(RestBindings(conds, body, c))
  {
    BindingsFunctional(conds, body);
    forall b | b in RestBindings(conds, body, c) ensures b in AllBindings(conds, body) {
      BindingsSplit(conds, body, c, b);
    }
  }

  method WriteBindings(eff: seq<Term>, bindings: Bindings) returns (r: seq<Term>)
    requires forall b :: b in bindings ==> b.0 < |eff|
    ensures r == Assign(eff, bindings)
  {
    r := eff;
    assert bindings == bindings[0..];
    for i := 0 to |bindings|
      invariant |r| == |eff| && (forall b :: b in bindings[i..] ==> b.0 < |eff|)
      invariant Assign(eff, bindings) == Assign(r, bindings[i..])
    {
      assert bindings[i..][1..] == bindings[i + 1..];
      assert bindings[i] in bindings;
      r := r[bindings[i].0 := Const(bindings[i].1)];
    }
  }

  /** Every body the combination picks has its head among the atoms. */
  ghost predicate IsPushed(r: Rule, lists: seq<seq<Atom>>, c: nat, newAtom: Atom, combination: seq<Bindings>, atoms: seq<Atom>) {
    forall body :: FromLists(r, lists, c, newAtom, body) && PicksBody(r, c, body, combination) ==> HasHead(r, body, atoms)
  }

  lemma {:induction false} CombinationPushed(r: Rule, lists: seq<seq<Atom>>, c: nat, newAtom: Atom, combination: seq<Bindings>,
                                             eff: seq<Term>, eff': seq<Term>, atoms: seq<Atom>)
    requires Numbered(r) && Safe(r) && c < |r.conditions| && |r.conditions[c].args| == |newAtom.args|
    requires forall b :: b in GetBindings(r.conditions[c], newAtom) ==> b.0 < |r.effect.args|
    requires OverwrittenByOthers(r, c, Assign(r.effect.args, GetBindings(r.conditions[c], newAtom)), eff)
    requires forall b :: b in Chain(combination) ==> b.0 < |eff|
    requires eff' == Assign(eff, Chain(combination)) && AllConst(eff')
    requires Atom(r.effect.pred, Names(eff')) in atoms
    ensures IsPushed(r, lists, c, newAtom, combination, atoms)
  {
    hide IsHead, PicksBody, OverwrittenByOthers, Numbered, Safe, Compatible;
    forall body | FromLists(r, lists, c, newAtom, body) && PicksBody(r, c, body, combination) ensures HasHead(r, body, atoms) {
      CombinationHead(r, c, body, combination, eff);
    }
  }

  lemma {:induction false} StillPushed(r: Rule, lists: seq<seq<Atom>>, c: nat, newAtom: Atom, combination: seq<Bindings>,
                                       before: seq<Atom>, after: seq<Atom>)
    requires IsPushed(r, lists, c, newAtom, combination, before) && before <= after
    ensures IsPushed(r, lists, c, newAtom, combination, after)
  {
    hide IsHead, PicksBody, FromLists;
    forall body | FromLists(r, lists, c, newAtom, body) && PicksBody(r, c, body, combination) ensures HasHead(r, body, after) {
      assert HasHead(r, body, before);
    }
  }

  /** One turn of the loop over the Cartesian product. */
  method PushCombination(r: Rule, newAtom: Atom, c: nat, ghost lists: seq<seq<Atom>>, ghost factors: seq<seq<Bindings>>,
                         combination: seq<Bindings>, ghost eff0: seq<Term>, eff: seq<Term>, queue: Queue)
    returns (eff': seq<Term>)
    requires queue.Valid() && Numbered(r) && Safe(r) && r.kind.Product? && ValidShape(r)
    requires AreFactors(r, c, lists, factors) && combination in CartesianProduct(factors) && Unifies(r.conditions[c], newAtom)
    requires forall b :: b in GetBindings(r.conditions[c], newAtom) ==> b.0 < |r.effect.args|
    requires eff0 == Assign(r.effect.args, GetBindings(r.conditions[c], newAtom)) && OverwrittenByOthers(r, c, eff0, eff)
    modifies queue
    ensures queue.Valid() && queue.queuePos == old(queue.queuePos) && old(queue.queue) <= queue.queue
    ensures OverwrittenByOthers(r, c, eff0, eff') && IsPushed(r, lists, c, newAtom, combination, queue.queue)
    ensures forall k :: |old(queue.queue)| <= k < |queue.queue| ==> FromListedBody(r, lists, c, newAtom, queue.queue[k])
  {
    assert c < |r.conditions| && |r.conditions[c].args| == |newAtom.args|;
    hide IsHead, Numbered, Safe, NoFree, ValidShape, Compatible, SameArity, Unifies, AreFactors;
    hide IsPushed, PicksBody, HasHead, CartesianProduct, FromListedBody, OverwrittenByOthers;
    ghost var body := BodyOfCombination(r, lists, c, newAtom, factors, combination);
    CombinationHead(r, c, body, combination, eff);
    eff' := WriteBindings(eff, Chain(combination));
    queue.Push(r.effect.pred, eff');
    CombinationPushed(r, lists, c, newAtom, combination, eff, eff', queue.queue);
    IsFromListedBody(r, lists, c, newAtom, body, Atom(r.effect.pred, Names(eff')));
  }

  /** The loop over the Cartesian product. */
  method PushProduct(r: Rule, newAtom: Atom, c: nat, ghost lists: seq<seq<Atom>>, factors: seq<seq<Bindings>>,
                     effectArgs0: seq<Term>, queue: Queue)
    requires queue.Valid() && Numbered(r) && Safe(r) && r.kind.Product? && ValidShape(r)
    requires AreFactors(r, c, lists, factors) && Unifies(r.conditions[c], newAtom)
    requires forall b :: b in GetBindings(r.conditions[c], newAtom) ==> b.0 < |r.effect.args|
    requires effectArgs0 == Assign(r.effect.args, GetBindings(r.conditions[c], newAtom))
    modifies queue
    ensures queue.Valid() && queue.queuePos == old(queue.queuePos) && old(queue.queue) <= queue.queue
    ensures forall body :: FromLists(r, lists, c, newAtom, body) ==> HasHead(r, body, queue.queue)
    ensures forall k :: |old(queue.queue)| <= k < |queue.queue| ==> FromListedBody(r, lists, c, newAtom, queue.queue[k])
  {
    hide *;
    NothingOverwritten(r, c, effectArgs0);
    var effArgs := effectArgs0;
    var product := CartesianProduct(factors);
    for i := 0 to |product|
      invariant queue.Valid() && queue.queuePos == old(queue.queuePos) && old(queue.queue) <= queue.queue
      invariant OverwrittenByOthers(r, c, effectArgs0, effArgs)
      invariant forall t :: 0 <= t < i ==> IsPushed(r, lists, c, newAtom, product[t], queue.queue)
      invariant forall k :: |old(queue.queue)| <= k < |queue.queue| ==> FromListedBody(r, lists, c, newAtom, queue.queue[k])
    {
      ghost var before := queue.queue;
      effArgs := PushCombination(r, newAtom, c, lists, factors, product[i], effectArgs0, effArgs, queue);
      forall t | 0 <= t < i ensures IsPushed(r, lists, c, newAtom, product[t], queue.queue) {
        StillPushed(r, lists, c, newAtom, product[t], before, queue.queue);
      }
    }
    forall body | FromLists(r, lists, c, newAtom, body) ensures HasHead(r, body, queue.queue) {
      var combination := CombinationOfBody(r, lists, c, newAtom, body, factors);
      PickedIsPushed(r, lists, c, newAtom, combination, body, queue.queue);
    }
  }

  lemma {:induction false} IsFromListedBody(r: Rule, lists: seq<seq<Atom>>, c: nat, newAtom: Atom, body: seq<Atom>, h: Atom)
    requires FromLists(r, lists, c, newAtom, body) && IsHead(r, body, h)
    ensures FromListedBody(r, lists, c, newAtom, h)
  {
  }

  lemma {:induction false} NothingOverwritten(r: Rule, c: nat, eff: seq<Term>)
    ensures OverwrittenByOthers(r, c, eff, eff)
  {
  }

  lemma {:induction false} PickedIsPushed(r: Rule, lists: seq<seq<Atom>>, c: nat, newAtom: Atom, combination: seq<Bindings>,
                                          body: seq<Atom>, atoms: seq<Atom>)
    requires IsPushed(r, lists, c, newAtom, combination, atoms)
    requires FromLists(r, lists, c, newAtom, body) && PicksBody(r, c, body, combination)
    ensures HasHead(r, body, atoms)
  {
  }

  /** eff differs from eff0 only where condition p writes. */
  ghost predicate OverwrittenBy(p: Pattern, eff0: seq<Term>, eff: seq<Term>) {
    && |eff| == |eff0|
    && forall n: nat :: n < |eff| && eff[n] != eff0[n] ==> Slot(n) in p.args
  }

  lemma {:induction false} AssignOverwrites(p: Pattern, a: Atom, eff0: seq<Term>, eff: seq<Term>)
    requires |p.args| == |a.args| && OverwrittenBy(p, eff0, eff) && NoRepeatedVariable(p)
    requires forall b :: b in GetBindings(p, a) ==> b.0 < |eff|
    ensures OverwrittenBy(p, eff0, Assign(eff, GetBindings(p, a)))
  {
    var bs := GetBindings(p, a);
    forall b, c | b in bs && c in bs && b.0 == c.0 ensures b == c {
    }
    AssignSpec(eff, bs);
    forall n: nat | n < |eff| && Assign(eff, bs)[n] != eff0[n] ensures Slot(n) in p.args {
      if b :| b in bs && b.0 == n {
        var k :| 0 <= k < |p.args| && p.args[k] == Slot(b.0);
      }
    }
  }

  lemma {:induction false} PairRest(r: Rule, c: nat, a: Atom, o: Atom)
    requires |r.conditions| == 2 && c < 2
    requires |r.conditions[c].args| == |a.args| && |r.conditions[1 - c].args| == |o.args|
    ensures SameArity(r.conditions, Pair(c, a, o))
    ensures RestBindings(r.conditions, Pair(c, a, o), c) == GetBindings(r.conditions[1 - c], o)
    ensures Pair(c, a, o)[c] == a
  {
    assert Without(r.conditions, c) == [r.conditions[1 - c]] && Without(Pair(c, a, o), c) == [o];
    assert AllBindings([r.conditions[1 - c]], [o]) == GetBindings(r.conditions[1 - c], o) + AllBindings([], []);
  }

  lemma {:induction false} JoinBody(r: Rule, c: nat, a: Atom, o: Atom, eff: seq<Term>)
    requires IsPartner(r, c, a, o)
    requires forall b :: b in GetBindings(r.conditions[c], a) ==> b.0 < |r.effect.args|
    requires OverwrittenBy(r.conditions[1 - c], Assign(r.effect.args, GetBindings(r.conditions[c], a)), eff)
    ensures |r.conditions[1 - c].args| == |o.args|
    ensures forall n: nat :: Slot(n) in r.conditions[1 - c].args ==> n < |eff|
    ensures forall b :: b in GetBindings(r.conditions[1 - c], o) ==> b.0 < |eff|
    ensures var eff' := Assign(eff, GetBindings(r.conditions[1 - c], o));
      && AllConst(eff') && IsHead(r, Pair(c, a, o), Atom(r.effect.pred, Names(eff')))
      && OverwrittenBy(r.conditions[1 - c], Assign(r.effect.args, GetBindings(r.conditions[c], a)), eff')
  {
    hide Compatible, JoinKey, Safe, RestBindings, Pair;
    var body := Pair(c, a, o);
    KeysAgree(r, c, a, o);
    PairRest(r, c, a, o);
    var eff0 := Assign(r.effect.args, GetBindings(r.conditions[c], a));
    forall n: nat | n < |eff| && eff[n] != eff0[n]
      ensures exists b :: b in RestBindings(r.conditions, body, c) && b.0 == n
    {
      var k :| 0 <= k < |r.conditions[1 - c].args| && r.conditions[1 - c].args[k] == Slot(n);
      assert (n, o.args[k]) in GetBindings(r.conditions[1 - c], o);
    }
    HeadFromOrder(r, body, c, eff);
    HeadArgsSpec(r, body);
    AssignOverwrites(r.conditions[1 - c], o, eff0, eff);
  }

  /** Where the shared variables stand in condition c. */
  function Positions(r: Rule, c: nat): (ps: seq<nat>)
    requires |r.conditions| == 2 && c < 2
    ensures forall p :: p in ps ==> p < |r.conditions[c].args|
  {
    var vars := CommonVars(r);
    seq(|vars|, i requires 0 <= i < |vars| => assert vars[i] in vars; IndexOf(r.conditions[c].args, Slot(vars[i])))
  }
}
