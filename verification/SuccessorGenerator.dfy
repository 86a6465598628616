/** The decision tree over operator preconditions (src/search/successor_generator.cc). */
module SuccessorGenerator {

  datatype Fact = Fact(v: nat, val: nat)

  type Condition = seq<Fact>

  /** Operators are identified by their index. */
  datatype Generator =
    | GeneratorEmpty
    | GeneratorLeaf(applicable: seq<nat>)
    | GeneratorSwitch(switchVar: nat, immediate: seq<nat>, generatorForValue: seq<Generator>, default_: Generator)

  ghost predicate IsState(domains: seq<nat>, s: seq<nat>) {
    |s| == |domains| && forall v :: 0 <= v < |s| ==> s[v] < domains[v]
  }

  /** Every switch has one child per value of its variable. */
  ghost predicate Fits(g: Generator, domains: seq<nat>) {
    g.GeneratorSwitch? ==>
      && g.switchVar < |domains| && |g.generatorForValue| == domains[g.switchVar]
      && (forall i :: 0 <= i < |g.generatorForValue| ==> Fits(g.generatorForValue[i], domains))
      && Fits(g.default_, domains)
  }

  /** What a tree adds to the list of applicable operators. */
  function Generate(g: Generator, s: seq<nat>): seq<nat>
    requires exists domains :: IsState(domains, s) && Fits(g, domains)
  {
    match g
    case GeneratorEmpty => []
    case GeneratorLeaf(ops) => ops
    case GeneratorSwitch(v, immediate, children, default_) => immediate + Generate(children[s[v]], s) + Generate(default_, s)
  }

  method GenerateApplicableOps(g: Generator, s: seq<nat>, applicableOps: seq<nat>, ghost domains: seq<nat>) returns (r: seq<nat>)
    requires IsState(domains, s) && Fits(g, domains)
    ensures r == applicableOps + Generate(g, s)
    decreases g
  {
    match g
    case GeneratorEmpty =>
      r := applicableOps;
    case GeneratorLeaf(ops) =>
      r := applicableOps + ops;
    case GeneratorSwitch(v, immediate, children, default_) =>
      r := applicableOps + immediate;
      r := GenerateApplicableOps(children[s[v]], s, r, domains);
      r := GenerateApplicableOps(default_, s, r, domains);
  }

  // ---------- Preconditions ----------

  ghost predicate HoldsIn(cond: Condition, s: seq<nat>) {
    forall f :: f in cond ==> f.v < |s| && s[f.v] == f.val
  }

  predicate SortedByVar(cond: Condition) {
    forall i, j :: 0 <= i < j < |cond| ==> cond[i].v <= cond[j].v
  }

  /** The first position from i on that speaks of another variable. */
  function Skip(cond: Condition, i: nat): (k: nat)
    requires i < |cond|
    ensures i < k <= |cond| && (forall j :: i <= j < k ==> cond[j].v == cond[i].v)
    ensures k < |cond| ==> cond[k].v != cond[i].v
    decreases |cond| - i
  {
    if i + 1 < |cond| && cond[i + 1].v == cond[i].v then Skip(cond, i + 1) else i + 1
  }

  /** From position i on, the first fact of every variable holds. */
  predicate LeadsHold(cond: Condition, i: nat, s: seq<nat>)
    requires i <= |cond|
    decreases |cond| - i
  {
    i == |cond| || (cond[i].v < |s| && s[cond[i].v] == cond[i].val && LeadsHold(cond, Skip(cond, i), s))
  }

  ghost predicate Consistent(cond: Condition) {
    forall f, g :: f in cond && g in cond && f.v == g.v ==> f == g
  }

  lemma {:induction false} LeadsAreAll(cond: Condition, i: nat, s: seq<nat>)
    requires i <= |cond| && Consistent(cond)
    ensures LeadsHold(cond, i, s) <==> HoldsIn(cond[i..], s)
    decreases |cond| - i
  {
    if i < |cond| {
      var k := Skip(cond, i);
      LeadsAreAll(cond, k, s);
      forall f | f in cond[i..] ensures f == cond[i] || f in cond[k..] {
        var j :| i <= j < |cond| && cond[j] == f;
        if j < k {
          assert cond[j] in cond && cond[i] in cond;
        } else {
          assert cond[k..][j - k] == f;
        }
      }
      assert cond[i] in cond[i..];
      forall f | f in cond[k..] ensures f in cond[i..] {
        var j :| k <= j < |cond| && cond[j] == f;
        assert cond[i..][j - i] == f;
      }
    }
  }

  // ---------- Construction ----------

  ghost predicate NoDuplicates(s: seq<nat>) {
    forall i, j :: 0 <= i < j < |s| ==> s[i] != s[j]
  }

  lemma {:induction false} CountOnce(s: seq<nat>, x: nat)
    requires NoDuplicates(s)
    ensures multiset(s)[x] == if x in s then 1 else 0
  {
    if x in s {
      var i :| 0 <= i < |s| && s[i] == x;
      assert s == s[..i] + [x] + s[i + 1..];
    }
  }

  /** Conditions are sorted and in range. */
  ghost predicate ValidConditions(domains: seq<nat>, conds: seq<Condition>) {
    forall o :: 0 <= o < |conds| ==> SortedByVar(conds[o]) && InRange(domains, conds[o])
  }

  ghost predicate InRange(domains: seq<nat>, cond: Condition) {
    forall i :: 0 <= i < |cond| ==> cond[i].v < |domains| && cond[i].val < domains[cond[i].v]
  }

  /** The operators of the queue have only conditions on later variables left. */
  ghost predicate Pending(conds: seq<Condition>, next: seq<nat>, queue: seq<nat>, switchVar: nat) {
    && |next| == |conds| && NoDuplicates(queue)
    && (forall o :: o in queue ==> o < |conds| && next[o] <= |conds[o]|)
    && (forall o, i :: o in queue && next[o] <= i < |conds[o]| ==> switchVar <= conds[o][i].v)
  }

  ghost predicate Remains(conds: seq<Condition>, next: seq<nat>, queue: seq<nat>, o: nat, s: seq<nat>) {
    o in queue && o < |conds| && o < |next| && next[o] <= |conds[o]| && LeadsHold(conds[o], next[o], s)
  }

  /** The tree yields each operator whose remaining conditions hold exactly once, and no other. */
  ghost predicate Yields(g: Generator, domains: seq<nat>, conds: seq<Condition>, next: seq<nat>, queue: seq<nat>) {
    && Fits(g, domains)
    && forall s, o :: IsState(domains, s) ==>
         multiset(Generate(g, s))[o] == if Remains(conds, next, queue, o, s) then 1 else 0
  }

  /** Where an operator goes at one switch variable. */
  datatype Place = Immediate | ForValue(val: nat) | Default

  function PlaceOf(cond: Condition, n: nat, switchVar: nat): Place
    requires n <= |cond|
  {
    if n == |cond| then Immediate
    else if cond[n].v == switchVar then ForValue(cond[n].val)
    else Default
  }

  function Advance(cond: Condition, n: nat, switchVar: nat): (k: nat)
    requires n <= |cond|
    ensures n <= k <= |cond|
  {
    if n < |cond| && cond[n].v == switchVar then Skip(cond, n) else n
  }

  ghost predicate InBounds(conds: seq<Condition>, next: seq<nat>, queue: seq<nat>) {
    |next| == |conds| && forall o :: o in queue ==> o < |conds| && next[o] <= |conds[o]|
  }

  /** The operators of the queue that go to one place, in queue order. */
  ghost function Sorted(conds: seq<Condition>, next: seq<nat>, queue: seq<nat>, switchVar: nat, p: Place): seq<nat>
    requires InBounds(conds, next, queue)
  {
    if queue == [] then []
    else
      var (front, o) := (queue[..|queue| - 1], queue[|queue| - 1]);
      assert o in queue && forall x :: x in front ==> x in queue;
      Sorted(conds, next, front, switchVar, p) + if PlaceOf(conds[o], next[o], switchVar) == p then [o] else []
  }

  lemma {:induction false} SortedMembers(conds: seq<Condition>, next: seq<nat>, queue: seq<nat>, switchVar: nat, p: Place)
    requires InBounds(conds, next, queue)
    ensures forall o :: o in Sorted(conds, next, queue, switchVar, p) <==> o in queue && PlaceOf(conds[o], next[o], switchVar) == p
    ensures NoDuplicates(queue) ==> NoDuplicates(Sorted(conds, next, queue, switchVar, p))
  {
    if queue != [] {
      var front, o := queue[..|queue| - 1], queue[|queue| - 1];
      assert queue == front + [o];
      SortedMembers(conds, next, front, switchVar, p);
    }
  }

  /** The three kinds of lists the queue is drained into, and how the iterators moved. */
  ghost predicate Split(conds: seq<Condition>, next0: seq<nat>, next: seq<nat>, queue: seq<nat>, switchVar: nat,
                        forVal: seq<seq<nat>>, default_: seq<nat>, applicable: seq<nat>) {
    && InBounds(conds, next0, queue) && |next| == |next0|
    && applicable == Sorted(conds, next0, queue, switchVar, Immediate)
    && default_ == Sorted(conds, next0, queue, switchVar, Default)
    && (forall val :: 0 <= val < |forVal| ==> forVal[val] == Sorted(conds, next0, queue, switchVar, ForValue(val)))
    && (forall o :: o in queue ==> next[o] == Advance(conds[o], next0[o], switchVar))
    && (forall o :: 0 <= o < |next| && o !in queue ==> next[o] == next0[o])
  }

  lemma {:induction false} AdvancePending(cond: Condition, n: nat, switchVar: nat)
    requires SortedByVar(cond) && n <= |cond| && forall i :: n <= i < |cond| ==> switchVar <= cond[i].v
    ensures forall i :: Advance(cond, n, switchVar) <= i < |cond| ==> switchVar + 1 <= cond[i].v
  {
    var k := Advance(cond, n, switchVar);
    if k < |cond| {
      assert switchVar < cond[k].v;
      forall i | k <= i < |cond| ensures switchVar + 1 <= cond[i].v {
        assert cond[k].v <= cond[i].v;
      }
    }
  }

  /** Each of the lists can be handed to the next variable. */
  lemma {:induction false} SplitPending(domains: seq<nat>, conds: seq<Condition>, next0: seq<nat>, next: seq<nat>, queue: seq<nat>,
                                        switchVar: nat, p: Place)
    requires ValidConditions(domains, conds) && Pending(conds, next0, queue, switchVar) && |next| == |next0|
    requires forall o :: o in queue ==> next[o] == Advance(conds[o], next0[o], switchVar)
    ensures Pending(conds, next, Sorted(conds, next0, queue, switchVar, p), switchVar + 1)
  {
    SortedMembers(conds, next0, queue, switchVar, p);
    forall o | o in queue
      ensures forall i :: next[o] <= i < |conds[o]| ==> switchVar + 1 <= conds[o][i].v
    {
      AdvancePending(conds[o], next0[o], switchVar);
    }
  }

  /** Only the iterators of the queue's own operators matter to a subtree. */
  lemma {:induction false} PendingAgrees(conds: seq<Condition>, next: seq<nat>, next': seq<nat>, queue: seq<nat>, switchVar: nat)
    requires Pending(conds, next, queue, switchVar) && |next'| == |next| && forall o :: o in queue ==> next'[o] == next[o]
    ensures Pending(conds, next', queue, switchVar)
  {
  }

  /** The iterators of the listed operators have not moved. */
  ghost predicate StillAt(next: seq<nat>, next': seq<nat>, list: seq<nat>) {
    |next'| == |next| && forall o :: o in list && o < |next| ==> next'[o] == next[o]
  }

  ghost predicate DisjointLists(a: seq<nat>, b: seq<nat>) {
    forall o :: !(o in a && o in b)
  }

  lemma {:induction false} OtherStillAt(next: seq<nat>, before: seq<nat>, after: seq<nat>, list: seq<nat>, other: seq<nat>)
    requires StillAt(next, before, other) && DisjointLists(list, other) && |after| == |before|
    requires forall o :: 0 <= o < |after| && o !in list ==> after[o] == before[o]
    ensures StillAt(next, after, other)
  {
  }

  lemma {:induction false} YieldsAgrees(g: Generator, domains: seq<nat>, conds: seq<Condition>, next: seq<nat>, next': seq<nat>,
                                        queue: seq<nat>, queue': seq<nat>)
    requires Yields(g, domains, conds, next, queue) && |next'| == |next|
    requires forall o :: o in queue <==> o in queue'
    requires forall o :: o in queue && o < |next| ==> next'[o] == next[o]
    ensures Yields(g, domains, conds, next', queue')
  {
    forall s, o | IsState(domains, s)
      ensures multiset(Generate(g, s))[o] == if Remains(conds, next', queue', o, s) then 1 else 0
    {
      assert Remains(conds, next, queue, o, s) <==> Remains(conds, next', queue', o, s);
    }
  }

  lemma {:induction false} EmptyYields(domains: seq<nat>, conds: seq<Condition>, next: seq<nat>)
    ensures Yields(GeneratorEmpty, domains, conds, next, [])
  {
  }

  lemma {:induction false} LeafYields(domains: seq<nat>, conds: seq<Condition>, next: seq<nat>, queue: seq<nat>)
    requires InBounds(conds, next, queue) && NoDuplicates(queue) && forall o :: o in queue ==> next[o] == |conds[o]|
    ensures Yields(GeneratorLeaf(queue), domains, conds, next, queue)
  {
    forall s, o | IsState(domains, s)
      ensures multiset(Generate(GeneratorLeaf(queue), s))[o] == if Remains(conds, next, queue, o, s) then 1 else 0
    {
      CountOnce(queue, o);
    }
  }

  lemma {:induction false} SwitchYieldsOne(g: Generator, domains: seq<nat>, conds: seq<Condition>, next0: seq<nat>, next: seq<nat>,
                                           queue: seq<nat>, forVal: seq<seq<nat>>, default_: seq<nat>, s: seq<nat>, o: nat)
    requires ValidConditions(domains, conds) && NoDuplicates(queue)
    requires g.GeneratorSwitch? && Fits(g, domains) && |forVal| == domains[g.switchVar] && IsState(domains, s)
    requires Split(conds, next0, next, queue, g.switchVar, forVal, default_, g.immediate)
    requires Yields(g.generatorForValue[s[g.switchVar]], domains, conds, next, forVal[s[g.switchVar]])
    requires Yields(g.default_, domains, conds, next, default_)
    ensures multiset(Generate(g, s))[o] == if Remains(conds, next0, queue, o, s) then 1 else 0
  {
    var x := s[g.switchVar];
    SortedMembers(conds, next0, queue, g.switchVar, Immediate);
    SortedMembers(conds, next0, queue, g.switchVar, Default);
    SortedMembers(conds, next0, queue, g.switchVar, ForValue(x));
    CountOnce(g.immediate, o);
    assert multiset(Generate(g, s))[o] == multiset(g.immediate)[o]
      + multiset(Generate(g.generatorForValue[x], s))[o] + multiset(Generate(g.default_, s))[o];
    hide Generate, Fits, Sorted, NoDuplicates;
    if o in queue {
      assert next[o] == Advance(conds[o], next0[o], g.switchVar);
      assert Remains(conds, next0, queue, o, s) <==> LeadsHold(conds[o], next0[o], s);
      match PlaceOf(conds[o], next0[o], g.switchVar)
      case Immediate =>
      case ForValue(val) =>
        assert InRange(domains, conds[o]);
      case Default =>
    }
  }

  lemma {:induction false} SwitchYields(g: Generator, domains: seq<nat>, conds: seq<Condition>, next0: seq<nat>, next: seq<nat>,
                                        queue: seq<nat>, forVal: seq<seq<nat>>, default_: seq<nat>)
    requires ValidConditions(domains, conds) && NoDuplicates(queue)
    requires g.GeneratorSwitch? && g.switchVar < |domains| && |g.generatorForValue| == |forVal| == domains[g.switchVar]
    requires Split(conds, next0, next, queue, g.switchVar, forVal, default_, g.immediate)
    requires forall val :: 0 <= val < |forVal| ==> Yields(g.generatorForValue[val], domains, conds, next, forVal[val])
    requires Yields(g.default_, domains, conds, next, default_)
    ensures Yields(g, domains, conds, next0, queue)
  {
    assert Fits(g, domains);
    hide Split, Remains, NoDuplicates, Generate;
    forall s, o | IsState(domains, s)
      ensures multiset(Generate(g, s))[o] == if Remains(conds, next0, queue, o, s) then 1 else 0
    {
      SwitchYieldsOne(g, domains, conds, next0, next, queue, forVal, default_, s, o);
    }
  }

  /** The lists hold exactly the operators of their place, so they do not overlap. */
  lemma {:induction false} SplitMembers(conds: seq<Condition>, next0: seq<nat>, next: seq<nat>, queue: seq<nat>, switchVar: nat,
                                        forVal: seq<seq<nat>>, default_: seq<nat>, applicable: seq<nat>)
    requires Split(conds, next0, next, queue, switchVar, forVal, default_, applicable)
    ensures forall o :: o in applicable <==> o in queue && PlaceOf(conds[o], next0[o], switchVar) == Immediate
    ensures forall o :: o in default_ <==> o in queue && PlaceOf(conds[o], next0[o], switchVar) == Default
    ensures forall val, o :: 0 <= val < |forVal| && o in forVal[val] ==> o in queue && PlaceOf(conds[o], next0[o], switchVar) == ForValue(val)
    ensures NoDuplicates(queue) ==> NoDuplicates(applicable)
  {
    SortedMembers(conds, next0, queue, switchVar, Immediate);
    SortedMembers(conds, next0, queue, switchVar, Default);
    forall val | 0 <= val < |forVal|
      ensures forall o :: o in forVal[val] ==> o in queue && PlaceOf(conds[o], next0[o], switchVar) == ForValue(val)
    {
      SortedMembers(conds, next0, queue, switchVar, ForValue(val));
    }
  }

  lemma {:induction false} PrefixInBounds(conds: seq<Condition>, next: seq<nat>, queue: seq<nat>, i: nat)
    requires InBounds(conds, next, queue) && i <= |queue|
    ensures InBounds(conds, next, queue[..i])
  {
    forall o | o in queue[..i] ensures o < |conds| && next[o] <= |conds[o]| {
      assert o in queue;
    }
  }

  /** What the children's construction needs to know about the lists. */
  lemma {:induction false} ListsApart(conds: seq<Condition>, next0: seq<nat>, queue: seq<nat>, switchVar: nat,
                                      forVal: seq<seq<nat>>, default_: seq<nat>)
    requires InBounds(conds, next0, queue)
    requires forall o :: o in default_ <==> o in queue && PlaceOf(conds[o], next0[o], switchVar) == Default
    requires forall val, o :: 0 <= val < |forVal| && o in forVal[val] ==> o in queue && PlaceOf(conds[o], next0[o], switchVar) == ForValue(val)
    ensures forall val :: 0 <= val < |forVal| ==> DisjointLists(forVal[val], default_)
    ensures forall val, w :: 0 <= val < w < |forVal| ==> DisjointLists(forVal[val], forVal[w])
  {
  }

  lemma {:induction false} ListsPending(domains: seq<nat>, conds: seq<Condition>, next0: seq<nat>, next: seq<nat>, queue: seq<nat>,
                                        switchVar: nat, forVal: seq<seq<nat>>, default_: seq<nat>, applicable: seq<nat>)
    requires ValidConditions(domains, conds) && Pending(conds, next0, queue, switchVar)
    requires Split(conds, next0, next, queue, switchVar, forVal, default_, applicable)
    ensures NoDuplicates(queue) && |next| == |next0| && forall o :: 0 <= o < |next| && o !in queue ==> next[o] == next0[o]
    ensures forall val :: 0 <= val < |forVal| ==> Pending(conds, next, forVal[val], switchVar + 1)
    ensures Pending(conds, next, default_, switchVar + 1)
  {
    forall val | 0 <= val < |forVal| ensures Pending(conds, next, forVal[val], switchVar + 1) {
      SplitPending(domains, conds, next0, next, queue, switchVar, ForValue(val));
    }
    SplitPending(domains, conds, next0, next, queue, switchVar, Default);
  }

  lemma {:induction false} PendingInBounds(conds: seq<Condition>, next: seq<nat>, queue: seq<nat>, switchVar: nat)
    requires Pending(conds, next, queue, switchVar)
    ensures InBounds(conds, next, queue) && NoDuplicates(queue)
  {
  }

  lemma {:induction false} SortedSnoc(conds: seq<Condition>, next: seq<nat>, queue: seq<nat>, i: nat, switchVar: nat, p: Place)
    requires i < |queue| && InBounds(conds, next, queue) && queue[i] < |conds| && next[queue[i]] <= |conds[queue[i]]|
    ensures InBounds(conds, next, queue[..i]) && InBounds(conds, next, queue[..i + 1])
    ensures Sorted(conds, next, queue[..i + 1], switchVar, p) ==
      Sorted(conds, next, queue[..i], switchVar, p) + if PlaceOf(conds[queue[i]], next[queue[i]], switchVar) == p then [queue[i]] else []
  {
    assert queue[..i + 1][..i] == queue[..i];
    PrefixInBounds(conds, next, queue, i);
    PrefixInBounds(conds, next, queue, i + 1);
  }

  lemma {:induction false} NotYetDrained(queue: seq<nat>, i: nat)
    requires NoDuplicates(queue) && i < |queue|
    ensures queue[i] in queue && queue[i] !in queue[..i]
    ensures forall o :: o in queue[..i + 1] <==> o in queue[..i] || o == queue[i]
  {
    assert queue[..i + 1] == queue[..i] + [queue[i]];
  }

  lemma {:induction false} PlaceAndAdvance(cond: Condition, n: nat, switchVar: nat)
    requires n <= |cond|
    ensures PlaceOf(cond, n, switchVar) == Immediate <==> n == |cond|
    ensures n < |cond| && cond[n].v == switchVar ==> PlaceOf(cond, n, switchVar) == ForValue(cond[n].val)
    ensures n < |cond| && cond[n].v == switchVar ==> Advance(cond, n, switchVar) == Skip(cond, n)
    ensures n < |cond| && cond[n].v != switchVar ==> PlaceOf(cond, n, switchVar) == Default
    ensures n == |cond| || cond[n].v != switchVar ==> Advance(cond, n, switchVar) == n
  {
  }

  lemma {:induction false} SplitStart(conds: seq<Condition>, next: seq<nat>, queue: seq<nat>, switchVar: nat, forVal: seq<seq<nat>>)
    requires InBounds(conds, next, queue) && forall val :: 0 <= val < |forVal| ==> forVal[val] == []
    ensures InBounds(conds, next, queue[..0]) && Split(conds, next, next, queue[..0], switchVar, forVal, [], [])
  {
  }

  lemma {:induction false} SplitUntouched(conds: seq<Condition>, next0: seq<nat>, next: seq<nat>, queue: seq<nat>, switchVar: nat,
                                          forVal: seq<seq<nat>>, default_: seq<nat>, applicable: seq<nat>, o: nat)
    requires Split(conds, next0, next, queue, switchVar, forVal, default_, applicable) && o !in queue && o < |conds|
    ensures |next| == |next0| == |conds| && next[o] == next0[o]
  {
  }

  /** Draining one more operator. */
  lemma {:induction false} SplitStep(conds: seq<Condition>, next0: seq<nat>, next1: seq<nat>, next: seq<nat>, queue: seq<nat>, i: nat,
                                     switchVar: nat, forVal1: seq<seq<nat>>, default1: seq<nat>, applicable1: seq<nat>,
                                     forVal: seq<seq<nat>>, default_: seq<nat>, applicable: seq<nat>)
    requires i < |queue| && InBounds(conds, next0, queue) && NoDuplicates(queue)
    requires queue[i] < |next1| && queue[i] < |conds| && queue[i] < |next0| && next0[queue[i]] <= |conds[queue[i]]|
    requires Split(conds, next0, next1, queue[..i], switchVar, forVal1, default1, applicable1)
    requires next == next1[queue[i] := Advance(conds[queue[i]], next0[queue[i]], switchVar)]
    requires var p := PlaceOf(conds[queue[i]], next0[queue[i]], switchVar);
      && applicable == applicable1 + (if p == Immediate then [queue[i]] else [])
      && default_ == default1 + (if p == Default then [queue[i]] else [])
      && |forVal| == |forVal1|
      && (forall val :: 0 <= val < |forVal| ==> forVal[val] == forVal1[val] + (if p == ForValue(val) then [queue[i]] else []))
    ensures InBounds(conds, next0, queue[..i + 1])
    ensures Split(conds, next0, next, queue[..i + 1], switchVar, forVal, default_, applicable)
  {
    SortedSnoc(conds, next0, queue, i, switchVar, Immediate);
    SortedSnoc(conds, next0, queue, i, switchVar, Default);
    forall val | 0 <= val < |forVal| ensures forVal[val] == Sorted(conds, next0, queue[..i + 1], switchVar, ForValue(val)) {
      SortedSnoc(conds, next0, queue, i, switchVar, ForValue(val));
    }
    assert queue[..i + 1] == queue[..i] + [queue[i]];
    hide Sorted;
    forall o | o in queue[..i + 1] ensures next[o] == Advance(conds[o], next0[o], switchVar) {
      assert o in queue[..i] || o == queue[i];
    }
  }

  /** Behind the last variable no operator has conditions left. */
  lemma {:induction false} AllDone(domains: seq<nat>, conds: seq<Condition>, next: seq<nat>, queue: seq<nat>)
    requires ValidConditions(domains, conds) && Pending(conds, next, queue, |domains|)
    ensures forall o :: o in queue ==> next[o] == |conds[o]|
  {
    forall o | o in queue ensures next[o] == |conds[o]| {
      assert InRange(domains, conds[o]);
      if next[o] < |conds[o]| {
        SomeInRange(domains, conds[o], next[o]);
      }
    }
  }

  lemma {:induction false} SomeInRange(domains: seq<nat>, cond: Condition, n: nat)
    requires InRange(domains, cond) && n < |cond|
    ensures !forall i :: n <= i < |cond| ==> |domains| <= cond[i].v
  {
    assert cond[n].v < |domains|;
  }

  // ---------- Sorting preconditions ----------

  lemma {:induction false} SameFacts(domains: seq<nat>, cond: Condition, pre: Condition)
    requires multiset(cond) == multiset(pre)
    ensures forall f :: f in cond <==> f in pre
    ensures InRange(domains, pre) ==> InRange(domains, cond)
    ensures Consistent(pre) <==> Consistent(cond)
    ensures forall s :: HoldsIn(cond, s) <==> HoldsIn(pre, s)
  {
    assert forall f :: f in cond <==> f in multiset(cond);
    assert forall f :: f in pre <==> f in multiset(pre);
    if InRange(domains, pre) {
      forall i | 0 <= i < |cond| ensures cond[i].v < |domains| && cond[i].val < domains[cond[i].v] {
        assert cond[i] in pre;
      }
    }
  }

  lemma {:induction false} InsertSorted(cond: Condition, j: nat, f: Fact, r: Condition)
    requires SortedByVar(cond) && j <= |cond|
    requires forall i :: j <= i < |cond| ==> f.v < cond[i].v
    requires 0 < j ==> cond[j - 1].v <= f.v
    requires r == cond[..j] + [f] + cond[j..]
    ensures SortedByVar(r)
  {
    forall a, b | 0 <= a < b < |r| ensures r[a].v <= r[b].v {
      InsertOrdered(cond, j, f, r, a, b);
    }
  }

  lemma {:induction false} InsertKeepsFacts(cond: Condition, j: nat, pre: Condition, k: nat)
    requires j <= |cond| && k < |pre| && multiset(cond) == multiset(pre[..k])
    ensures multiset(cond[..j] + [pre[k]] + cond[j..]) == multiset(pre[..k + 1])
  {
    assert cond == cond[..j] + cond[j..];
    assert pre[..k + 1] == pre[..k] + [pre[k]];
  }

  lemma {:induction false} InsertOrdered(cond: Condition, j: nat, f: Fact, r: Condition, a: nat, b: nat)
    requires SortedByVar(cond) && j <= |cond|
    requires j < |cond| ==> f.v < cond[j].v
    requires 0 < j ==> cond[j - 1].v <= f.v
    requires r == cond[..j] + [f] + cond[j..] && a < b < |r|
    ensures r[a].v <= r[b].v
  {
    if b < j {
      assert r[a] == cond[a] && r[b] == cond[b];
    } else if b == j {
      assert r[a] == cond[a] && cond[a].v <= cond[j - 1].v;
    } else if a < j {
      assert r[a] == cond[a] && r[b] == cond[b - 1];
    } else {
      assert r[b] == cond[b - 1] && cond[j].v <= cond[b - 1].v;
      assert a > j ==> r[a] == cond[a - 1];
    }
  }

  /** The order among the facts of one variable is left open by the source's sort; this one is stable. */
  method SortByVar(pre: Condition) returns (cond: Condition)
    ensures SortedByVar(cond) && multiset(cond) == multiset(pre)
  {
    hide SortedByVar;
    cond := [];
    assert SortedByVar(cond) by {
      NothingToSort();
    }
    for k := 0 to |pre|
      invariant SortedByVar(cond) && multiset(cond) == multiset(pre[..k])
    {
      var j := |cond|;
      while 0 < j && pre[k].v < cond[j - 1].v
        invariant 0 <= j <= |cond|
        invariant forall i :: j <= i < |cond| ==> pre[k].v < cond[i].v
      {
        j := j - 1;
      }
      InsertSorted(cond, j, pre[k], cond[..j] + [pre[k]] + cond[j..]);
      InsertKeepsFacts(cond, j, pre, k);
      cond := cond[..j] + [pre[k]] + cond[j..];
    }
    assert pre[..|pre|] == pre;
  }

  lemma {:induction false} NothingToSort()
    ensures SortedByVar([])
  {
  }

  // ---------- One fact per variable ----------

  /** The values that the first facts of the variables ask for; zero where nothing is asked. */
  ghost function LeadState(domains: seq<nat>, cond: Condition, i: nat): (s: seq<nat>)
    requires i <= |cond| && InRange(domains, cond)
    ensures |s| == |domains|
    decreases |cond| - i
  {
    if i == |cond| then seq(|domains|, _ => 0)
    else LeadState(domains, cond, Skip(cond, i))[cond[i].v := cond[i].val]
  }

  lemma {:induction false} LeadsUnaffected(cond: Condition, i: nat, s: seq<nat>, v: nat, val: nat)
    requires i <= |cond| && v < |s| && forall j :: i <= j < |cond| ==> cond[j].v != v
    ensures LeadsHold(cond, i, s[v := val]) <==> LeadsHold(cond, i, s)
    decreases |cond| - i
  {
    if i < |cond| {
      LeadsUnaffected(cond, Skip(cond, i), s, v, val);
    }
  }

  lemma {:induction false} LeadStateHolds(domains: seq<nat>, cond: Condition, i: nat)
    requires i <= |cond| && InRange(domains, cond) && SortedByVar(cond) && forall v :: 0 <= v < |domains| ==> 0 < domains[v]
    ensures IsState(domains, LeadState(domains, cond, i)) && LeadsHold(cond, i, LeadState(domains, cond, i))
    decreases |cond| - i
  {
    if i < |cond| {
      var k := Skip(cond, i);
      LeadStateHolds(domains, cond, k);
      forall j | k <= j < |cond| ensures cond[j].v != cond[i].v {
        assert cond[i].v <= cond[k].v <= cond[j].v;
      }
      LeadsUnaffected(cond, k, LeadState(domains, cond, k), cond[i].v, cond[i].val);
    }
  }

  /** Two facts on one variable: some state satisfies every first fact but not the whole condition. */
  lemma {:induction false} InconsistentMisfires(domains: seq<nat>, cond: Condition) returns (s: seq<nat>)
    requires InRange(domains, cond) && SortedByVar(cond) && forall v :: 0 <= v < |domains| ==> 0 < domains[v]
    requires !Consistent(cond)
    ensures IsState(domains, s) && LeadsHold(cond, 0, s) && !HoldsIn(cond, s)
  {
    s := LeadState(domains, cond, 0);
    LeadStateHolds(domains, cond, 0);
  }

  lemma {:induction false} LeadsFollow(cond: Condition, i: nat, s: seq<nat>)
    requires i <= |cond| && HoldsIn(cond, s)
    ensures LeadsHold(cond, i, s)
    decreases |cond| - i
  {
    if i < |cond| {
      assert cond[i] in cond;
      LeadsFollow(cond, Skip(cond, i), s);
    }
  }

  // ---------- The tree as a whole ----------

  ghost predicate IsTask(domains: seq<nat>, ops: seq<Condition>) {
    && (forall v :: 0 <= v < |domains| ==> 0 < domains[v])
    && (forall o :: 0 <= o < |ops| ==> InRange(domains, ops[o]))
  }

  /** In every state the tree lists the operator once if its preconditions hold and not at all otherwise. */
  ghost predicate ListsExactly(g: Generator, domains: seq<nat>, pre: Condition, o: nat)
    requires Fits(g, domains)
  {
    forall s :: IsState(domains, s) ==> multiset(Generate(g, s))[o] == if HoldsIn(pre, s) then 1 else 0
  }

  /** Never twice, and always when applicable, whatever the preconditions. */
  ghost predicate ListsApplicable(g: Generator, domains: seq<nat>, pre: Condition, o: nat)
    requires Fits(g, domains)
  {
    forall s :: IsState(domains, s) ==>
      multiset(Generate(g, s))[o] <= 1 && (HoldsIn(pre, s) ==> multiset(Generate(g, s))[o] == 1)
  }

  lemma {:induction false} TreeIsExact(g: Generator, domains: seq<nat>, ops: seq<Condition>, conds: seq<Condition>, next: seq<nat>,
                                       queue: seq<nat>, o: nat)
    requires IsTask(domains, ops) && |ops| == |conds| == |next| == |queue| && Yields(g, domains, conds, next, queue)
    requires forall k :: 0 <= k < |queue| ==> queue[k] == k && next[k] == 0
    requires o < |ops| && SortedByVar(conds[o]) && multiset(conds[o]) == multiset(ops[o])
    ensures ListsExactly(g, domains, ops[o], o) <==> Consistent(ops[o])
    ensures ListsApplicable(g, domains, ops[o], o)
  {
    var cond := conds[o];
    SameFacts(domains, cond, ops[o]);
    assert queue[o] in queue;
    forall s | IsState(domains, s) ensures multiset(Generate(g, s))[o] == if LeadsHold(cond, 0, s) then 1 else 0 {
      assert Remains(conds, next, queue, o, s) <==> LeadsHold(cond, 0, s);
    }
    LeadsAreExact(g, domains, cond, ops[o], o);
  }

  lemma {:induction false} LeadsAreExact(g: Generator, domains: seq<nat>, cond: Condition, pre: Condition, o: nat)
    requires (forall v :: 0 <= v < |domains| ==> 0 < domains[v]) && Fits(g, domains) && InRange(domains, cond) && SortedByVar(cond)
    requires multiset(cond) == multiset(pre)
    requires forall s :: IsState(domains, s) ==> multiset(Generate(g, s))[o] == if LeadsHold(cond, 0, s) then 1 else 0
    ensures ListsExactly(g, domains, pre, o) <==> Consistent(pre)
    ensures ListsApplicable(g, domains, pre, o)
  {
    hide Generate, Fits, InRange, SortedByVar, LeadsHold, HoldsIn, IsState, Consistent;
    SameFacts(domains, cond, pre);
    if Consistent(pre) {
      forall s | IsState(domains, s) ensures LeadsHold(cond, 0, s) <==> HoldsIn(pre, s) {
        LeadsAreAll(cond, 0, s);
        assert cond[0..] == cond;
      }
    } else {
      var s := InconsistentMisfires(domains, cond);
      assert !HoldsIn(pre, s) && multiset(Generate(g, s))[o] == 1;
    }
    forall s | IsState(domains, s) && HoldsIn(pre, s) ensures LeadsHold(cond, 0, s) {
      LeadsFollow(cond, 0, s);
    }
  }

  class SuccessorGenerator {
    const domains: seq<nat>
    var conditions: seq<Condition>
    var nextConditionByOp: seq<nat>
    var root: Generator

    /** The tree agrees with a filter over the operators exactly for those with at most one value per variable. */
    constructor (domains: seq<nat>, ops: seq<Condition>)
      requires IsTask(domains, ops)
      ensures this.domains == domains && Fits(root, domains)
      ensures forall o :: 0 <= o < |ops| ==> (ListsExactly(root, domains, ops[o], o) <==> Consistent(ops[o]))
      ensures forall o :: 0 <= o < |ops| ==> ListsApplicable(root, domains, ops[o], o)
      ensures forall s, o :: IsState(domains, s) && |ops| <= o ==> o !in Generate(root, s)
    {
      this.domains := domains;
      conditions := [];
      nextConditionByOp := [];
      root := GeneratorEmpty;
      new;
      var allOperators: seq<nat> := [];
      while |allOperators| < |ops|
        invariant this.domains == domains && |allOperators| == |conditions| == |nextConditionByOp| <= |ops|
        invariant forall o :: 0 <= o < |allOperators| ==> allOperators[o] == o && nextConditionByOp[o] == 0
        invariant ValidConditions(domains, conditions)
        invariant forall o :: 0 <= o < |conditions| ==> multiset(conditions[o]) == multiset(ops[o])
      {
        var op := |allOperators|;
        var cond := SortByVar(ops[op]);
        SameFacts(domains, cond, ops[op]);
        allOperators := allOperators + [op];
        conditions := conditions + [cond];
        nextConditionByOp := nextConditionByOp + [0];
      }
      ghost var first := nextConditionByOp;
      root := ConstructRecursive(0, allOperators);
      forall o | 0 <= o < |ops|
        ensures ListsExactly(root, domains, ops[o], o) <==> Consistent(ops[o])
        ensures ListsApplicable(root, domains, ops[o], o)
      {
        TreeIsExact(root, domains, ops, conditions, first, allOperators, o);
      }
      forall s, o | IsState(domains, s) && |ops| <= o ensures o !in Generate(root, s) {
        assert multiset(Generate(root, s))[o] == 0;
      }
    }

    method ConstructRecursive(switchVar0: nat, queue0: seq<nat>) returns (g: Generator)
      requires ValidConditions(domains, conditions) && switchVar0 <= |domains|
      requires Pending(conditions, nextConditionByOp, queue0, switchVar0)
      modifies this`nextConditionByOp
      ensures Yields(g, domains, conditions, old(nextConditionByOp), queue0)
      ensures |nextConditionByOp| == |old(nextConditionByOp)|
      ensures forall o :: 0 <= o < |nextConditionByOp| && o !in queue0 ==> nextConditionByOp[o] == old(nextConditionByOp)[o]
      decreases |domains| - switchVar0, 2
    {
      if queue0 == [] {
        EmptyYields(domains, conditions, nextConditionByOp);
        return GeneratorEmpty;
      }
      var switchVar, queue := switchVar0, queue0;
      while true
        invariant switchVar <= |domains| && switchVar0 <= switchVar
        invariant nextConditionByOp == old(nextConditionByOp)
        invariant Pending(conditions, nextConditionByOp, queue, switchVar)
        invariant forall o :: o in queue <==> o in queue0
        decreases |domains| - switchVar
      {
        ghost var next0 := nextConditionByOp;
        if switchVar == |domains| {
          AllDone(domains, conditions, next0, queue);
          LeafYields(domains, conditions, next0, queue);
          YieldsAgrees(GeneratorLeaf(queue), domains, conditions, next0, next0, queue, queue0);
          return GeneratorLeaf(queue);
        }
        var forVal, default_, applicable, allOpsAreImmediate, varIsInteresting := Drain(switchVar, queue);
        SplitMembers(conditions, next0, nextConditionByOp, queue, switchVar, forVal, default_, applicable);
        if allOpsAreImmediate {
          LeafYields(domains, conditions, next0, applicable);
          YieldsAgrees(GeneratorLeaf(applicable), domains, conditions, next0, next0, applicable, queue0);
          return GeneratorLeaf(applicable);
        } else if varIsInteresting {
          g := ConstructSwitch(switchVar, next0, queue, forVal, default_, applicable);
          YieldsAgrees(g, domains, conditions, next0, next0, queue, queue0);
          return;
        } else {
          assert nextConditionByOp == next0;
          SplitPending(domains, conditions, next0, nextConditionByOp, queue, switchVar, Default);
          switchVar := switchVar + 1;
          queue := default_;
        }
      }
    }

    /** Drains the queue into the three kinds of lists, advancing iterators past the switch variable. */
    method Drain(switchVar: nat, queue: seq<nat>)
      returns (forVal: seq<seq<nat>>, default_: seq<nat>, applicable: seq<nat>, allOpsAreImmediate: bool, varIsInteresting: bool)
      requires ValidConditions(domains, conditions) && switchVar < |domains|
      requires Pending(conditions, nextConditionByOp, queue, switchVar)
      modifies this`nextConditionByOp
      ensures |forVal| == domains[switchVar]
      ensures Split(conditions, old(nextConditionByOp), nextConditionByOp, queue, switchVar, forVal, default_, applicable)
      ensures allOpsAreImmediate <==> forall o :: o in queue ==> old(nextConditionByOp)[o] == |conditions[o]|
      ensures varIsInteresting <==> exists o :: o in queue && PlaceOf(conditions[o], old(nextConditionByOp)[o], switchVar) != Default
    {
      forVal, default_, applicable := seq(domains[switchVar], _ => []), [], [];
      allOpsAreImmediate, varIsInteresting := true, false;
      PendingInBounds(conditions, nextConditionByOp, queue, switchVar);
      hide Split, Sorted, Pending, NoDuplicates, PlaceOf, Advance;
      ghost var next0 := nextConditionByOp;
      SplitStart(conditions, next0, queue, switchVar, forVal);
      var i := 0;
      while i < |queue|
        invariant i <= |queue| && |forVal| == domains[switchVar] && InBounds(conditions, next0, queue[..i])
        invariant Split(conditions, next0, nextConditionByOp, queue[..i], switchVar, forVal, default_, applicable)
        invariant allOpsAreImmediate <==> forall o :: o in queue[..i] ==> next0[o] == |conditions[o]|
        invariant varIsInteresting <==> exists o :: o in queue[..i] && PlaceOf(conditions[o], next0[o], switchVar) != Default
      {
        var op := queue[i];
        ghost var next1 := nextConditionByOp;
        PrefixInBounds(conditions, next0, queue, i + 1);
        NotYetDrained(queue, i);
        assert InRange(domains, conditions[op]);
        SplitUntouched(conditions, next0, next1, queue[..i], switchVar, forVal, default_, applicable, op);
        PlaceAndAdvance(conditions[op], next0[op], switchVar);
        ghost var forVal1, default1, applicable1 := forVal, default_, applicable;
        if nextConditionByOp[op] == |conditions[op]| {
          varIsInteresting := true;
          applicable := applicable + [op];
        } else {
          allOpsAreImmediate := false;
          var fact := conditions[op][nextConditionByOp[op]];
          if fact.v == switchVar {
            varIsInteresting := true;
            PassSwitchVar(op, switchVar);
            forVal := forVal[fact.val := forVal[fact.val] + [op]];
          } else {
            default_ := default_ + [op];
          }
        }
        SplitStep(conditions, next0, next1, nextConditionByOp, queue, i, switchVar, forVal1, default1, applicable1, forVal, default_, applicable);
        i := i + 1;
      }
      assert queue[..i] == queue;
    }

    /** Moves the operator's iterator to the first condition on another variable. */
    method PassSwitchVar(op: nat, switchVar: nat)
      requires op < |nextConditionByOp| == |conditions| && nextConditionByOp[op] < |conditions[op]|
      requires conditions[op][nextConditionByOp[op]].v == switchVar
      modifies this`nextConditionByOp
      ensures nextConditionByOp == old(nextConditionByOp)[op := Skip(conditions[op], old(nextConditionByOp)[op])]
    {
      ghost var n := nextConditionByOp[op];
      while nextConditionByOp[op] < |conditions[op]| && conditions[op][nextConditionByOp[op]].v == switchVar
        invariant |nextConditionByOp| == |conditions| && n <= nextConditionByOp[op] <= |conditions[op]|
        invariant forall j :: n <= j < nextConditionByOp[op] ==> conditions[op][j].v == switchVar
        invariant nextConditionByOp == old(nextConditionByOp)[op := nextConditionByOp[op]]
        decreases |conditions[op]| - nextConditionByOp[op]
      {
        nextConditionByOp := nextConditionByOp[op := nextConditionByOp[op] + 1];
      }
    }

    /** Builds the subtree of one list; the iterators of its operators are where the draining loop left them. */
    method ConstructChild(switchVar: nat, ghost next: seq<nat>, queue: seq<nat>) returns (g: Generator)
      requires ValidConditions(domains, conditions) && switchVar <= |domains|
      requires Pending(conditions, next, queue, switchVar) && StillAt(next, nextConditionByOp, queue)
      modifies this`nextConditionByOp
      ensures Yields(g, domains, conditions, next, queue)
      ensures |nextConditionByOp| == |old(nextConditionByOp)|
      ensures forall o :: 0 <= o < |nextConditionByOp| && o !in queue ==> nextConditionByOp[o] == old(nextConditionByOp)[o]
      decreases |domains| - switchVar, 3
    {
      hide Yields, ValidConditions, NoDuplicates;
      PendingAgrees(conditions, next, nextConditionByOp, queue, switchVar);
      ghost var before := nextConditionByOp;
      g := ConstructRecursive(switchVar, queue);
      YieldsAgrees(g, domains, conditions, before, next, queue, queue);
    }

    method ConstructSwitch(switchVar: nat, ghost next0: seq<nat>, ghost queue: seq<nat>, forVal: seq<seq<nat>>, default_: seq<nat>,
                           applicable: seq<nat>) returns (g: Generator)
      requires ValidConditions(domains, conditions) && switchVar < |domains| && |forVal| == domains[switchVar]
      requires Pending(conditions, next0, queue, switchVar)
      requires Split(conditions, next0, nextConditionByOp, queue, switchVar, forVal, default_, applicable)
      modifies this`nextConditionByOp
      ensures Yields(g, domains, conditions, next0, queue)
      ensures |nextConditionByOp| == |next0|
      ensures forall o :: 0 <= o < |nextConditionByOp| && o !in queue ==> nextConditionByOp[o] == next0[o]
      decreases |domains| - switchVar, 0
    {
      ghost var next := nextConditionByOp;
      ListsPending(domains, conditions, next0, next, queue, switchVar, forVal, default_, applicable);
      SplitMembers(conditions, next0, next, queue, switchVar, forVal, default_, applicable);
      hide Split, Sorted, Pending, Yields, ValidConditions, InBounds, NoDuplicates;
      ListsApart(conditions, next0, queue, switchVar, forVal, default_);
      hide PlaceOf;
      assert StillAt(next, next, default_) && forall val :: 0 <= val < |forVal| ==> StillAt(next, next, forVal[val]);
      hide StillAt, DisjointLists;
      var generatorForVal: seq<Generator> := [];
      while |generatorForVal| < |forVal|
        invariant |generatorForVal| <= |forVal| && |nextConditionByOp| == |next|
        invariant forall o :: 0 <= o < |next| && o !in queue ==> nextConditionByOp[o] == next0[o]
        invariant StillAt(next, nextConditionByOp, default_)
        invariant forall val :: |generatorForVal| <= val < |forVal| ==> StillAt(next, nextConditionByOp, forVal[val])
        invariant forall val :: 0 <= val < |generatorForVal| ==> Yields(generatorForVal[val], domains, conditions, next, forVal[val])
      {
        var val := |generatorForVal|;
        ghost var before := nextConditionByOp;
        var child := ConstructChild(switchVar + 1, next, forVal[val]);
        generatorForVal := generatorForVal + [child];
        OtherStillAt(next, before, nextConditionByOp, forVal[val], default_);
        forall w | val < w < |forVal| ensures StillAt(next, nextConditionByOp, forVal[w]) {
          OtherStillAt(next, before, nextConditionByOp, forVal[val], forVal[w]);
        }
      }
      var defaultGenerator := ConstructChild(switchVar + 1, next, default_);
      g := GeneratorSwitch(switchVar, applicable, generatorForVal, defaultGenerator);
      SwitchYields(g, domains, conditions, next0, next, queue, forVal, default_);
    }
  }
}
