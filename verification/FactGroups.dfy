/** Greedy choice of mutex groups that cover the reachable facts (src/translate/fact_groups.py). */
module FactGroups {

  type Fact = string

  /** The identity of a set that several lists share. */
  type GroupId = nat

  // ---------- Covers ----------

  function SetOf(s: seq<Fact>): set<Fact> {
    set f | f in s
  }

  ghost function Covered(result: seq<seq<Fact>>): set<Fact> {
    if result == [] then {} else Covered(result[..|result| - 1]) + SetOf(result[|result| - 1])
  }

  ghost predicate NoRepeats(s: seq<Fact>) {
    forall i, j :: 0 <= i < j < |s| ==> s[i] != s[j]
  }

  /** What is left of each group once some facts are covered. */
  ghost predicate Remaining(original: seq<set<Fact>>, covered: set<Fact>, members: seq<set<Fact>>) {
    |members| == |original| && forall g :: 0 <= g < |original| ==> members[g] == original[g] - covered
  }

  /** A group after removing what is covered, at least two facts strong, and no group has more left. */
  ghost predicate IsLargest(original: seq<set<Fact>>, covered: set<Fact>, choice: seq<Fact>) {
    && NoRepeats(choice) && |choice| >= 2
    && (exists g :: 0 <= g < |original| && SetOf(choice) == original[g] - covered)
    && (forall g :: 0 <= g < |original| ==> |original[g] - covered| <= |choice|)
  }

  ghost predicate GreedyChoices(original: seq<set<Fact>>, result: seq<seq<Fact>>) {
    forall i :: 0 <= i < |result| ==> IsLargest(original, Covered(result[..i]), result[i])
  }

  lemma {:induction false} CoveredMember(result: seq<seq<Fact>>, f: Fact)
    ensures f in Covered(result) <==> exists i :: 0 <= i < |result| && f in result[i]
  {
    if result != [] {
      var front := result[..|result| - 1];
      CoveredMember(front, f);
      if i :| 0 <= i < |front| && f in front[i] {
        assert f in result[i];
      }
      if i :| 0 <= i < |result| && f in result[i] {
        assert i < |front| ==> f in front[i];
      }
    }
  }

  /** Chosen groups do not overlap. */
  lemma {:induction false} ChoicesDisjoint(original: seq<set<Fact>>, result: seq<seq<Fact>>, i: nat, j: nat, f: Fact)
    requires GreedyChoices(original, result) && i < j < |result| && f in result[i]
    ensures f !in result[j]
  {
    CoveredMember(result[..j], f);
    assert result[..j][i] == result[i];
    var g :| 0 <= g < |original| && SetOf(result[j]) == original[g] - Covered(result[..j]);
  }

  lemma {:induction false} SubsetSize(a: set<Fact>, b: set<Fact>)
    requires a <= b
    ensures |a| <= |b|
  {
    if x :| x in a {
      SubsetSize(a - {x}, b - {x});
    }
  }

  lemma {:induction false} NoRepeatsSize(s: seq<Fact>)
    requires NoRepeats(s)
    ensures |SetOf(s)| == |s|
  {
    if s != [] {
      var front, x := s[..|s| - 1], s[|s| - 1];
      NoRepeatsSize(front);
      assert s == front + [x];
      assert SetOf(s) == SetOf(front) + {x};
      assert x !in front;
    }
  }

  lemma {:induction false} CoveredGrows(result: seq<seq<Fact>>, i: nat, j: nat)
    requires i <= j <= |result|
    ensures Covered(result[..i]) <= Covered(result[..j])
    decreases j
  {
    if i < j {
      CoveredGrows(result, i, j - 1);
      assert result[..j][..j - 1] == result[..j - 1];
    }
  }

  /** Each chosen group is at most as large as the ones before it. */
  lemma {:induction false} SizesFall(original: seq<set<Fact>>, result: seq<seq<Fact>>, i: nat, j: nat)
    requires GreedyChoices(original, result) && i < j < |result|
    ensures |result[j]| <= |result[i]|
  {
    assert IsLargest(original, Covered(result[..j]), result[j]) && IsLargest(original, Covered(result[..i]), result[i]);
    var g :| 0 <= g < |original| && SetOf(result[j]) == original[g] - Covered(result[..j]);
    CoveredGrows(result, i, j);
    SubsetSize(original[g] - Covered(result[..j]), original[g] - Covered(result[..i]));
    NoRepeatsSize(result[j]);
  }

  // ---------- The queue's lists, as values ----------

  type Buckets = seq<seq<GroupId>>

  /** Every group with facts left, but for one, waits in a list for its size or a larger one. */
  ghost predicate Waiting(buckets: Buckets, members: seq<set<Fact>>, maxSize: nat, besides: set<GroupId>) {
    && maxSize < |buckets|
    && (forall k, g {:trigger g in buckets[k]} :: 0 <= k < |buckets| && g in buckets[k] ==> g < |members| && |members[g]| <= k)
    && (forall g :: 0 <= g < |members| && g !in besides && |members[g]| > 1 ==> exists k :: 0 <= k <= maxSize && g in buckets[k])
  }

  /** The lists of groups by fact. */
  ghost predicate Indexed(byFact: map<Fact, seq<GroupId>>, original: seq<set<Fact>>) {
    && (forall f, g :: 0 <= g < |original| && f in original[g] ==> f in byFact && g in byFact[f])
    && (forall f :: f in byFact ==> GoodList(byFact[f], f, original))
  }

  /** Only groups with the fact, each once. */
  ghost predicate GoodList(list: seq<GroupId>, f: Fact, original: seq<set<Fact>>) {
    && (forall i :: 0 <= i < |list| ==> list[i] < |original| && f in original[list[i]])
    && (forall i, j :: 0 <= i < j < |list| ==> list[i] != list[j])
  }

  lemma {:induction false} GoodListMore(list: seq<GroupId>, f: Fact, original: seq<set<Fact>>, g: GroupId)
    requires g < |original| && (list == [] || GoodList(list, f, original[..g]))
    ensures GoodList(list + if f in original[g] then [g] else [], f, original[..g + 1])
  {
  }

  lemma {:induction false} TakeCandidate(buckets: Buckets, members: seq<set<Fact>>, maxSize: nat)
    requires Waiting(buckets, members, maxSize, {}) && buckets[maxSize] != []
    ensures var list := buckets[maxSize]; var c := list[|list| - 1];
      c < |members| && |members[c]| <= maxSize && Waiting(buckets[maxSize := list[..|list| - 1]], members, maxSize, {c})
  {
    var list := buckets[maxSize];
    var c := list[|list| - 1];
    assert c in buckets[maxSize];
    var buckets' := buckets[maxSize := list[..|list| - 1]];
    assert list == list[..|list| - 1] + [c];
    forall k, g {:trigger g in buckets'[k]} | 0 <= k < |buckets'| && g in buckets'[k] ensures g < |members| && |members[g]| <= k {
      assert g in buckets[k];
    }
    forall g | 0 <= g < |members| && g != c && |members[g]| > 1 ensures exists k :: 0 <= k <= maxSize && g in buckets'[k] {
      var k :| 0 <= k <= maxSize && g in buckets[k];
      assert g in buckets'[k];
    }
  }

  lemma {:induction false} PutBack(buckets: Buckets, members: seq<set<Fact>>, maxSize: nat, c: GroupId)
    requires Waiting(buckets, members, maxSize, {c}) && c < |members| && |members[c]| < maxSize
    ensures var k := |members[c]|; Waiting(buckets[k := buckets[k] + [c]], members, maxSize, {})
  {
    var k := |members[c]|;
    var buckets' := buckets[k := buckets[k] + [c]];
    forall g | 0 <= g < |members| && |members[g]| > 1 ensures exists k :: 0 <= k <= maxSize && g in buckets'[k] {
      if g == c {
        assert g in buckets'[k];
      } else {
        var l :| 0 <= l <= maxSize && g in buckets[l];
        assert g in buckets'[l];
      }
    }
  }

  lemma {:induction false} NextSize(buckets: Buckets, members: seq<set<Fact>>, maxSize: nat)
    requires Waiting(buckets, members, maxSize, {}) && maxSize > 0 && buckets[maxSize] == []
    ensures Waiting(buckets, members, maxSize - 1, {})
  {
    forall g | 0 <= g < |members| && |members[g]| > 1 ensures exists k :: 0 <= k <= maxSize - 1 && g in buckets[k] {
      var k :| 0 <= k <= maxSize && g in buckets[k];
    }
  }

  /** No group has more facts left than the size reached. */
  lemma {:induction false} NoneLarger(buckets: Buckets, members: seq<set<Fact>>, maxSize: nat, besides: set<GroupId>)
    requires Waiting(buckets, members, maxSize, besides)
    ensures forall g :: 0 <= g < |members| && g !in besides && |members[g]| > 1 ==> |members[g]| <= maxSize
  {
    forall g | 0 <= g < |members| && g !in besides && |members[g]| > 1 ensures |members[g]| <= maxSize {
      var k :| 0 <= k <= maxSize && g in buckets[k];
    }
  }

  /** When groups shrink, the lists stay good. */
  lemma {:induction false} ShrinkWaiting(buckets: Buckets, members: seq<set<Fact>>, members': seq<set<Fact>>, maxSize: nat, top: GroupId)
    requires Waiting(buckets, members, maxSize, {top}) && |members'| == |members| && top < |members| && members'[top] == {}
    requires forall g :: 0 <= g < |members| ==> members'[g] <= members[g]
    ensures Waiting(buckets, members', maxSize, {})
  {
    forall g | 0 <= g < |members| ensures |members'[g]| <= |members[g]| {
      SubsetSize(members'[g], members[g]);
    }
  }

  // ---------- Building the lists ----------

  lemma {:induction false} SetOfSize(s: seq<Fact>)
    ensures |SetOf(s)| <= |s|
  {
    if s != [] {
      var front, x := s[..|s| - 1], s[|s| - 1];
      SetOfSize(front);
      assert s == front + [x];
      assert SetOf(s) == SetOf(front) + {x};
    }
  }

  /** The first n groups have been filed by fact. */
  ghost predicate IndexedUpTo(byFact: map<Fact, seq<GroupId>>, original: seq<set<Fact>>, n: nat)
    requires n <= |original|
  {
    Indexed(byFact, original[..n])
  }

  ghost predicate WaitingUpTo(buckets: Buckets, original: seq<set<Fact>>, maxSize: nat, n: nat)
    requires n <= |original|
  {
    Waiting(buckets, original[..n], maxSize, {})
  }

  lemma {:induction false} FileGroup(buckets: Buckets, original: seq<set<Fact>>, maxSize: nat, n: nat)
    requires n < |original| && |original[n]| <= maxSize && WaitingUpTo(buckets, original, maxSize, n)
    ensures WaitingUpTo(buckets[|original[n]| := buckets[|original[n]|] + [n]], original, maxSize, n + 1)
  {
    var k := |original[n]|;
    var buckets' := buckets[k := buckets[k] + [n]];
    var some := original[..n + 1];
    forall l | 0 <= l < |buckets| ensures n !in buckets[l] {
    }
    forall l, g {:trigger g in buckets'[l]} | 0 <= l < |buckets'| && g in buckets'[l] ensures g < |some| && |some[g]| <= l {
      if g != n {
        assert g in buckets[l];
        assert g < |original[..n]| && some[g] == original[..n][g];
      }
    }
    forall g | 0 <= g < |some| && |some[g]| > 1 ensures exists l :: 0 <= l <= maxSize && g in buckets'[l] {
      if g == n {
        assert n in buckets'[k];
      } else {
        assert some[g] == original[..n][g];
        var l :| 0 <= l <= maxSize && g in buckets[l];
        assert g in buckets'[l];
      }
    }
  }

  // ---------- The queue ----------

  class GroupCoverQueue {
    var maxSize: nat
    var groupsBySize: Buckets
    var groupsByFact: map<Fact, seq<GroupId>>
    /** The sets that both kinds of lists share. */
    var members: seq<set<Fact>>
    var top: GroupId
    ghost var original: seq<set<Fact>>
    ghost var covered: set<Fact>

    ghost predicate Consistent()
      reads this`members, this`original, this`covered, this`groupsByFact
    {
      Remaining(original, covered, members) && Indexed(groupsByFact, original)
    }

    /** While there is a group of two or more, top is a largest one. */
    ghost predicate Valid()
      reads this
    {
      && Consistent()
      && (maxSize > 1 ==> top < |members| && |members[top]| == maxSize && Waiting(groupsBySize, members, maxSize, {top}))
      && (forall g :: 0 <= g < |members| ==> |members[g]| <= if maxSize > 1 then maxSize else 1)
    }

    constructor (groups: seq<seq<Fact>>)
      ensures Valid() && covered == {} && |original| == |groups|
      ensures forall g :: 0 <= g < |groups| ==> original[g] == SetOf(groups[g])
    {
      maxSize, groupsBySize, groupsByFact, members, top := 0, [], map[], [], 0;
      original := seq(|groups|, g requires 0 <= g < |groups| => SetOf(groups[g]));
      covered := {};
      new;
      if groups != [] {
        var max: nat := 0;
        for g := 0 to |groups|
          invariant forall h :: 0 <= h < g ==> |groups[h]| <= max
        {
          if |groups[g]| > max {
            max := |groups[g]|;
          }
        }
        maxSize := max;
        groupsBySize := seq(maxSize + 1, _ => []);
        FileGroups(groups);
        UpdateTop();
      }
    }

    method FileGroups(groups: seq<seq<Fact>>)
      requires |original| == |groups| && forall g :: 0 <= g < |groups| ==> original[g] == SetOf(groups[g]) && |groups[g]| <= maxSize
      requires members == [] && groupsByFact == map[] && covered == {} && groupsBySize == seq(maxSize + 1, _ => [])
      modifies this`groupsBySize, this`groupsByFact, this`members
      ensures Consistent() && Waiting(groupsBySize, members, maxSize, {})
    {
      for g := 0 to |groups|
        invariant members == original[..g]
        invariant WaitingUpTo(groupsBySize, original, maxSize, g) && IndexedUpTo(groupsByFact, original, g)
      {
        var group := SetOf(groups[g]);
        SetOfSize(groups[g]);
        members := members + [group];
        FileGroup(groupsBySize, original, maxSize, g);
        groupsBySize := groupsBySize[|group| := groupsBySize[|group|] + [g]];
        groupsByFact := FileByFact(groupsByFact, group, g, original);
      }
      assert original[..|groups|] == original;
    }

    static method FileByFact(byFact: map<Fact, seq<GroupId>>, group: set<Fact>, g: GroupId, ghost original: seq<set<Fact>>)
      returns (byFact': map<Fact, seq<GroupId>>)
      requires g < |original| && original[g] == group && IndexedUpTo(byFact, original, g)
      ensures IndexedUpTo(byFact', original, g + 1)
    {
      byFact' := byFact;
      var rest := group;
      ghost var front := original[..g];
      while rest != {}
        invariant rest <= group
        invariant forall f :: f in byFact' <==> f in byFact || f in group - rest
        invariant forall f :: f in byFact' ==>
          byFact'[f] == (if f in byFact then byFact[f] else []) + if f in group - rest then [g] else []
        decreases rest
      {
        var fact :| fact in rest;
        rest := rest - {fact};
        var list := if fact in byFact' then byFact'[fact] else [];
        byFact' := byFact'[fact := list + [g]];
      }
      AllFiled(byFact, byFact', group, g, original);
    }

    static lemma {:induction false} AllFiled(byFact: map<Fact, seq<GroupId>>, byFact': map<Fact, seq<GroupId>>, group: set<Fact>, g: GroupId,
                                             original: seq<set<Fact>>)
      requires g < |original| && original[g] == group && IndexedUpTo(byFact, original, g)
      requires forall f :: f in byFact' <==> f in byFact || f in group
      requires forall f :: f in byFact' ==> byFact'[f] == (if f in byFact then byFact[f] else []) + if f in group then [g] else []
      ensures IndexedUpTo(byFact', original, g + 1)
    {
      var before, after := original[..g], original[..g + 1];
      forall f | f in byFact' ensures GoodList(byFact'[f], f, after) {
        GoodListMore(if f in byFact then byFact[f] else [], f, original, g);
      }
      hide GoodList;
      forall f, h | 0 <= h < |after| && f in after[h] ensures f in byFact' && h in byFact'[f] {
        if h < g {
          assert f in before[h];
          assert h in byFact[f];
        } else {
          assert byFact'[f][|byFact'[f]| - 1] == g;
        }
      }
    }

    lemma {:induction false} Exhausted()
      requires Valid() && maxSize <= 1
      ensures Remaining(original, covered, members) && forall g :: 0 <= g < |members| ==> |members[g]| <= 1
    {
    }

    /** Looks through the lists, largest size first, and puts groups that have shrunk into the list for their size. */
    method UpdateTop()
      requires Consistent() && Waiting(groupsBySize, members, maxSize, {})
      modifies this`maxSize, this`groupsBySize, this`top
      ensures Valid() && maxSize <= old(maxSize)
    {
      while maxSize > 1
        invariant Waiting(groupsBySize, members, maxSize, {}) && maxSize <= old(maxSize)
        decreases maxSize
      {
        ghost var size0 := maxSize;
        while groupsBySize[maxSize] != []
          invariant maxSize == size0
          invariant Waiting(groupsBySize, members, maxSize, {}) && maxSize > 1
          decreases |groupsBySize[maxSize]|
        {
          var list := groupsBySize[maxSize];
          var candidate := list[|list| - 1];
          TakeCandidate(groupsBySize, members, maxSize);
          groupsBySize := groupsBySize[maxSize := list[..|list| - 1]];
          if |members[candidate]| == maxSize {
            top := candidate;
            NoneLarger(groupsBySize, members, maxSize, {top});
            return;
          }
          var size := |members[candidate]|;
          PutBack(groupsBySize, members, maxSize, candidate);
          groupsBySize := groupsBySize[size := groupsBySize[size] + [candidate]];
        }
        NextSize(groupsBySize, members, maxSize);
        maxSize := maxSize - 1;
      }
      NoneLarger(groupsBySize, members, maxSize, {});
    }

    /** Removes the facts of the largest group from every group that has them. */
    method Pop() returns (result: seq<Fact>)
      requires Valid() && maxSize > 1
      modifies this
      ensures Valid() && original == old(original) && covered == old(covered) + SetOf(result)
      ensures IsLargest(original, old(covered), result)
    {
      hide Waiting, Indexed, Covered;
      result := ListOf(members[top]);
      NoRepeatsSize(result);
      ghost var before := members;
      RemoveFacts(result);
      assert SetOf(result) == before[top] == original[top] - old(covered);
      ShrinkWaiting(groupsBySize, before, members, maxSize, top);
      UpdateTop();
    }

    method RemoveFacts(facts: seq<Fact>)
      requires Consistent() && NoRepeats(facts) && top < |members| && SetOf(facts) == members[top]
      modifies this`members, this`covered
      ensures Consistent() && covered == old(covered) + SetOf(facts)
      ensures |members| == |old(members)| && members[top] == {}
      ensures forall g :: 0 <= g < |members| ==> members[g] <= old(members)[g]
    {
      ghost var before := members;
      hide Indexed, NoRepeats;
      for i := 0 to |facts|
        invariant Consistent() && covered == old(covered) + SetOf(facts[..i])
      {
        SetOneMore(facts, i);
        NotCoveredYet(original, old(covered), before, top, facts, i);
        RemoveFact(facts[i]);
      }
      assert facts[..|facts|] == facts;
    }

    lemma {:induction false} SetOneMore(facts: seq<Fact>, i: nat)
      requires i < |facts|
      ensures SetOf(facts[..i + 1]) == SetOf(facts[..i]) + {facts[i]}
    {
    }

    lemma {:induction false} NotCoveredYet(original: seq<set<Fact>>, covered: set<Fact>, members: seq<set<Fact>>, top: GroupId,
                                           result: seq<Fact>, i: nat)
      requires Remaining(original, covered, members) && top < |members| && SetOf(result) == members[top] && NoRepeats(result)
      requires i < |result|
      ensures result[i] !in covered + SetOf(result[..i]) && result[i] in original[top]
    {
      assert result[i] in SetOf(result);
    }

    method RemoveFact(fact: Fact)
      requires Consistent() && fact !in covered && exists g :: 0 <= g < |original| && fact in original[g]
      modifies this`members, this`covered
      ensures Consistent() && covered == old(covered) + {fact}
    {
      ghost var before := members;
      var list := groupsByFact[fact];
      for i := 0 to |list|
        invariant covered == old(covered) && |members| == |before| && forall g :: 0 <= g < |before| ==>
          members[g] == if g in list[..i] then before[g] - {fact} else before[g]
      {
        assert list[..i + 1] == list[..i] + [list[i]];
        assert fact in members[list[i]];
        members := members[list[i] := members[list[i]] - {fact}];
      }
      assert list[..|list|] == list;
      covered := covered + {fact};
    }

    /** A copy of the set as a list, in some order. */
    static method ListOf(s: set<Fact>) returns (r: seq<Fact>)
      ensures SetOf(r) == s && NoRepeats(r)
    {
      r := [];
      var rest := s;
      while rest != {}
        invariant rest <= s && SetOf(r) == s - rest && NoRepeats(r)
        decreases rest
      {
        var f :| f in rest;
        assert f !in SetOf(r);
        assert SetOf(r + [f]) == SetOf(r) + {f};
        rest := rest - {f};
        r := r + [f];
      }
    }
  }

  // ---------- Choosing groups ----------

  /** The facts that no chosen group covers, each in a group of its own. */
  ghost predicate AreSingles(facts: set<Fact>, singles: seq<seq<Fact>>) {
    && (forall i :: 0 <= i < |singles| ==> |singles[i]| == 1)
    && (forall f :: f in facts <==> exists i :: 0 <= i < |singles| && singles[i] == [f])
    && (forall i, j :: 0 <= i < j < |singles| ==> singles[i] != singles[j])
  }

  ghost function SetsOf(groups: seq<seq<Fact>>): (r: seq<set<Fact>>)
    ensures |r| == |groups|
  {
    seq(|groups|, g requires 0 <= g < |groups| => SetOf(groups[g]))
  }

  /** First greedy choices until no group has two facts left, then what remains of the reachable facts. */
  ghost predicate IsCover(groups: seq<seq<Fact>>, reachable: set<Fact>, result: seq<seq<Fact>>, chosen: nat) {
    && chosen <= |result| && GreedyChoices(SetsOf(groups), result[..chosen])
    && (forall g :: 0 <= g < |groups| ==> |SetOf(groups[g]) - Covered(result[..chosen])| <= 1)
    && AreSingles(reachable - Covered(result[..chosen]), result[chosen..])
  }

  /** All facts of the groups. */
  ghost function AllFacts(original: seq<set<Fact>>): set<Fact> {
    if original == [] then {} else AllFacts(original[..|original| - 1]) + original[|original| - 1]
  }

  lemma {:induction false} InAllFacts(original: seq<set<Fact>>, g: nat)
    requires g < |original|
    ensures original[g] <= AllFacts(original)
  {
    if g < |original| - 1 {
      InAllFacts(original[..|original| - 1], g);
    }
  }

  lemma {:induction false} CoveredMore(result: seq<seq<Fact>>, choice: seq<Fact>)
    ensures Covered(result + [choice]) == Covered(result) + SetOf(choice)
  {
    assert (result + [choice])[..|result|] == result;
  }

  lemma {:induction false} GreedyMore(original: seq<set<Fact>>, result: seq<seq<Fact>>, choice: seq<Fact>)
    requires GreedyChoices(original, result) && IsLargest(original, Covered(result), choice)
    ensures GreedyChoices(original, result + [choice])
  {
    hide IsLargest, Covered;
    var more := result + [choice];
    forall i | 0 <= i < |more| ensures IsLargest(original, Covered(more[..i]), more[i]) {
      if i < |result| {
        assert more[..i] == result[..i];
        assert IsLargest(original, Covered(result[..i]), result[i]);
      } else {
        assert more[..i] == result;
      }
    }
  }

  lemma {:induction false} ChoiceIsNew(original: seq<set<Fact>>, covered: set<Fact>, choice: seq<Fact>)
    requires IsLargest(original, covered, choice)
    ensures SetOf(choice) <= AllFacts(original) && SetOf(choice) !! covered && SetOf(choice) != {}
  {
    var g :| 0 <= g < |original| && SetOf(choice) == original[g] - covered;
    InAllFacts(original, g);
    assert choice[0] in SetOf(choice);
  }

  lemma {:induction false} FewerLeft(all: set<Fact>, covered: set<Fact>, more: set<Fact>)
    requires more <= all && more !! covered && more != {}
    ensures |all - (covered + more)| < |all - covered|
  {
    var x :| x in more;
    SubsetSize(all - (covered + more), all - covered - {x});
  }

  lemma {:induction false} OneMoreChoice(original: seq<set<Fact>>, result: seq<seq<Fact>>, choice: seq<Fact>)
    requires GreedyChoices(original, result) && IsLargest(original, Covered(result), choice) && Covered(result) <= AllFacts(original)
    ensures GreedyChoices(original, result + [choice])
    ensures Covered(result + [choice]) == Covered(result) + SetOf(choice) && Covered(result + [choice]) <= AllFacts(original)
    ensures |AllFacts(original) - Covered(result + [choice])| < |AllFacts(original) - Covered(result)|
  {
    hide *;
    CoveredMore(result, choice);
    GreedyMore(original, result, choice);
    ChoiceIsNew(original, Covered(result), choice);
    FewerLeft(AllFacts(original), Covered(result), SetOf(choice));
  }

  lemma {:induction false} CoverDone(groups: seq<seq<Fact>>, reachable: set<Fact>, picked: seq<seq<Fact>>, singles: seq<seq<Fact>>,
                                     members: seq<set<Fact>>)
    requires GreedyChoices(SetsOf(groups), picked) && AreSingles(reachable - Covered(picked), singles)
    requires Remaining(SetsOf(groups), Covered(picked), members) && forall g :: 0 <= g < |members| ==> |members[g]| <= 1
    ensures IsCover(groups, reachable, picked + singles, |picked|)
  {
    hide GreedyChoices, AreSingles, Covered, SetOf;
    var result := picked + singles;
    assert result[..|picked|] == picked && result[|picked|..] == singles;
    forall g | 0 <= g < |groups| ensures |SetOf(groups[g]) - Covered(picked)| <= 1 {
      assert members[g] == SetsOf(groups)[g] - Covered(picked);
    }
  }

  /** With partial encoding; the order of the leftover facts is open. */
  method ChooseGroups(groups: seq<seq<Fact>>, reachable: set<Fact>) returns (result: seq<seq<Fact>>, ghost chosen: nat)
    ensures IsCover(groups, reachable, result, chosen)
  {
    hide *;
    var queue := new GroupCoverQueue(groups);
    ghost var original := SetsOf(groups);
    SameSets(groups, queue.original);
    NothingChosen(original);
    var uncovered := reachable;
    result := [];
    while queue.maxSize > 1
      invariant queue.Valid() && queue.original == original && queue.covered == Covered(result) <= AllFacts(original)
      invariant uncovered == reachable - Covered(result) && GreedyChoices(original, result)
      decreases |AllFacts(original) - Covered(result)|
    {
      var group := queue.Pop();
      OneMoreChoice(original, result, group);
      uncovered := uncovered - SetOf(group);
      result := result + [group];
    }
    chosen := |result|;
    var singles := Singles(uncovered);
    queue.Exhausted();
    CoverDone(groups, reachable, result, singles, queue.members);
    result := result + singles;
  }

  lemma {:induction false} SameSets(groups: seq<seq<Fact>>, original: seq<set<Fact>>)
    requires |original| == |groups| && forall g :: 0 <= g < |groups| ==> original[g] == SetOf(groups[g])
    ensures original == SetsOf(groups)
  {
  }

  lemma {:induction false} NothingChosen(original: seq<set<Fact>>)
    ensures Covered([]) == {} && GreedyChoices(original, [])
  {
  }

  method Singles(facts: set<Fact>) returns (singles: seq<seq<Fact>>)
    ensures AreSingles(facts, singles)
  {
    singles := [];
    var rest := facts;
    while rest != {}
      invariant rest <= facts && AreSingles(facts - rest, singles)
      decreases rest
    {
      var f :| f in rest;
      SingleMore(facts - rest, singles, f);
      rest := rest - {f};
      singles := singles + [[f]];
      assert facts - rest == facts - (rest + {f}) + {f};
    }
    assert facts - {} == facts;
  }

  lemma {:induction false} SingleMore(facts: set<Fact>, singles: seq<seq<Fact>>, f: Fact)
    requires AreSingles(facts, singles) && f !in facts
    ensures AreSingles(facts + {f}, singles + [[f]])
  {
    var more := singles + [[f]];
    forall g ensures g in facts + {f} <==> exists i :: 0 <= i < |more| && more[i] == [g] {
      if g in facts {
        var i :| 0 <= i < |singles| && singles[i] == [g];
        assert more[i] == [g];
      }
      if g == f {
        assert more[|singles|] == [g];
      }
      if i :| 0 <= i < |more| && more[i] == [g] {
        assert i < |singles| ==> singles[i] == [g];
        assert i == |singles| ==> [g][0] == [f][0];
      }
    }
    forall i | 0 <= i < |singles| ensures singles[i] != [f] {
    }
  }

  /** Every reachable fact is in exactly one group of the result. */
  lemma {:induction false} EachFactOnce(groups: seq<seq<Fact>>, reachable: set<Fact>, result: seq<seq<Fact>>, chosen: nat, f: Fact)
    requires IsCover(groups, reachable, result, chosen) && f in reachable
    ensures exists i :: 0 <= i < |result| && f in result[i]
    ensures forall i, j :: 0 <= i < j < |result| && f in result[i] ==> f !in result[j]
  {
    FactSomewhere(groups, reachable, result, chosen, f);
    forall i, j | 0 <= i < j < |result| && f in result[i] ensures f !in result[j] {
      OnceOnly(groups, reachable, result, chosen, f, i, j);
    }
  }

  lemma {:induction false} FactSomewhere(groups: seq<seq<Fact>>, reachable: set<Fact>, result: seq<seq<Fact>>, chosen: nat, f: Fact)
    requires IsCover(groups, reachable, result, chosen) && f in reachable
    ensures exists i :: 0 <= i < |result| && f in result[i]
  {
    var picked, singles := result[..chosen], result[chosen..];
    CoveredMember(picked, f);
    assert AreSingles(reachable - Covered(picked), singles);
    hide Covered, GreedyChoices, SetsOf, SetOf;
    if f in Covered(picked) {
      var i :| 0 <= i < |picked| && f in picked[i];
      assert f in result[i];
    } else {
      SomeSingle(reachable - Covered(picked), singles, f);
      var i :| 0 <= i < |singles| && f in singles[i];
      assert f in result[chosen + i];
    }
  }

  lemma {:induction false} SomeSingle(facts: set<Fact>, singles: seq<seq<Fact>>, f: Fact)
    requires AreSingles(facts, singles) && f in facts
    ensures exists i :: 0 <= i < |singles| && f in singles[i]
  {
    var i :| 0 <= i < |singles| && singles[i] == [f];
    assert f in singles[i];
  }

  lemma {:induction false} OnceOnly(groups: seq<seq<Fact>>, reachable: set<Fact>, result: seq<seq<Fact>>, chosen: nat, f: Fact, i: nat, j: nat)
    requires IsCover(groups, reachable, result, chosen) && i < j < |result| && f in result[i]
    ensures f !in result[j]
  {
    var picked, singles := result[..chosen], result[chosen..];
    assert GreedyChoices(SetsOf(groups), picked) && AreSingles(reachable - Covered(picked), singles);
    hide *;
    if j < chosen {
      assert picked[i] == result[i] && picked[j] == result[j];
      ChoicesDisjoint(SetsOf(groups), picked, i, j, f);
    } else {
      assert singles[j - chosen] == result[j];
      if i < chosen {
        assert f in picked[i];
        CoveredMember(picked, f);
        SingleIsUncovered(reachable - Covered(picked), singles, j - chosen, f);
      } else {
        assert singles[i - chosen] == result[i];
        SinglesDiffer(reachable - Covered(picked), singles, i - chosen, j - chosen, f);
      }
    }
  }

  lemma {:induction false} SinglesDiffer(facts: set<Fact>, singles: seq<seq<Fact>>, i: nat, j: nat, f: Fact)
    requires AreSingles(facts, singles) && i < j < |singles| && f in singles[i]
    ensures f !in singles[j]
  {
    SingleIs(singles[i], f);
    if f in singles[j] {
      SingleIs(singles[j], f);
    }
  }

  lemma {:induction false} SingleIs(s: seq<Fact>, f: Fact)
    requires |s| == 1 && f in s
    ensures s == [f]
  {
  }

  lemma {:induction false} SingleIsUncovered(facts: set<Fact>, singles: seq<seq<Fact>>, k: nat, f: Fact)
    requires AreSingles(facts, singles) && k < |singles| && f !in facts
    ensures f !in singles[k]
  {
    if f in singles[k] {
      SingleIs(singles[k], f);
    }
  }
}
