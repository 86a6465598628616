/** Equalities, disjunctions of them and negative clauses (src/translate/constraints.py). */
module Constraints {

  datatype Option<T> = None | Some(value: T)

  /** An item is a variable when it starts with "?", and a constant otherwise. */
  type Item = string

  predicate IsVariable(x: Item) {
    |x| > 0 && x[0] == '?'
  }

  datatype Pair = Pair(left: Item, right: Item)

  // ---------- Meaning ----------

  /** An infinite domain in which every constant stands for itself. */
  datatype Elem = Object(name: Item) | Unknown(tag: Item)

  type Valuation = Item -> Elem

  ghost predicate FixesConstants(v: Valuation) {
    forall x :: !IsVariable(x) ==> v(x) == Object(x)
  }

  ghost predicate Equates(v: Valuation, equalities: seq<Pair>) {
    forall e :: e in equalities ==> v(e.left) == v(e.right)
  }

  ghost predicate Separates(v: Valuation, parts: seq<Pair>) {
    exists e :: e in parts && v(e.left) != v(e.right)
  }

  // ---------- Equivalence classes ----------

  /** The identity of a set that several items share. */
  type Ref = nat

  type ClassTable = map<Item, Ref>

  type Contents = map<Ref, set<Item>>

  /** Every item is in its own set, and everything in that set shares it. */
  ghost predicate Shared(classes: ClassTable, contents: Contents) {
    && (forall x :: x in classes ==> classes[x] in contents && x in contents[classes[x]])
    && (forall x, y {:trigger y in contents[classes[x]]} :: x in classes && classes[x] in contents && y in contents[classes[x]] ==>
          y in classes && classes[y] == classes[x])
  }

  /** Two items share a set exactly when the equalities force them to be equal: the least equivalence. */
  ghost predicate Merges(classes: ClassTable, equalities: seq<Pair>) {
    && (forall e :: e in equalities ==> e.left in classes && e.right in classes && classes[e.left] == classes[e.right])
    && (forall x, y, v: Valuation :: x in classes && y in classes && classes[x] == classes[y] && Equates(v, equalities) ==> v(x) == v(y))
    && (forall x :: x in classes ==> exists e :: e in equalities && (x == e.left || x == e.right))
  }

  ghost predicate FreshRef(contents: Contents, r: Ref) {
    forall q :: q in contents ==> q < r
  }

  /** The item joins the table with a set of its own unless it is there. */
  ghost function Entered(classes: ClassTable, x: Item, r: Ref): ClassTable {
    if x in classes then classes else classes[x := r]
  }

  function Redirected(classes: ClassTable, from: Ref, to: Ref): ClassTable {
    map x | x in classes :: if classes[x] == from then to else classes[x]
  }

  lemma {:induction false} EnterShared(classes: ClassTable, contents: Contents, x: Item, r: Ref)
    requires Shared(classes, contents) && FreshRef(contents, r) && x !in classes
    ensures Shared(classes[x := r], contents[r := {x}]) && FreshRef(contents[r := {x}], r + 1)
  {
  }

  lemma {:induction false} MergeShared(classes: ClassTable, contents: Contents, from: Ref, to: Ref)
    requires Shared(classes, contents) && from in contents && to in contents && from != to
    requires forall x :: x in contents[from] ==> x in classes && classes[x] == from
    requires forall x :: x in contents[to] ==> x in classes && classes[x] == to
    ensures Shared(Redirected(classes, from, to), contents[to := contents[to] + contents[from]])
  {
  }

  /** One more equality: its two sets become one. */
  lemma {:induction false} MergesOneMore(classes: ClassTable, equalities: seq<Pair>, e: Pair, entered: ClassTable, from: Ref, to: Ref,
                                         r1: Ref, r2: Ref)
    requires Merges(classes, equalities) && entered == Entered(Entered(classes, e.left, r1), e.right, r2)
    requires r1 != r2 && forall x :: x in classes ==> classes[x] != r1 && classes[x] != r2
    requires (from == entered[e.left] && to == entered[e.right]) || (to == entered[e.left] && from == entered[e.right])
    ensures Merges(Redirected(entered, from, to), equalities + [e])
  {
    var classes', equalities' := Redirected(entered, from, to), equalities + [e];
    forall d | d in equalities' ensures d.left in classes' && d.right in classes' && classes'[d.left] == classes'[d.right] {
      if d in equalities {
        assert classes[d.left] == classes[d.right];
      }
    }
    forall x, y, v: Valuation | x in classes' && y in classes' && classes'[x] == classes'[y] && Equates(v, equalities')
      ensures v(x) == v(y)
    {
      assert e in equalities';
      assert Equates(v, equalities) by {
        assert forall d :: d in equalities ==> d in equalities';
      }
      SameSet(classes, equalities, e, entered, x, y, r1, r2, v);
      SameSet(classes, equalities, e, entered, x, e.left, r1, r2, v);
      SameSet(classes, equalities, e, entered, x, e.right, r1, r2, v);
      SameSet(classes, equalities, e, entered, y, e.left, r1, r2, v);
      SameSet(classes, equalities, e, entered, y, e.right, r1, r2, v);
    }
    forall x | x in classes' ensures exists d :: d in equalities' && (x == d.left || x == d.right) {
      if x in classes {
        var d :| d in equalities && (x == d.left || x == d.right);
        assert d in equalities';
      } else {
        assert e in equalities';
      }
    }
  }

  lemma {:induction false} SameSet(classes: ClassTable, equalities: seq<Pair>, e: Pair, entered: ClassTable, x: Item, y: Item,
                                   r1: Ref, r2: Ref, v: Valuation)
    requires Merges(classes, equalities) && entered == Entered(Entered(classes, e.left, r1), e.right, r2)
    requires r1 != r2 && forall z :: z in classes ==> classes[z] != r1 && classes[z] != r2
    requires x in entered && y in entered && Equates(v, equalities)
    ensures entered[x] == entered[y] ==> v(x) == v(y)
  {
  }

  // ---------- Mapping to representatives ----------

  function Mapped(m: map<Item, Item>, x: Item): Item {
    if x in m then m[x] else x
  }

  /** Every item of a class maps to one member of it: its constant if it has one. */
  ghost predicate Represents(m: map<Item, Item>, classes: ClassTable, contents: Contents) {
    && m.Keys == classes.Keys
    && (forall x :: x in m ==> m[x] in classes && classes[m[x]] == classes[x])
    && (forall x, y :: x in m && y in m && classes[x] == classes[y] ==> m[x] == m[y])
    && (forall x :: x in m && !IsVariable(x) ==> m[x] == x)
  }

  /** The classes admit a valuation exactly when none of them has two constants. */
  ghost predicate Consistent(equalities: seq<Pair>) {
    exists v: Valuation :: FixesConstants(v) && Equates(v, equalities)
  }

  /** The valuation that a mapping suggests: items with the same representative are equal, and no others. */
  ghost function Suggested(m: map<Item, Item>): Valuation {
    (x: Item) => if IsVariable(Mapped(m, x)) then Unknown(Mapped(m, x)) else Object(Mapped(m, x))
  }

  lemma {:induction false} SuggestedAt(m: map<Item, Item>, x: Item)
    ensures Suggested(m)(x) == if IsVariable(Mapped(m, x)) then Unknown(Mapped(m, x)) else Object(Mapped(m, x))
  {
  }

  lemma {:induction false} SuggestedWorks(m: map<Item, Item>, classes: ClassTable, contents: Contents, equalities: seq<Pair>)
    requires Merges(classes, equalities) && Represents(m, classes, contents)
    ensures FixesConstants(Suggested(m)) && Equates(Suggested(m), equalities)
    ensures forall x, y :: Suggested(m)(x) == Suggested(m)(y) <==> Mapped(m, x) == Mapped(m, y)
  {
    RepresentativesAgree(m, classes, contents, equalities);
    hide Merges, Represents, Mapped, Suggested, IsVariable;
    var v := Suggested(m);
    forall x ensures v(x) == if IsVariable(Mapped(m, x)) then Unknown(Mapped(m, x)) else Object(Mapped(m, x)) {
      SuggestedAt(m, x);
    }
  }

  lemma {:induction false} RepresentativesAgree(m: map<Item, Item>, classes: ClassTable, contents: Contents, equalities: seq<Pair>)
    requires Merges(classes, equalities) && Represents(m, classes, contents)
    ensures forall e :: e in equalities ==> Mapped(m, e.left) == Mapped(m, e.right)
    ensures forall x :: !IsVariable(x) ==> Mapped(m, x) == x
  {
    forall e | e in equalities ensures Mapped(m, e.left) == Mapped(m, e.right) {
      assert classes[e.left] == classes[e.right];
    }
  }

  /** Under every valuation that meets the equalities, an item and its representative are equal. */
  lemma {:induction false} RepresentativeEqual(m: map<Item, Item>, classes: ClassTable, contents: Contents, equalities: seq<Pair>,
                                               v: Valuation, x: Item)
    requires Merges(classes, equalities) && Represents(m, classes, contents) && Equates(v, equalities)
    ensures v(x) == v(Mapped(m, x))
  {
  }

  lemma {:induction false} TwoConstantsClash(classes: ClassTable, contents: Contents, equalities: seq<Pair>, x: Item, y: Item)
    requires Merges(classes, equalities) && x in classes && y in classes && classes[x] == classes[y] && x != y
    requires !IsVariable(x) && !IsVariable(y)
    ensures !Consistent(equalities)
  {
    forall v: Valuation | FixesConstants(v) ensures !Equates(v, equalities) {
      assert v(x) != v(y);
    }
  }

  /** The classes of all items but the rest have their representative. */
  ghost predicate PartlyMapped(m: map<Item, Item>, classes: ClassTable, contents: Contents, rest: set<Item>) {
    && (forall x :: x in m ==> x in classes && m[x] in classes && classes[m[x]] == classes[x])
    && (forall x :: x in classes && x !in rest ==> x in m)
    && (forall x, y :: x in m && y in classes && classes[x] == classes[y] ==> y in m && m[x] == m[y])
    && (forall x :: x in m && !IsVariable(x) ==> m[x] == x)
  }

  lemma {:induction false} MapClass(m: map<Item, Item>, classes: ClassTable, contents: Contents, rest: set<Item>, x: Item, setVal: Item)
    requires Shared(classes, contents) && PartlyMapped(m, classes, contents, rest + {x}) && x in classes
    requires setVal in contents[classes[x]] && forall y :: y in contents[classes[x]] && !IsVariable(y) ==> y == setVal
    ensures PartlyMapped(m + map y | y in contents[classes[x]] :: setVal, classes, contents, rest)
  {
  }

  lemma {:induction false} AllMapped(m: map<Item, Item>, classes: ClassTable, contents: Contents)
    requires PartlyMapped(m, classes, contents, {})
    ensures Represents(m, classes, contents)
  {
  }

  lemma {:induction false} TwoMembers(s: set<Item>)
    requires |s| >= 2
    ensures exists a, b :: a in s && b in s && a != b
  {
    var a :| a in s;
    assert |s - {a}| >= 1;
    var b :| b in s - {a};
    assert a in s && b in s && a != b;
  }

  lemma {:induction false} OneMember(s: set<Item>, x: Item)
    requires |s| < 2 && x in s
    ensures forall y :: y in s ==> y == x
  {
    assert |s - {x}| == |s| - 1;
    assert s - {x} == {};
    forall y | y in s ensures y == x {
      assert y !in s - {x};
    }
  }

  /** What a mapping, or its absence, says about the equalities. */
  ghost predicate Settles(equalities: seq<Pair>, consistent: bool, mapping: Option<map<Item, Item>>) {
    && (consistent <==> mapping.Some?) && (consistent <==> Consistent(equalities))
    && (mapping.Some? ==> FixesConstants(Suggested(mapping.value)) && Equates(Suggested(mapping.value), equalities))
    && (mapping.Some? ==> forall v: Valuation, x: Item {:trigger v(x)} :: Equates(v, equalities) ==> v(x) == v(Mapped(mapping.value, x)))
  }

  class Assignment {
    const equalities: seq<Pair>
    var consistent: Option<bool>
    var mapping: Option<map<Item, Item>>

    ghost predicate Valid()
      reads this
    {
      consistent.Some? ==> Settles(equalities, consistent.value, mapping)
    }

    constructor (equalities: seq<Pair>)
      ensures Valid() && this.equalities == equalities
    {
      this.equalities, consistent, mapping := equalities, None, None;
    }

    /** Merges the smaller of two different sets into the larger one, and lets its items share that. */
    method ComputeEquivalenceClasses() returns (classes: ClassTable, contents: Contents)
      ensures Shared(classes, contents) && Merges(classes, equalities)
    {
      classes, contents := map[], map[];
      var next: Ref := 0;
      for i := 0 to |equalities|
        invariant Shared(classes, contents) && FreshRef(contents, next) && Merges(classes, equalities[..i])
      {
        classes, contents, next := MergePair(classes, contents, next, equalities[..i], equalities[i]);
        assert equalities[..i + 1] == equalities[..i] + [equalities[i]];
      }
      assert equalities[..|equalities|] == equalities;
    }

    method MergePair(classes: ClassTable, contents: Contents, next: Ref, ghost done: seq<Pair>, e: Pair)
      returns (classes': ClassTable, contents': Contents, next': Ref)
      requires Shared(classes, contents) && FreshRef(contents, next) && Merges(classes, done)
      ensures Shared(classes', contents') && FreshRef(contents', next') && Merges(classes', done + [e])
    {
      hide Shared, Merges, FreshRef, Entered, Redirected;
      classes', contents', next' := Enter(classes, contents, next, e.left);
      ghost var r2 := next';
      ghost var r1 := if e.left in classes then r2 + 1 else next;
      classes', contents', next' := Enter(classes', contents', next', e.right);
      ghost var entered := classes';
      EnteredBoth(classes, contents, next, e, r1, r2, entered);
      SharedMembers(classes', contents', e.left);
      SharedMembers(classes', contents', e.right);
      var c1, c2 := classes'[e.left], classes'[e.right];
      if |contents'[c2]| > |contents'[c1]| {
        c1, c2 := c2, c1;
      }
      MergesOneMore(classes, done, e, entered, c2, c1, r1, r2);
      if c1 != c2 {
        MergeShared(classes', contents', c2, c1);
        StillFresh(contents', next', c1, contents'[c1] + contents'[c2]);
        contents' := contents'[c1 := contents'[c1] + contents'[c2]];
        classes' := Redirected(classes', c2, c1);
      } else {
        RedirectedIs(entered, c2, c1);
      }
    }

    lemma {:induction false} RedirectedIs(classes: ClassTable, from: Ref, to: Ref)
      ensures from == to ==> Redirected(classes, from, to) == classes
    {
    }

    lemma {:induction false} EnteredBoth(classes: ClassTable, contents: Contents, next: Ref, e: Pair, r1: Ref, r2: Ref, entered: ClassTable)
      requires Shared(classes, contents) && FreshRef(contents, next)
      requires r2 == (if e.left in classes then next else next + 1) && r1 == if e.left in classes then r2 + 1 else next
      requires entered == Entered(Entered(classes, e.left, next), e.right, r2)
      ensures entered == Entered(Entered(classes, e.left, r1), e.right, r2) && r1 != r2
      ensures forall x :: x in classes ==> classes[x] != r1 && classes[x] != r2
      ensures e.left in entered && e.right in entered
    {
    }

    lemma {:induction false} SharedMembers(classes: ClassTable, contents: Contents, x: Item)
      requires Shared(classes, contents) && x in classes
      ensures classes[x] in contents && forall y :: y in contents[classes[x]] ==> y in classes && classes[y] == classes[x]
      ensures x in contents[classes[x]]
    {
    }

    lemma {:induction false} StillFresh(contents: Contents, next: Ref, c: Ref, s: set<Item>)
      requires FreshRef(contents, next) && c in contents
      ensures FreshRef(contents[c := s], next)
    {
    }

    /** The set of an item, created when it has none. */
    method Enter(classes: ClassTable, contents: Contents, next: Ref, x: Item)
      returns (classes': ClassTable, contents': Contents, next': Ref)
      requires Shared(classes, contents) && FreshRef(contents, next)
      ensures Shared(classes', contents') && FreshRef(contents', next') && classes' == Entered(classes, x, next)
      ensures next' == if x in classes then next else next + 1
    {
      classes', contents', next' := classes, contents, next;
      if x !in classes {
        EnterShared(classes, contents, x, next);
        classes', contents', next' := classes[x := next], contents[next := {x}], next + 1;
      }
    }

    /** Maps every item to a representative of its class, and finds classes with two constants. */
    method ComputeMapping()
      modifies this
      ensures Valid() && consistent.Some?
    {
      hide Shared, Merges, PartlyMapped, Represents, Settles, Consistent;
      var classes, contents := ComputeEquivalenceClasses();
      var m: map<Item, Item> := map[];
      var rest := classes.Keys;
      NothingMapped(classes, contents);
      while rest != {}
        invariant rest <= classes.Keys && PartlyMapped(m, classes, contents, rest)
        decreases rest
      {
        var x :| x in rest;
        ghost var before := rest;
        rest := rest - {x};
        var ok;
        assert rest + {x} == before;
        ok, m := MapOne(m, classes, contents, rest, x);
        if !ok {
          consistent, mapping := Some(false), None;
          NotSettled(equalities);
          return;
        }
      }
      AllMapped(m, classes, contents);
      MappingSettles(m, classes, contents, equalities);
      consistent, mapping := Some(true), Some(m);
    }

    method MapOne(m: map<Item, Item>, classes: ClassTable, contents: Contents, ghost rest: set<Item>, x: Item)
      returns (ok: bool, m': map<Item, Item>)
      requires Shared(classes, contents) && Merges(classes, equalities)
      requires PartlyMapped(m, classes, contents, rest + {x}) && x in classes
      ensures ok ==> PartlyMapped(m', classes, contents, rest)
      ensures !ok ==> !Consistent(equalities)
    {
      SharedMembers(classes, contents, x);
      hide Shared, Merges, PartlyMapped, Consistent;
      m' := m;
      var eqClass := contents[classes[x]];
      var setVal;
      ghost var a, b;
      ok, setVal, a, b := Representative(eqClass);
      if ok {
        MapClass(m, classes, contents, rest, x, setVal);
        m' := m + map y | y in eqClass :: setVal;
      } else {
        TwoConstantsClash(classes, contents, equalities, a, b);
      }
    }

    /** The constant of a class, or a variable when it has none; the source takes the least, but any will do. */
    method Representative(eqClass: set<Item>) returns (ok: bool, setVal: Item, ghost a: Item, ghost b: Item)
      requires eqClass != {}
      ensures ok ==> setVal in eqClass && forall y :: y in eqClass && !IsVariable(y) ==> y == setVal
      ensures !ok ==> a in eqClass && b in eqClass && a != b && !IsVariable(a) && !IsVariable(b)
    {
      hide IsVariable;
      var constants := set y | y in eqClass && !IsVariable(y);
      a, b, setVal := "", "", "";
      if |constants| >= 2 {
        TwoMembers(constants);
        a, b :| a in constants && b in constants && a != b;
        return false, setVal, a, b;
      }
      ok := true;
      if constants != {} {
        setVal :| setVal in constants;
        OneMember(constants, setVal);
        assert forall y :: y in eqClass && !IsVariable(y) ==> y in constants;
      } else {
        setVal :| setVal in eqClass;
        assert forall y :: y in eqClass && !IsVariable(y) ==> y in constants;
      }
    }

    lemma {:induction false} NothingMapped(classes: ClassTable, contents: Contents)
      ensures PartlyMapped(map[], classes, contents, classes.Keys)
    {
    }

    lemma {:induction false} MappingSettles(m: map<Item, Item>, classes: ClassTable, contents: Contents, equalities: seq<Pair>)
      requires Merges(classes, equalities) && Represents(m, classes, contents)
      ensures Settles(equalities, true, Some(m))
    {
      SuggestedWorks(m, classes, contents, equalities);
      hide Merges, Represents, Mapped, Suggested, Equates, FixesConstants;
      forall v: Valuation, x: Item {:trigger v(x)} | Equates(v, equalities) ensures v(x) == v(Mapped(m, x)) {
        RepresentativeEqual(m, classes, contents, equalities, v, x);
      }
    }

    lemma {:induction false} NotSettled(equalities: seq<Pair>)
      requires !Consistent(equalities)
      ensures Settles(equalities, false, None)
    {
    }

    method IsConsistent() returns (r: bool)
      requires Valid()
      modifies this
      ensures Valid() && consistent == Some(r) && (r <==> Consistent(equalities))
    {
      if consistent.None? {
        ComputeMapping();
      }
      r := consistent.value;
    }

    method GetMapping() returns (r: Option<map<Item, Item>>)
      requires Valid()
      modifies this
      ensures Valid() && consistent.Some? && r == mapping
    {
      if consistent.None? {
        ComputeMapping();
      }
      r := mapping;
    }
  }

  // ---------- Negative clauses and systems ----------

  datatype NegativeClause = NegativeClause(parts: seq<Pair>) {

    predicate IsSatisfiable() {
      exists i :: 0 <= i < |parts| && parts[i].left != parts[i].right
    }

    function ApplyMapping(m: map<Item, Item>): NegativeClause {
      NegativeClause(seq(|parts|, i requires 0 <= i < |parts| => Pair(Mapped(m, parts[i].left), Mapped(m, parts[i].right))))
    }
  }

  ghost predicate AllSeparated(v: Valuation, clauses: seq<NegativeClause>) {
    forall c :: c in clauses ==> Separates(v, c.parts)
  }

  ghost predicate AllMappedApart(m: map<Item, Item>, clauses: seq<NegativeClause>) {
    forall c :: c in clauses ==> c.ApplyMapping(m).IsSatisfiable()
  }

  /** A clause holds in the suggested valuation exactly when some part is mapped apart. */
  lemma {:induction false} MappedApart(m: map<Item, Item>, c: NegativeClause)
    ensures c.ApplyMapping(m).IsSatisfiable() <==> exists e :: e in c.parts && Mapped(m, e.left) != Mapped(m, e.right)
  {
    hide Mapped;
    if i :| 0 <= i < |c.parts| && c.ApplyMapping(m).parts[i].left != c.ApplyMapping(m).parts[i].right {
      assert c.parts[i] in c.parts;
    }
    if e :| e in c.parts && Mapped(m, e.left) != Mapped(m, e.right) {
      var i :| 0 <= i < |c.parts| && c.parts[i] == e;
      assert c.ApplyMapping(m).parts[i].left != c.ApplyMapping(m).parts[i].right;
    }
  }

  /** With one combination of assignments: the mapping decides whether some valuation meets everything. */
  lemma {:induction false} ClausesDecided(m: map<Item, Item>, equalities: seq<Pair>, clauses: seq<NegativeClause>)
    requires Settles(equalities, true, Some(m))
    ensures AllMappedApart(m, clauses) <==> exists v: Valuation :: FixesConstants(v) && Equates(v, equalities) && AllSeparated(v, clauses)
  {
    if AllMappedApart(m, clauses) {
      SuggestedSeparates(m, clauses);
      assert FixesConstants(Suggested(m)) && Equates(Suggested(m), equalities) && AllSeparated(Suggested(m), clauses);
    }
    if v: Valuation :| FixesConstants(v) && Equates(v, equalities) && AllSeparated(v, clauses) {
      forall c | c in clauses ensures c.ApplyMapping(m).IsSatisfiable() {
        assert Separates(v, c.parts);
        var e :| e in c.parts && v(e.left) != v(e.right);
        assert v(e.left) == v(Mapped(m, e.left)) && v(e.right) == v(Mapped(m, e.right));
        MappedApart(m, c);
      }
    }
  }

  lemma {:induction false} SuggestedSeparates(m: map<Item, Item>, clauses: seq<NegativeClause>)
    requires AllMappedApart(m, clauses)
    ensures AllSeparated(Suggested(m), clauses)
  {
    forall c | c in clauses ensures Separates(Suggested(m), c.parts) {
      MappedApart(m, c);
      var e :| e in c.parts && Mapped(m, e.left) != Mapped(m, e.right);
      SuggestedAt(m, e.left);
      SuggestedAt(m, e.right);
      hide Suggested, Mapped, IsVariable;
      assert Suggested(m)(e.left) != Suggested(m)(e.right);
    }
  }

  // ---------- Combinations ----------

  type Disjunction = seq<seq<Pair>>

  ghost predicate Meets(v: Valuation, disjunctions: seq<Disjunction>) {
    forall i :: 0 <= i < |disjunctions| ==> MeetsOne(v, disjunctions[i])
  }

  ghost predicate MeetsOne(v: Valuation, choices: Disjunction) {
    exists a :: a in choices && Equates(v, a)
  }

  function ExtendAll(tuples: seq<seq<seq<Pair>>>, choices: Disjunction): seq<seq<seq<Pair>>> {
    if tuples == [] then [] else ExtendAll(tuples[..|tuples| - 1], choices) + Appended(tuples[|tuples| - 1], choices)
  }

  function Appended(tuple: seq<seq<Pair>>, choices: Disjunction): (r: seq<seq<seq<Pair>>>)
    ensures |r| == |choices|
  {
    seq(|choices|, i requires 0 <= i < |choices| => tuple + [choices[i]])
  }

  /** All ways to choose one assignment from every disjunction; the last choice varies fastest. */
  function Product(disjunctions: seq<Disjunction>): seq<seq<seq<Pair>>> {
    if disjunctions == [] then [[]]
    else ExtendAll(Product(disjunctions[..|disjunctions| - 1]), disjunctions[|disjunctions| - 1])
  }

  function Combined(assignments: seq<seq<Pair>>): seq<Pair> {
    if assignments == [] then [] else Combined(assignments[..|assignments| - 1]) + assignments[|assignments| - 1]
  }

  lemma {:induction false} InExtended(tuples: seq<seq<seq<Pair>>>, choices: Disjunction, t: seq<seq<Pair>>)
    ensures t in ExtendAll(tuples, choices) <==> exists p, a :: p in tuples && a in choices && t == p + [a]
  {
    if tuples != [] {
      var front, last := tuples[..|tuples| - 1], tuples[|tuples| - 1];
      InExtended(front, choices, t);
      assert tuples == front + [last];
      if t in ExtendAll(front, choices) {
        var p, a :| p in front && a in choices && t == p + [a];
        assert p in tuples;
      }
      if t in Appended(last, choices) {
        var i :| 0 <= i < |choices| && Appended(last, choices)[i] == t;
        assert last in tuples && choices[i] in choices && t == last + [choices[i]];
      }
      if p, a :| p in tuples && a in choices && t == p + [a] {
        if p == last {
          var i :| 0 <= i < |choices| && choices[i] == a;
          assert Appended(last, choices)[i] == t;
        } else {
          assert p in front;
        }
      }
    }
  }

  lemma {:induction false} EquatesConcat(v: Valuation, a: seq<Pair>, b: seq<Pair>)
    ensures Equates(v, a + b) <==> Equates(v, a) && Equates(v, b)
  {
    assert forall e :: e in a || e in b <==> e in a + b;
  }

  lemma {:induction false} NothingToMeet(v: Valuation)
    ensures Meets(v, []) && exists t :: t in Product([]) && Equates(v, Combined(t))
  {
    var t: seq<seq<Pair>> := [];
    assert Product([]) == [t] && Combined(t) == [];
    assert t in Product([]) && Equates(v, Combined(t));
  }

  /** A valuation meets all disjunctions exactly when it meets one combination. */
  lemma {:induction false} ProductMeets(v: Valuation, disjunctions: seq<Disjunction>)
    ensures Meets(v, disjunctions) <==> exists t :: t in Product(disjunctions) && Equates(v, Combined(t))
  {
    if disjunctions == [] {
      NothingToMeet(v);
    } else {
      var front, last := disjunctions[..|disjunctions| - 1], disjunctions[|disjunctions| - 1];
      ProductMeets(v, front);
      assert disjunctions == front + [last];
      if Meets(v, disjunctions) {
        assert Meets(v, front) by {
          forall i | 0 <= i < |front| ensures MeetsOne(v, front[i]) {
            assert front[i] == disjunctions[i];
          }
        }
        var p :| p in Product(front) && Equates(v, Combined(p));
        assert MeetsOne(v, disjunctions[|front|]);
        var a :| a in disjunctions[|front|] && Equates(v, a);
        InExtended(Product(front), last, p + [a]);
        CombinedSnoc(v, p, a);
        assert p + [a] in Product(disjunctions);
      }
      if t :| t in Product(disjunctions) && Equates(v, Combined(t)) {
        InExtended(Product(front), last, t);
        var p, a :| p in Product(front) && a in last && t == p + [a];
        CombinedSnoc(v, p, a);
        assert Meets(v, front);
      }
    }
  }

  lemma {:induction false} CombinedSnoc(v: Valuation, p: seq<seq<Pair>>, a: seq<Pair>)
    ensures Equates(v, Combined(p + [a])) <==> Equates(v, Combined(p)) && Equates(v, a)
  {
    assert (p + [a])[..|p|] == p;
    EquatesConcat(v, Combined(p), a);
  }

  ghost predicate IsSolution(v: Valuation, disjunctions: seq<Disjunction>, clauses: seq<NegativeClause>) {
    FixesConstants(v) && Meets(v, disjunctions) && AllSeparated(v, clauses)
  }

  /** One combination solves the system. */
  ghost predicate Solves(t: seq<seq<Pair>>, clauses: seq<NegativeClause>) {
    exists v: Valuation :: FixesConstants(v) && Equates(v, Combined(t)) && AllSeparated(v, clauses)
  }

  class ConstraintSystem {
    var combinatorialAssignments: seq<Disjunction>
    var negClauses: seq<NegativeClause>

    constructor ()
      ensures combinatorialAssignments == [] && negClauses == []
    {
      combinatorialAssignments, negClauses := [], [];
    }

    method AddAssignmentDisjunction(assignments: Disjunction)
      modifies this
      ensures combinatorialAssignments == old(combinatorialAssignments) + [assignments] && negClauses == old(negClauses)
    {
      combinatorialAssignments := combinatorialAssignments + [assignments];
    }

    method AddNegativeClause(clause: NegativeClause)
      modifies this
      ensures negClauses == old(negClauses) + [clause] && combinatorialAssignments == old(combinatorialAssignments)
    {
      negClauses := negClauses + [clause];
    }

    /** A system of both systems' constraints: its solutions are the common ones. */
    method Combine(other: ConstraintSystem) returns (combined: ConstraintSystem)
      ensures fresh(combined)
      ensures forall v: Valuation :: IsSolution(v, combined.combinatorialAssignments, combined.negClauses) <==>
        IsSolution(v, combinatorialAssignments, negClauses) && IsSolution(v, other.combinatorialAssignments, other.negClauses)
    {
      combined := new ConstraintSystem();
      combined.combinatorialAssignments := combinatorialAssignments + other.combinatorialAssignments;
      combined.negClauses := negClauses + other.negClauses;
      forall v: Valuation
        ensures IsSolution(v, combined.combinatorialAssignments, combined.negClauses) <==>
          IsSolution(v, combinatorialAssignments, negClauses) && IsSolution(v, other.combinatorialAssignments, other.negClauses)
      {
        MeetsConcat(v, combinatorialAssignments, other.combinatorialAssignments);
        SeparatedConcat(v, negClauses, other.negClauses);
      }
    }

    method AllClausesSatisfiable(m: map<Item, Item>) returns (r: bool)
      ensures r <==> AllMappedApart(m, negClauses)
    {
      for i := 0 to |negClauses|
        invariant forall k :: 0 <= k < i ==> negClauses[k].ApplyMapping(m).IsSatisfiable()
      {
        var clause := negClauses[i].ApplyMapping(m);
        if !clause.IsSatisfiable() {
          assert negClauses[i] in negClauses;
          return false;
        }
      }
      return true;
    }

    /** Some valuation meets one assignment of every disjunction and all negative clauses. */
    method IsSolvable() returns (r: bool)
      ensures r <==> exists v: Valuation :: IsSolution(v, combinatorialAssignments, negClauses)
    {
      var product := Product(combinatorialAssignments);
      for k := 0 to |product|
        invariant forall l :: 0 <= l < k ==> !Solves(product[l], negClauses)
      {
        var combined := new Assignment(Combined(product[k]));
        var consistent := combined.IsConsistent();
        if !consistent {
          continue;
        }
        var m := combined.GetMapping();
        ClausesDecided(m.value, combined.equalities, negClauses);
        var all := AllClausesSatisfiable(m.value);
        if all {
          SomeCombination(combinatorialAssignments, negClauses, k);
          return true;
        }
      }
      NoCombination(combinatorialAssignments, negClauses);
      return false;
    }
  }

  lemma {:induction false} MeetsConcat(v: Valuation, a: seq<Disjunction>, b: seq<Disjunction>)
    ensures Meets(v, a + b) <==> Meets(v, a) && Meets(v, b)
  {
    hide MeetsOne;
    if Meets(v, a + b) {
      forall i | 0 <= i < |a| ensures MeetsOne(v, a[i]) {
        assert (a + b)[i] == a[i];
      }
      forall i | 0 <= i < |b| ensures MeetsOne(v, b[i]) {
        assert (a + b)[|a| + i] == b[i];
      }
    }
  }

  lemma {:induction false} SeparatedConcat(v: Valuation, a: seq<NegativeClause>, b: seq<NegativeClause>)
    ensures AllSeparated(v, a + b) <==> AllSeparated(v, a) && AllSeparated(v, b)
  {
    assert forall c :: c in a || c in b <==> c in a + b;
  }

  lemma {:induction false} SomeCombination(disjunctions: seq<Disjunction>, clauses: seq<NegativeClause>, k: nat)
    requires k < |Product(disjunctions)| && Solves(Product(disjunctions)[k], clauses)
    ensures exists v: Valuation :: IsSolution(v, disjunctions, clauses)
  {
    var t := Product(disjunctions)[k];
    var v: Valuation :| FixesConstants(v) && Equates(v, Combined(t)) && AllSeparated(v, clauses);
    ProductMeets(v, disjunctions);
    assert t in Product(disjunctions);
    assert IsSolution(v, disjunctions, clauses);
  }

  lemma {:induction false} SolvingCombination(v: Valuation, disjunctions: seq<Disjunction>, clauses: seq<NegativeClause>)
    requires IsSolution(v, disjunctions, clauses)
    ensures exists l :: 0 <= l < |Product(disjunctions)| && Solves(Product(disjunctions)[l], clauses)
  {
    ProductMeets(v, disjunctions);
    var t :| t in Product(disjunctions) && Equates(v, Combined(t));
    var l :| 0 <= l < |Product(disjunctions)| && Product(disjunctions)[l] == t;
    assert Solves(Product(disjunctions)[l], clauses);
  }

  lemma {:induction false} NoCombination(disjunctions: seq<Disjunction>, clauses: seq<NegativeClause>)
    requires forall l :: 0 <= l < |Product(disjunctions)| ==> !Solves(Product(disjunctions)[l], clauses)
    ensures !exists v: Valuation :: IsSolution(v, disjunctions, clauses)
  {
    if v: Valuation :| IsSolution(v, disjunctions, clauses) {
      SolvingCombination(v, disjunctions, clauses);
    }
  }
}
