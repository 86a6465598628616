/** Partition refinement on linked lists with stable positions (src/search/equivalence_relation.cc and .h). */
module EquivalenceRelation {

  /** What an iterator holds: the address of a list node. Nodes are numbered as they are created; no node is at 0. */
  type Iter = nat

  /** The end of a list. */
  const END: Iter := 0

  /** A node of an element list; a node that is created later has another address, even for the same element. */
  datatype Cell = Cell(address: Iter, value: nat)

  type Position = (Iter, Cell)

  ghost predicate Distinct<T>(s: seq<T>) {
    forall i, j :: 0 <= i < j < |s| ==> s[i] != s[j]
  }

  /** Unlisted elements form one implicit class. */
  ghost predicate Same(pos: map<nat, Position>, x: nat, y: nat) {
    if x in pos && y in pos then pos[x].0 == pos[y].0 else x !in pos && y !in pos
  }

  lemma {:induction false} TailDistinct<T>(s: seq<T>, i: nat)
    requires Distinct(s) && i < |s|
    ensures s[i] !in s[i + 1..] && forall x :: x in s[i..] <==> x == s[i] || x in s[i + 1..]
  {
    assert s[i..] == [s[i]] + s[i + 1..];
  }

  lemma {:induction false} NextIsNew<T>(s: seq<T>, i: nat)
    requires Distinct(s) && i < |s|
    ensures s[i] !in s[..i] && s[i] in s && s[..i + 1] == s[..i] + [s[i]]
  {
  }

  lemma {:induction false} DropOne<T>(s: seq<T>, i: nat, t: seq<T>)
    requires Distinct(s) && i < |s| && t == s[..i] + s[i + 1..]
    ensures Distinct(t) && forall x :: x in t <==> x in s && x != s[i]
  {
    forall x | x in s && x != s[i] ensures x in t {
      var j :| 0 <= j < |s| && s[j] == x;
      assert t[if j < i then j else j - 1] == x;
    }
  }

  // ---------- Contents of the lists, as values ----------

  type Contents = map<Iter, seq<Cell>>

  /** The positions are exact: they lead to the node of their element, and every node is so reached. */
  ghost predicate Exact(n: nat, blocks: seq<Iter>, elems: Contents, pos: map<nat, Position>) {
    && Distinct(blocks) && (forall b :: b in blocks <==> b in elems) && END !in elems
    && (forall b :: b in elems ==> Distinct(elems[b]))
    && (forall x :: x in pos ==> x < n && pos[x].1.value == x && pos[x].0 in elems && pos[x].1 in elems[pos[x].0])
    && (forall b, c {:trigger c in elems[b]} :: b in elems && c in elems[b] ==> c.value in pos && pos[c.value] == (b, c))
  }

  lemma {:induction false} ExactAt(n: nat, blocks: seq<Iter>, elems: Contents, pos: map<nat, Position>, x: nat)
    requires Exact(n, blocks, elems, pos) && x in pos
    ensures x < n && pos[x].0 in elems && pos[x].1 in elems[pos[x].0]
  {
  }

  /** Adding a block does not disturb the others. */
  lemma {:induction false} ExactAddBlock(n: nat, blocks: seq<Iter>, elems: Contents, pos: map<nat, Position>, b: Iter)
    requires Exact(n, blocks, elems, pos) && b !in blocks && b != END
    ensures Exact(n, blocks + [b], elems[b := []], pos)
  {
  }

  lemma {:induction false} ExactInsert(n: nat, blocks: seq<Iter>, elems: Contents, pos: map<nat, Position>, b: Iter, c: Cell)
    requires Exact(n, blocks, elems, pos) && b in elems && c.value !in pos && c.value < n
    ensures Exact(n, blocks, elems[b := elems[b] + [c]], pos[c.value := (b, c)])
  {
    assert c !in elems[b];
    var elems', pos' := elems[b := elems[b] + [c]], pos[c.value := (b, c)];
    forall d: Iter, e: Cell {:trigger e in elems'[d]} | d in elems' && e in elems'[d] ensures e.value in pos' && pos'[e.value] == (d, e) {
      assert e in elems[d] || (d == b && e == c);
    }
    forall x | x in pos' ensures pos'[x].0 in elems' && pos'[x].1 in elems'[pos'[x].0] {
      if x == c.value {
        assert elems'[b][|elems[b]|] == c;
      } else {
        assert pos[x].1 in elems[pos[x].0];
      }
    }
  }

  lemma {:induction false} ExactErase(n: nat, blocks: seq<Iter>, elems: Contents, pos: map<nat, Position>, x: nat, i: nat)
    requires Exact(n, blocks, elems, pos) && x in pos && i < |elems[pos[x].0]| && elems[pos[x].0][i] == pos[x].1
    ensures var b := pos[x].0; Exact(n, blocks, elems[b := elems[b][..i] + elems[b][i + 1..]], pos - {x})
  {
    var b, c := pos[x].0, pos[x].1;
    var rest := elems[b][..i] + elems[b][i + 1..];
    var elems', pos' := elems[b := rest], pos - {x};
    DropOne(elems[b], i, rest);
    forall d: Iter, e: Cell {:trigger e in elems'[d]} | d in elems' && e in elems'[d] ensures e.value in pos' && pos'[e.value] == (d, e) {
      assert e in elems[d];
    }
  }

  lemma {:induction false} ExactDropBlock(n: nat, blocks: seq<Iter>, elems: Contents, pos: map<nat, Position>, i: nat)
    requires Exact(n, blocks, elems, pos) && i < |blocks| && elems[blocks[i]] == []
    ensures Exact(n, blocks[..i] + blocks[i + 1..], elems - {blocks[i]}, pos)
  {
    DropOne(blocks, i, blocks[..i] + blocks[i + 1..]);
  }

  // ---------- Refining along one block, as values ----------

  type Links = map<Iter, Iter>

  /** Old blocks that met an element of X lead to a block of their own for the intersection. */
  ghost predicate Linked(oldBlocks: set<Iter>, blocks: seq<Iter>, links: Links, modified: seq<Iter>, unknown: Iter) {
    && END !in blocks && (forall b :: b in blocks <==> b in links) && (forall b :: b in oldBlocks ==> b in blocks)
    && (forall b :: b in modified ==> b in oldBlocks && links[b] in blocks && links[b] !in oldBlocks && links[b] != unknown)
    && (forall b :: b in links && b !in modified ==> links[b] == END)
    && (forall b, c :: b in modified && c in modified && b != c ==> links[b] != links[c]) && Distinct(modified)
    && (unknown != END ==> unknown in blocks && unknown !in oldBlocks)
  }

  ghost predicate Moved(oldPos: map<nat, Position>, oldBlocks: set<Iter>, done: seq<nat>, pos: map<nat, Position>, links: Links,
                        modified: seq<Iter>, unknown: Iter) {
    && (forall x :: x in oldPos ==> x in pos && oldPos[x].0 in oldBlocks)
    && (forall x :: x in oldPos && x !in done ==> pos[x] == oldPos[x])
    && (forall x :: x in oldPos && x in done ==>
          oldPos[x].0 in modified && oldPos[x].0 in links && pos[x].0 == links[oldPos[x].0])
    && (forall x :: x !in oldPos ==> (x in pos <==> x in done))
    && (forall x :: x !in oldPos && x in done ==> pos[x].0 == unknown)
  }

  /** Only old blocks that were taken from can be empty. */
  ghost predicate NoneEmptyBut(elems: Contents, modified: seq<Iter>) {
    forall b :: b in elems && b !in modified ==> elems[b] != []
  }

  ghost predicate NoneEmptyBesides(elems: Contents, modified: seq<Iter>, added: Iter) {
    forall b :: b in elems && b !in modified && b != added ==> elems[b] != []
  }

  /** Moving the elements of X splits every class into the part inside X and the part outside. */
  lemma {:induction false} MovedSplits(oldPos: map<nat, Position>, oldBlocks: set<Iter>, xs: seq<nat>, blocks: seq<Iter>,
                                       pos: map<nat, Position>, links: Links, modified: seq<Iter>, unknown: Iter)
    requires Linked(oldBlocks, blocks, links, modified, unknown) && Moved(oldPos, oldBlocks, xs, pos, links, modified, unknown)
    ensures forall x, y :: Same(pos, x, y) <==> Same(oldPos, x, y) && (x in xs <==> y in xs)
    ensures forall x :: x in pos <==> x in oldPos || x in xs
  {
  }

  lemma {:induction false} LinkNew(oldBlocks: set<Iter>, blocks: seq<Iter>, links: Links, modified: seq<Iter>, unknown: Iter,
                                   b: Iter, f: Iter)
    requires Linked(oldBlocks, blocks, links, modified, unknown) && b in oldBlocks && links[b] == END && f !in blocks && f != END
    ensures Linked(oldBlocks, blocks + [f], links[f := END][b := f], modified + [b], unknown)
    ensures LinksKept(links, modified, links[f := END][b := f], modified + [b])
  {
  }

  lemma {:induction false} LinkedAt(oldBlocks: set<Iter>, blocks: seq<Iter>, links: Links, modified: seq<Iter>, unknown: Iter, b: Iter)
    requires Linked(oldBlocks, blocks, links, modified, unknown) && b in oldBlocks
    ensures b in links && (links[b] == END <==> b !in modified)
    ensures links[b] != END ==> links[b] in blocks && links[b] != b
  {
  }

  lemma {:induction false} LinkUnknown(oldBlocks: set<Iter>, blocks: seq<Iter>, links: Links, modified: seq<Iter>, f: Iter)
    requires Linked(oldBlocks, blocks, links, modified, END) && f !in blocks && f != END
    ensures Linked(oldBlocks, blocks + [f], links[f := END], modified, f) && f !in links
  {
  }

  ghost predicate LinksKept(links: Links, modified: seq<Iter>, links': Links, modified': seq<Iter>) {
    forall b :: b in modified ==> b in modified' && b in links && b in links' && links'[b] == links[b]
  }

  /** One more known element has been moved; nothing else changes but that its old block may be newly linked. */
  lemma {:induction false} MovedKnown(oldPos: map<nat, Position>, oldBlocks: set<Iter>, done: seq<nat>, pos: map<nat, Position>,
                                      links: Links, modified: seq<Iter>, unknown: Iter, links': Links, modified': seq<Iter>,
                                      x: nat, p: Position)
    requires Moved(oldPos, oldBlocks, done, pos, links, modified, unknown) && x in oldPos && x !in done
    requires LinksKept(links, modified, links', modified')
    requires oldPos[x].0 in modified' && oldPos[x].0 in links' && links'[oldPos[x].0] == p.0
    ensures Moved(oldPos, oldBlocks, done + [x], pos[x := p], links', modified', unknown)
  {
  }

  lemma {:induction false} MovedUnknown(oldPos: map<nat, Position>, oldBlocks: set<Iter>, done: seq<nat>, pos: map<nat, Position>,
                                        links: Links, modified: seq<Iter>, unknown: Iter, links': Links, unknown': Iter,
                                        x: nat, p: Position)
    requires Moved(oldPos, oldBlocks, done, pos, links, modified, unknown) && x !in oldPos && x !in done
    requires forall b :: b in links ==> b in links' && links'[b] == links[b]
    requires unknown == unknown' || (unknown == END && forall y :: y in done ==> y in oldPos)
    requires p.0 == unknown'
    ensures Moved(oldPos, oldBlocks, done + [x], pos[x := p], links', modified, unknown')
  {
  }

  function ElementsOf(cells: seq<Cell>): seq<nat> {
    seq(|cells|, i requires 0 <= i < |cells| => cells[i].value)
  }

  ghost predicate InPart(elems: Contents, b: Iter, x: nat) {
    b in elems && x in ElementsOf(elems[b])
  }

  ghost predicate SameParts(elems: Contents, parts: seq<Iter>, x: nat, y: nat) {
    forall b :: b in parts ==> (InPart(elems, b, x) <==> InPart(elems, b, y))
  }

  ghost predicate InSomePart(elems: Contents, parts: seq<Iter>, x: nat) {
    exists b :: b in parts && InPart(elems, b, x)
  }

  /** The lists of a relation are its classes. */
  lemma {:induction false} PartIffPosition(n: nat, blocks: seq<Iter>, elems: Contents, pos: map<nat, Position>, b: Iter, x: nat)
    requires Exact(n, blocks, elems, pos) && b in elems
    ensures InPart(elems, b, x) <==> x in pos && pos[x].0 == b
  {
    if x in ElementsOf(elems[b]) {
      var i :| 0 <= i < |elems[b]| && elems[b][i].value == x;
      assert elems[b][i] in elems[b];
    }
    if x in pos && pos[x].0 == b {
      var i :| 0 <= i < |elems[b]| && elems[b][i] == pos[x].1;
      assert ElementsOf(elems[b])[i] == x;
    }
  }

  lemma {:induction false} PartsAreClasses(n: nat, blocks: seq<Iter>, elems: Contents, pos: map<nat, Position>, x: nat, y: nat)
    requires Exact(n, blocks, elems, pos)
    ensures SameParts(elems, blocks, x, y) <==> Same(pos, x, y)
    ensures InSomePart(elems, blocks, x) <==> x in pos
  {
    forall b, z | b in blocks ensures InPart(elems, b, z) <==> z in pos && pos[z].0 == b {
      PartIffPosition(n, blocks, elems, pos, b, z);
    }
    if x in pos {
      assert pos[x].0 in blocks && InPart(elems, pos[x].0, x);
    }
    if y in pos {
      assert pos[y].0 in blocks && InPart(elems, pos[y].0, y);
    }
  }

  /** The positions after refining along some of another relation's lists. */
  ghost predicate RefinedBy(pos0: map<nat, Position>, elems: Contents, parts: seq<Iter>, pos: map<nat, Position>) {
    && (forall x, y :: Same(pos, x, y) <==> Same(pos0, x, y) && SameParts(elems, parts, x, y))
    && (forall x :: x in pos <==> x in pos0 || InSomePart(elems, parts, x))
  }

  lemma {:induction false} RefinedByOneMore(pos0: map<nat, Position>, elems: Contents, parts: seq<Iter>, pos: map<nat, Position>, b: Iter,
                                            pos': map<nat, Position>)
    requires RefinedBy(pos0, elems, parts, pos) && b in elems
    requires forall x, y :: Same(pos', x, y) <==> Same(pos, x, y) && (x in ElementsOf(elems[b]) <==> y in ElementsOf(elems[b]))
    requires forall x :: x in pos' <==> x in pos || x in ElementsOf(elems[b])
    ensures RefinedBy(pos0, elems, parts + [b], pos')
  {
    hide Same;
    forall x, y ensures SameParts(elems, parts + [b], x, y) <==> SameParts(elems, parts, x, y) && (InPart(elems, b, x) <==> InPart(elems, b, y)) {
    }
    forall x ensures InSomePart(elems, parts + [b], x) <==> InSomePart(elems, parts, x) || InPart(elems, b, x) {
      if InPart(elems, b, x) {
        assert b in parts + [b];
      }
      if InSomePart(elems, parts, x) {
        var c :| c in parts && InPart(elems, c, x);
        assert c in parts + [b];
      }
    }
  }

  lemma {:induction false} RefinedByAll(n: nat, blocks: seq<Iter>, elems: Contents, other: map<nat, Position>, pos0: map<nat, Position>,
                                        pos: map<nat, Position>)
    requires Exact(n, blocks, elems, other) && RefinedBy(pos0, elems, blocks, pos)
    ensures forall x, y :: Same(pos, x, y) <==> Same(pos0, x, y) && Same(other, x, y)
    ensures forall x :: x in pos <==> x in pos0 || x in other
  {
    forall x, y ensures SameParts(elems, blocks, x, y) <==> Same(other, x, y) {
      PartsAreClasses(n, blocks, elems, other, x, y);
    }
    forall x ensures InSomePart(elems, blocks, x) <==> x in other {
      PartsAreClasses(n, blocks, elems, other, x, x);
    }
  }

  lemma {:induction false} ElementsDistinct(n: nat, blocks: seq<Iter>, elems: Contents, pos: map<nat, Position>, b: Iter)
    requires Exact(n, blocks, elems, pos) && b in elems
    ensures Distinct(ElementsOf(elems[b])) && forall x :: x in ElementsOf(elems[b]) ==> x < n
  {
    var cells := elems[b];
    assert Distinct(cells);
    forall i, j | 0 <= i < j < |cells| ensures cells[i].value != cells[j].value {
      assert cells[i] in cells && cells[j] in cells;
    }
    forall x | x in ElementsOf(cells) ensures x < n {
      var i :| 0 <= i < |cells| && cells[i].value == x;
      assert cells[i] in cells;
    }
  }

  // ---------- Counting classes ----------

  /** The class of an element: its block, or the implicit one. */
  ghost function ClassOf(pos: map<nat, Position>, x: nat): Iter {
    if x in pos then pos[x].0 else END
  }

  ghost function Classes(n: nat, pos: map<nat, Position>): set<Iter> {
    set x {:trigger ClassOf(pos, x)} | 0 <= x < n :: ClassOf(pos, x)
  }

  ghost function Below(n: nat): (s: set<nat>)
    ensures |s| == n && forall x: nat :: x in s <==> x < n
  {
    if n == 0 then {} else Below(n - 1) + {n - 1}
  }

  lemma {:induction false} AsSet(s: seq<Iter>) returns (r: set<Iter>)
    requires Distinct(s)
    ensures |r| == |s| && forall b :: b in r <==> b in s
  {
    if s == [] {
      r := {};
    } else {
      var front := s[..|s| - 1];
      assert s == front + [s[|s| - 1]];
      r := AsSet(front);
      r := r + {s[|s| - 1]};
    }
  }

  lemma {:induction false} SameSize(a: set<nat>, b: set<nat>)
    requires a <= b && |a| == |b|
    ensures a == b
  {
    if x :| x in b && x !in a {
      SubsetSize(a, b - {x});
    }
  }

  lemma {:induction false} SubsetSize(a: set<nat>, b: set<nat>)
    requires a <= b
    ensures |a| <= |b|
  {
    if x :| x in a {
      SubsetSize(a - {x}, b - {x});
    }
  }

  ghost predicate SomeUnlisted(n: nat, pos: map<nat, Position>) {
    exists x: nat :: x < n && x !in pos
  }

  lemma {:induction false} AllListed(n: nat, blocks: seq<Iter>, elems: Contents, pos: map<nat, Position>)
    requires Exact(n, blocks, elems, pos)
    ensures |pos| == n <==> !SomeUnlisted(n, pos)
  {
    hide Exact;
    var all := Below(n);
    forall x | x in pos ensures x < n {
      ExactAt(n, blocks, elems, pos, x);
    }
    assert pos.Keys <= all;
    if |pos| == n {
      SameSize(pos.Keys, all);
      assert forall x: nat :: x < n ==> x in all;
    }
    assert !SomeUnlisted(n, pos) ==> pos.Keys == all;
  }

  lemma {:induction false} BlocksAreClasses(n: nat, blocks: seq<Iter>, elems: Contents, pos: map<nat, Position>)
    requires Exact(n, blocks, elems, pos) && NoneEmptyBut(elems, [])
    ensures forall b :: b in Classes(n, pos) <==> b in blocks || (b == END && SomeUnlisted(n, pos))
    ensures END !in blocks
  {
    forall b | b in blocks ensures b in Classes(n, pos) {
      var c := elems[b][0];
      assert c in elems[b];
      assert ClassOf(pos, c.value) == b;
    }
    if x: nat :| x < n && x !in pos {
      assert ClassOf(pos, x) == END;
    }
  }

  lemma {:induction false} CountClasses(n: nat, blocks: seq<Iter>, elems: Contents, pos: map<nat, Position>)
    requires Exact(n, blocks, elems, pos) && NoneEmptyBut(elems, [])
    ensures |Classes(n, pos)| == if |pos| == n then |blocks| else |blocks| + 1
  {
    AllListed(n, blocks, elems, pos);
    BlocksAreClasses(n, blocks, elems, pos);
    var listed := AsSet(blocks);
    hide Exact, NoneEmptyBut, Classes, Distinct, SomeUnlisted;
    if |pos| == n {
      assert Classes(n, pos) == listed;
    } else {
      assert Classes(n, pos) == listed + {END};
    }
  }

  // ---------- Annotated elements ----------

  datatype Annotated = Annotated(annotation: int, element: nat) {
    predicate Less(other: Annotated) {
      annotation < other.annotation || (annotation == other.annotation && element < other.element)
    }
  }

  ghost predicate OrderedByLabel(s: seq<Annotated>) {
    forall i, j :: 0 <= i < j < |s| ==> s[i].annotation <= s[j].annotation
  }

  /** No element is annotated twice. */
  ghost predicate ProperlyAnnotated(n: nat, s: seq<Annotated>) {
    && (forall a :: a in s ==> a.element < n && multiset(s)[a] == 1)
    && (forall a, b :: a in s && b in s && a.element == b.element ==> a == b)
  }

  lemma {:induction false} ProperPermutation(n: nat, s: seq<Annotated>, r: seq<Annotated>)
    requires ProperlyAnnotated(n, s) && multiset(s) == multiset(r)
    ensures ProperlyAnnotated(n, r) && forall a :: a in r <==> a in s
  {
    assert forall a :: a in s <==> a in multiset(s);
    assert forall a :: a in r <==> a in multiset(r);
  }

  lemma {:induction false} NextElementIsNew(n: nat, s: seq<Annotated>, i: nat)
    requires ProperlyAnnotated(n, s) && i < |s|
    ensures s[i].element < n && forall j :: 0 <= j < i ==> s[j].element != s[i].element
  {
    assert s[i] in s;
    forall j | 0 <= j < i ensures s[j].element != s[i].element {
      assert s[j] in s;
      if s[j] == s[i] {
        TwiceIsTwo(s, j, i);
      }
    }
  }

  lemma {:induction false} TwiceIsTwo<T>(s: seq<T>, j: nat, i: nat)
    requires j < i < |s| && s[j] == s[i]
    ensures multiset(s)[s[i]] >= 2
  {
    assert s == s[..j] + [s[j]] + s[j + 1..i] + [s[i]] + s[i + 1..];
  }

  /** Positions of the elements of the first i annotations. */
  ghost predicate Filed(s: seq<Annotated>, i: nat, pos: map<nat, Position>)
    requires i <= |s|
  {
    && (forall x :: x in pos <==> exists j :: 0 <= j < i && s[j].element == x)
    && (forall j, k :: 0 <= j < i && 0 <= k < i && s[j].element in pos && s[k].element in pos ==>
          (pos[s[j].element].0 == pos[s[k].element].0 <==> s[j].annotation == s[k].annotation))
  }

  /** The current block holds the elements with the current annotation. */
  ghost predicate FiledCurrent(s: seq<Annotated>, i: nat, pos: map<nat, Position>, current: Iter, annotation: int)
    requires i <= |s|
  {
    forall j :: 0 <= j < i && s[j].element in pos ==> (pos[s[j].element].0 == current <==> s[j].annotation == annotation)
  }

  lemma {:induction false} FiledOneMore(n: nat, s: seq<Annotated>, i: nat, pos: map<nat, Position>, current: Iter, cell: Cell)
    requires ProperlyAnnotated(n, s) && i < |s| && Filed(s, i, pos) && FiledCurrent(s, i, pos, current, s[i].annotation)
    ensures s[i].element !in pos
    ensures var pos' := pos[s[i].element := (current, cell)];
      Filed(s, i + 1, pos') && FiledCurrent(s, i + 1, pos', current, s[i].annotation)
  {
    NextElementIsNew(n, s, i);
    var x := s[i].element;
    var pos' := pos[x := (current, cell)];
    assert x !in pos;
    forall y | y in pos' ensures exists j :: 0 <= j < i + 1 && s[j].element == y {
      if y in pos {
        var j :| 0 <= j < i && s[j].element == y;
      } else {
        assert s[i].element == y;
      }
    }
    forall j | 0 <= j < i ensures s[j].element in pos && s[j].element != x && pos'[s[j].element] == pos[s[j].element] {
    }
    forall j, k | 0 <= j < i + 1 && 0 <= k < i + 1
      ensures pos'[s[j].element].0 == pos'[s[k].element].0 <==> s[j].annotation == s[k].annotation
    {
    }
  }

  lemma {:induction false} NotYetFiled(s: seq<Annotated>, i: nat, pos: map<nat, Position>)
    requires i < |s| && Filed(s, i, pos) && forall j :: 0 <= j < i ==> s[j].element != s[i].element
    ensures s[i].element !in pos
  {
  }

  lemma {:induction false} FiledNewBlock(s: seq<Annotated>, i: nat, blocks: seq<Iter>, n: nat, elems: Contents, pos: map<nat, Position>,
                                         current: Iter, annotation: int, added: Iter)
    requires OrderedByLabel(s) && 0 < i < |s| && s[i].annotation != annotation && s[i - 1].annotation == annotation
    requires Exact(n, blocks, elems, pos) && added !in blocks
    ensures FiledCurrent(s, i, pos, added, s[i].annotation)
  {
    forall j | 0 <= j < i && s[j].element in pos
      ensures pos[s[j].element].0 == added <==> s[j].annotation == s[i].annotation
    {
      assert s[j].annotation <= s[i - 1].annotation <= s[i].annotation;
    }
  }

  lemma {:induction false} InsertOrdered(s: seq<Annotated>, j: nat, a: Annotated, r: seq<Annotated>)
    requires OrderedByLabel(s) && j <= |s| && r == s[..j] + [a] + s[j..]
    requires forall i :: j <= i < |s| ==> a.annotation <= s[i].annotation
    requires 0 < j ==> s[j - 1].annotation <= a.annotation
    ensures OrderedByLabel(r)
  {
    forall x, y | 0 <= x < y < |r| ensures r[x].annotation <= r[y].annotation {
      assert r[x] == if x < j then s[x] else if x == j then a else s[x - 1];
      assert r[y] == if y < j then s[y] else if y == j then a else s[y - 1];
    }
  }

  lemma {:induction false} InsertKeepsAll(s: seq<Annotated>, j: nat, all: seq<Annotated>, k: nat)
    requires j <= |s| && k < |all| && multiset(s) == multiset(all[..k])
    ensures multiset(s[..j] + [all[k]] + s[j..]) == multiset(all[..k + 1])
  {
    assert s == s[..j] + s[j..];
    assert all[..k + 1] == all[..k] + [all[k]];
  }

  method Sort(all: seq<Annotated>) returns (s: seq<Annotated>)
    ensures OrderedByLabel(s) && multiset(s) == multiset(all)
  {
    s := [];
    for k := 0 to |all|
      invariant OrderedByLabel(s) && multiset(s) == multiset(all[..k])
    {
      hide OrderedByLabel;
      var j := |s|;
      while 0 < j && all[k].Less(s[j - 1])
        invariant 0 <= j <= |s|
        invariant forall i :: j <= i < |s| ==> all[k].annotation <= s[i].annotation
      {
        j := j - 1;
      }
      InsertOrdered(s, j, all[k], s[..j] + [all[k]] + s[j..]);
      InsertKeepsAll(s, j, all, k);
      s := s[..j] + [all[k]] + s[j..];
    }
    assert all[..|all|] == all;
  }

  lemma {:induction false} FiledMeans(annotated: seq<Annotated>, sorted: seq<Annotated>, pos: map<nat, Position>)
    requires (forall a :: a in annotated <==> a in sorted) && Filed(sorted, |sorted|, pos)
    ensures forall x :: x in pos <==> exists a :: a in annotated && a.element == x
    ensures forall a, b :: a in annotated && b in annotated ==> (Same(pos, a.element, b.element) <==> a.annotation == b.annotation)
  {
    forall x ensures x in pos <==> exists a :: a in annotated && a.element == x {
      if x in pos {
        var j :| 0 <= j < |sorted| && sorted[j].element == x;
        assert sorted[j] in annotated;
      }
      if a :| a in annotated && a.element == x {
        var j :| 0 <= j < |sorted| && sorted[j] == a;
        assert sorted[j].element == x;
      }
    }
    forall a, b | a in annotated && b in annotated ensures Same(pos, a.element, b.element) <==> a.annotation == b.annotation {
      var j :| 0 <= j < |sorted| && sorted[j] == a;
      var k :| 0 <= k < |sorted| && sorted[k] == b;
      assert sorted[j].element in pos && sorted[k].element in pos;
    }
  }

  class EquivalenceRelation {
    const numElements: nat
    var blocks: seq<Iter>
    var elements: Contents
    var itIntersectionBlock: Links
    var elementPositions: map<nat, Position>
    var nextNode: Iter

    /** All addresses in use are below the next one. */
    ghost predicate Allocated()
      reads this`nextNode, this`blocks, this`itIntersectionBlock
    {
      nextNode != END && (forall b :: b in blocks ==> b < nextNode && b in itIntersectionBlock)
      && (forall b :: b in itIntersectionBlock ==> b in blocks)
    }

    ghost predicate NoLinks()
      reads this`itIntersectionBlock
    {
      forall b :: b in itIntersectionBlock ==> itIntersectionBlock[b] == END
    }

    /** Positions are exact, no block is empty, and no link is left from a refinement. */
    ghost predicate Valid()
      reads this
    {
      Exact(numElements, blocks, elements, elementPositions) && Allocated() && NoneEmptyBut(elements, []) && NoLinks()
    }

    constructor (n: nat)
      ensures numElements == n && blocks == [] && elementPositions == map[] && Valid()
    {
      numElements := n;
      blocks, elements, itIntersectionBlock := [], map[], map[];
      elementPositions := map[];
      nextNode := 1;
    }

    method AddEmptyBlock() returns (block: Iter)
      requires Allocated()
      modifies this
      ensures Allocated() && block !in old(blocks) && block != END
      ensures blocks == old(blocks) + [block] && elements == old(elements)[block := []]
      ensures itIntersectionBlock == old(itIntersectionBlock)[block := END] && elementPositions == old(elementPositions)
    {
      block := nextNode;
      nextNode := nextNode + 1;
      blocks := blocks + [block];
      elements := elements[block := []];
      itIntersectionBlock := itIntersectionBlock[block := END];
    }

    /** Appends a node for the element and stores its position. */
    method PutIn(x: nat, block: Iter, ghost pos: map<nat, Position>)
      requires Exact(numElements, blocks, elements, pos) && Allocated() && x < numElements && x !in pos && block in elements
      requires pos == elementPositions - {x}
      modifies this`elements, this`elementPositions, this`nextNode
      ensures Exact(numElements, blocks, elements, elementPositions)
      ensures x in elementPositions && elementPositions == old(elementPositions)[x := elementPositions[x]]
      ensures elementPositions[x].0 == block
      ensures Allocated() && block in elements && elements[block] != [] && elements == old(elements)[block := elements[block]]
    {
      ghost var elems := elements;
      hide Exact;
      var cell := Cell(nextNode, x);
      nextNode := nextNode + 1;
      elements := elements[block := elements[block] + [cell]];
      elementPositions := elementPositions[x := (block, cell)];
      ExactInsert(numElements, blocks, elems, pos, block, cell);
      assert elementPositions == pos[x := (block, cell)];
    }

    /** Removes the node; the position of its element is out of date until the element is put back. */
    method TakeOut(x: nat)
      requires Exact(numElements, blocks, elements, elementPositions) && x in elementPositions
      modifies this`elements
      ensures Exact(numElements, blocks, elements, elementPositions - {x})
      ensures var b := elementPositions[x].0; b in elements && elements == old(elements)[b := elements[b]]
    {
      var (b, cell) := elementPositions[x];
      ghost var elems := elements;
      ExactAt(numElements, blocks, elements, elementPositions, x);
      hide Exact;
      var i := 0;
      while elements[b][i] != cell
        invariant i < |elements[b]| && cell in elements[b][i..]
        decreases |elements[b]| - i
      {
        i := i + 1;
      }
      ExactErase(numElements, blocks, elems, elementPositions, x, i);
      elements := elements[b := elements[b][..i] + elements[b][i + 1..]];
    }

    // ---------- Refining along one block ----------

    /** The state after the elements of done have been moved. */
    ghost predicate Moving(oldPos: map<nat, Position>, oldBlocks: set<Iter>, done: seq<nat>, modified: seq<Iter>, unknown: Iter)
      reads this
    {
      && Exact(numElements, blocks, elements, elementPositions) && Allocated()
      && Linked(oldBlocks, blocks, itIntersectionBlock, modified, unknown)
      && Moved(oldPos, oldBlocks, done, elementPositions, itIntersectionBlock, modified, unknown)
      && NoneEmptyBut(elements, modified)
      && (unknown == END ==> forall y :: y in done ==> y in oldPos)
    }

    method MoveKnown(x: nat, ghost oldPos: map<nat, Position>, ghost oldBlocks: set<Iter>, ghost done: seq<nat>,
                     modified: seq<Iter>, ghost unknown: Iter) returns (modified': seq<Iter>)
      requires Moving(oldPos, oldBlocks, done, modified, unknown)
      requires x in elementPositions && x !in done && x in oldPos
      modifies this
      ensures Moving(oldPos, oldBlocks, done + [x], modified', unknown)
    {
      hide Exact, Linked, Moved, LinksKept, Allocated, NoneEmptyBut, NoneEmptyBesides;
      var blockB := elementPositions[x].0;
      KnownIsThere(oldPos, oldBlocks, done, modified, unknown, x);
      modified' := LinkBlock(blockB, oldBlocks, modified, unknown);
      var target := itIntersectionBlock[blockB];
      ghost var elems := elements;
      TakeOut(x);
      PutIn(x, target, elementPositions - {x});
      StillNoneEmpty(elems, elements, modified', blockB, target);
      MovedKnown(oldPos, oldBlocks, done, old(elementPositions), old(itIntersectionBlock), modified, unknown,
                 itIntersectionBlock, modified', x, elementPositions[x]);
    }

    lemma {:induction false} StillNoneEmpty(elems: Contents, elems': Contents, modified: seq<Iter>, b: Iter, added: Iter)
      requires NoneEmptyBesides(elems, modified, added) && b in modified && b in elems' && added in elems' && elems'[added] != []
      requires elems' == elems[b := elems'[b]][added := elems'[added]]
      ensures NoneEmptyBut(elems', modified)
    {
    }

    lemma {:induction false} KnownIsThere(oldPos: map<nat, Position>, oldBlocks: set<Iter>, done: seq<nat>, modified: seq<Iter>,
                                          unknown: Iter, x: nat)
      requires Moving(oldPos, oldBlocks, done, modified, unknown)
      requires x in elementPositions && x !in done && x in oldPos
      ensures elementPositions[x] == oldPos[x] && oldPos[x].0 in oldBlocks && oldPos[x].0 in elements && x < numElements
    {
    }

    /** Gives the block a block for its intersection with X unless it has one. */
    method LinkBlock(blockB: Iter, ghost oldBlocks: set<Iter>, modified: seq<Iter>, ghost unknown: Iter) returns (modified': seq<Iter>)
      requires blockB in oldBlocks && blockB in elements && Allocated()
      requires Exact(numElements, blocks, elements, elementPositions) && NoneEmptyBut(elements, modified)
      requires Linked(oldBlocks, blocks, itIntersectionBlock, modified, unknown)
      modifies this
      ensures Exact(numElements, blocks, elements, elementPositions) && Allocated() && elementPositions == old(elementPositions)
      ensures Linked(oldBlocks, blocks, itIntersectionBlock, modified', unknown)
      ensures LinksKept(old(itIntersectionBlock), modified, itIntersectionBlock, modified')
      ensures blockB in modified' && blockB in elements && blockB in itIntersectionBlock
      ensures itIntersectionBlock[blockB] in elements && itIntersectionBlock[blockB] != blockB
      ensures NoneEmptyBesides(elements, modified', itIntersectionBlock[blockB])
    {
      hide Exact, Linked, NoneEmptyBut, NoneEmptyBesides, LinksKept;
      LinkedAt(oldBlocks, blocks, itIntersectionBlock, modified, unknown, blockB);
      BlocksAreKeys(elementPositions);
      modified' := modified;
      if itIntersectionBlock[blockB] == END {
        var added := AddEmptyBlock();
        itIntersectionBlock := itIntersectionBlock[blockB := added];
        modified' := modified' + [blockB];
        ExactAddBlock(numElements, old(blocks), old(elements), elementPositions, added);
        LinkNew(oldBlocks, old(blocks), old(itIntersectionBlock), modified, unknown, blockB, added);
        OneMoreEmpty(old(elements), modified, blockB, added);
      } else {
        KeepAll(elements, itIntersectionBlock, oldBlocks, blocks, modified, unknown, itIntersectionBlock[blockB]);
      }
    }

    lemma {:induction false} OneMoreEmpty(elems: Contents, modified: seq<Iter>, b: Iter, added: Iter)
      requires NoneEmptyBut(elems, modified)
      ensures NoneEmptyBesides(elems[added := []], modified + [b], added)
    {
    }

    lemma {:induction false} KeepAll(elems: Contents, links: Links, oldBlocks: set<Iter>, blocks: seq<Iter>, modified: seq<Iter>,
                                     unknown: Iter, added: Iter)
      requires NoneEmptyBut(elems, modified) && Linked(oldBlocks, blocks, links, modified, unknown)
      ensures NoneEmptyBesides(elems, modified, added) && LinksKept(links, modified, links, modified)
    {
    }

    lemma {:induction false} BlocksAreKeys(pos: map<nat, Position>)
      requires Exact(numElements, blocks, elements, pos)
      ensures forall b :: b in blocks <==> b in elements
    {
    }

    lemma {:induction false} BlocksDistinct(pos: map<nat, Position>)
      requires Exact(numElements, blocks, elements, pos)
      ensures Distinct(blocks)
    {
    }

    method MoveUnknown(x: nat, ghost oldPos: map<nat, Position>, ghost oldBlocks: set<Iter>, ghost done: seq<nat>,
                       ghost modified: seq<Iter>, unknown: Iter) returns (unknown': Iter)
      requires Moving(oldPos, oldBlocks, done, modified, unknown)
      requires x !in elementPositions && x !in done && x < numElements
      modifies this
      ensures Moving(oldPos, oldBlocks, done + [x], modified, unknown')
    {
      hide Exact, Linked, Moved, Allocated, NoneEmptyBut, NoneEmptyBesides, LinksKept;
      KnownIffOld(oldPos, oldBlocks, done, modified, unknown, x);
      unknown' := UnknownBlock(oldBlocks, modified, unknown);
      assert elementPositions - {x} == elementPositions;
      ghost var elems := elements;
      PutIn(x, unknown', elementPositions);
      NowFilled(elems, elements, modified, unknown');
      MovedUnknown(oldPos, oldBlocks, done, old(elementPositions), old(itIntersectionBlock), modified, unknown,
                   itIntersectionBlock, unknown', x, elementPositions[x]);
    }

    /** Creates the block for the unlisted elements of X on demand. */
    method UnknownBlock(ghost oldBlocks: set<Iter>, ghost modified: seq<Iter>, unknown: Iter) returns (unknown': Iter)
      requires Allocated() && Exact(numElements, blocks, elements, elementPositions) && NoneEmptyBut(elements, modified)
      requires Linked(oldBlocks, blocks, itIntersectionBlock, modified, unknown)
      modifies this
      ensures Exact(numElements, blocks, elements, elementPositions) && Allocated() && elementPositions == old(elementPositions)
      ensures Linked(oldBlocks, blocks, itIntersectionBlock, modified, unknown')
      ensures unknown' != END && unknown' in elements && (unknown != END ==> unknown' == unknown)
      ensures forall b :: b in old(itIntersectionBlock) ==> b in itIntersectionBlock && itIntersectionBlock[b] == old(itIntersectionBlock)[b]
      ensures NoneEmptyBesides(elements, modified, unknown')
    {
      hide Exact, Linked, NoneEmptyBut, NoneEmptyBesides, LinksKept;
      unknown' := unknown;
      if unknown == END {
        unknown' := AddEmptyBlock();
        LinkUnknown(oldBlocks, old(blocks), old(itIntersectionBlock), modified, unknown');
        ExactAddBlock(numElements, old(blocks), old(elements), elementPositions, unknown');
        UnknownEmpty(old(elements), modified, unknown');
      } else {
        KeepAll(elements, itIntersectionBlock, oldBlocks, blocks, modified, unknown, unknown);
        LinkedUnknown(oldBlocks, blocks, itIntersectionBlock, modified, unknown, elements, elementPositions);
      }
    }

    lemma {:induction false} UnknownEmpty(elems: Contents, modified: seq<Iter>, added: Iter)
      requires NoneEmptyBut(elems, modified)
      ensures NoneEmptyBesides(elems[added := []], modified, added)
    {
    }

    lemma {:induction false} NowFilled(elems: Contents, elems': Contents, modified: seq<Iter>, b: Iter)
      requires NoneEmptyBesides(elems, modified, b) && b in elems' && elems'[b] != [] && elems' == elems[b := elems'[b]]
      ensures NoneEmptyBut(elems', modified)
    {
    }

    lemma {:induction false} LinkedUnknown(oldBlocks: set<Iter>, blocks: seq<Iter>, links: Links, modified: seq<Iter>, unknown: Iter,
                                           elems: Contents, pos: map<nat, Position>)
      requires Linked(oldBlocks, blocks, links, modified, unknown) && Exact(numElements, blocks, elems, pos) && unknown != END
      ensures unknown in elems
    {
    }

    /** Splits every class into the part inside X and the part outside. */
    method RefineByBlock(xs: seq<nat>)
      requires Valid() && Distinct(xs) && forall x :: x in xs ==> x < numElements
      modifies this
      ensures Valid()
      ensures forall x, y :: Same(elementPositions, x, y) <==> Same(old(elementPositions), x, y) && (x in xs <==> y in xs)
      ensures forall x :: x in elementPositions <==> x in old(elementPositions) || x in xs
    {
      ghost var oldPos, oldBlocks := elementPositions, elements.Keys;
      StartMoving();
      hide Exact, Linked, Moved, Allocated, NoneEmptyBut, NoLinks, Moving, Distinct;
      var modifiedBlocks: seq<Iter> := [];
      var itUnknownElements := END;
      for i := 0 to |xs|
        invariant Moving(oldPos, oldBlocks, xs[..i], modifiedBlocks, itUnknownElements)
      {
        var x := xs[i];
        NextIsNew(xs, i);
        KnownIffOld(oldPos, oldBlocks, xs[..i], modifiedBlocks, itUnknownElements, x);
        if x in elementPositions {
          modifiedBlocks := MoveKnown(x, oldPos, oldBlocks, xs[..i], modifiedBlocks, itUnknownElements);
        } else {
          itUnknownElements := MoveUnknown(x, oldPos, oldBlocks, xs[..i], modifiedBlocks, itUnknownElements);
        }
      }
      assert xs[..|xs|] == xs;
      DoneMoving(oldPos, oldBlocks, xs, modifiedBlocks, itUnknownElements);
      CleanUp(modifiedBlocks);
    }

    lemma {:induction false} StartMoving()
      requires Valid()
      ensures Moving(elementPositions, elements.Keys, [], [], END)
    {
    }

    lemma {:induction false} DoneMoving(oldPos: map<nat, Position>, oldBlocks: set<Iter>, xs: seq<nat>, modified: seq<Iter>, unknown: Iter)
      requires Moving(oldPos, oldBlocks, xs, modified, unknown)
      ensures Exact(numElements, blocks, elements, elementPositions) && Allocated() && NoneEmptyBut(elements, modified)
      ensures Distinct(modified) && forall b :: b in modified ==> b in itIntersectionBlock
      ensures forall b :: b in itIntersectionBlock && b !in modified ==> itIntersectionBlock[b] == END
      ensures forall x, y :: Same(elementPositions, x, y) <==> Same(oldPos, x, y) && (x in xs <==> y in xs)
      ensures forall x :: x in elementPositions <==> x in oldPos || x in xs
    {
      MovedSplits(oldPos, oldBlocks, xs, blocks, elementPositions, itIntersectionBlock, modified, unknown);
    }

    /** Resets the links of the modified blocks and removes those that became empty. */
    method CleanUp(modified: seq<Iter>)
      requires Exact(numElements, blocks, elements, elementPositions) && Allocated() && NoneEmptyBut(elements, modified)
      requires Distinct(modified) && forall b :: b in modified ==> b in itIntersectionBlock
      requires forall b :: b in itIntersectionBlock && b !in modified ==> itIntersectionBlock[b] == END
      modifies this
      ensures Valid() && elementPositions == old(elementPositions)
    {
      assert modified[0..] == modified;
      for i := 0 to |modified|
        invariant Exact(numElements, blocks, elements, elementPositions) && Allocated() && elementPositions == old(elementPositions)
        invariant NoneEmptyBut(elements, modified[i..])
        invariant forall b :: b in modified[i..] ==> b in itIntersectionBlock
        invariant forall b :: b in itIntersectionBlock && b !in modified[i..] ==> itIntersectionBlock[b] == END
      {
        var b := modified[i];
        TailDistinct(modified, i);
        assert b in elements by {
          assert b in modified[i..];
        }
        hide Exact;
        if elements[b] == [] {
          EraseBlock(b);
        } else {
          itIntersectionBlock := itIntersectionBlock[b := END];
        }
      }
    }

    method EraseBlock(b: Iter)
      requires Exact(numElements, blocks, elements, elementPositions) && Allocated() && b in elements && elements[b] == []
      modifies this`blocks, this`elements, this`itIntersectionBlock
      ensures Exact(numElements, blocks, elements, elementPositions) && Allocated()
      ensures elements == old(elements) - {b} && itIntersectionBlock == old(itIntersectionBlock) - {b}
    {
      BlocksAreKeys(elementPositions);
      hide Exact;
      var i := 0;
      while blocks[i] != b
        invariant i < |blocks| && b in blocks[i..]
        decreases |blocks| - i
      {
        i := i + 1;
      }
      ExactDropBlock(numElements, blocks, elements, elementPositions, i);
      assert Distinct(blocks) by {
        BlocksDistinct(elementPositions);
      }
      DropOne(blocks, i, blocks[..i] + blocks[i + 1..]);
      blocks := blocks[..i] + blocks[i + 1..];
      elements := elements - {b};
      itIntersectionBlock := itIntersectionBlock - {b};
    }

    lemma {:induction false} KnownIffOld(oldPos: map<nat, Position>, oldBlocks: set<Iter>, done: seq<nat>, modified: seq<Iter>,
                                         unknown: Iter, x: nat)
      requires Moving(oldPos, oldBlocks, done, modified, unknown) && x !in done
      ensures x in elementPositions <==> x in oldPos
    {
    }

    // ---------- Refining along another relation ----------

    /** Two elements are equivalent afterwards exactly when they were before and are in the other relation. */
    method Refine(other: EquivalenceRelation)
      requires Valid() && other.Valid() && other != this && other.numElements == numElements
      modifies this
      ensures Valid()
      ensures forall x, y :: Same(elementPositions, x, y) <==> Same(old(elementPositions), x, y) && Same(other.elementPositions, x, y)
      ensures forall x :: x in elementPositions <==> x in old(elementPositions) || x in other.elementPositions
    {
      ghost var theirs := other.elementPositions;
      other.BlocksAreKeys(theirs);
      hide Exact, NoneEmptyBut, NoLinks, Allocated, Same, Distinct, RefinedBy;
      assert RefinedBy(old(elementPositions), other.elements, other.blocks[..0], elementPositions) by {
        NotYetRefined(elementPositions, other.elements);
      }
      for k := 0 to |other.blocks|
        invariant Valid()
        invariant RefinedBy(old(elementPositions), other.elements, other.blocks[..k], elementPositions)
      {
        var b := other.blocks[k];
        assert other.blocks[..k + 1] == other.blocks[..k] + [b];
        ghost var before := elementPositions;
        ElementsDistinct(numElements, other.blocks, other.elements, theirs, b);
        RefineByBlock(ElementsOf(other.elements[b]));
        RefinedByOneMore(old(elementPositions), other.elements, other.blocks[..k], before, b, elementPositions);
      }
      assert other.blocks[..|other.blocks|] == other.blocks;
      RefinedByAll(numElements, other.blocks, other.elements, theirs, old(elementPositions), elementPositions);
    }

    lemma {:induction false} NotYetRefined(pos: map<nat, Position>, elems: Contents)
      ensures RefinedBy(pos, elems, [], pos)
    {
    }

    // ---------- Queries and construction ----------

    /** The number of classes, with the implicit one when some element is unlisted. */
    method GetNumBlocks() returns (num: nat)
      requires Valid()
      ensures num == |Classes(numElements, elementPositions)|
    {
      CountClasses(numElements, blocks, elements, elementPositions);
      if numElements == |elementPositions| {
        num := |blocks|;
      } else {
        num := |blocks| + 1;
      }
    }

    /** Annotated elements are equivalent exactly when their annotations are equal; the others are unlisted. */
    static method FromAnnotatedElements(n: nat, annotated: seq<Annotated>) returns (relation: EquivalenceRelation)
      requires ProperlyAnnotated(n, annotated)
      ensures fresh(relation) && relation.Valid() && relation.numElements == n
      ensures forall x :: x in relation.elementPositions <==> exists a :: a in annotated && a.element == x
      ensures forall a, b :: a in annotated && b in annotated ==>
        (Same(relation.elementPositions, a.element, b.element) <==> a.annotation == b.annotation)
    {
      relation := new EquivalenceRelation(n);
      var sorted := Sort(annotated);
      ProperPermutation(n, annotated, sorted);
      if sorted != [] {
        relation.FileAll(sorted);
      } else {
        assert |multiset(annotated)| == 0;
      }
      FiledMeans(annotated, sorted, relation.elementPositions);
    }

    /** The state after the first i annotations have been filed. */
    ghost predicate Filing(sorted: seq<Annotated>, i: nat, current: Iter, annotation: int)
      requires i <= |sorted|
      reads this
    {
      && 0 < |sorted| && Exact(numElements, blocks, elements, elementPositions) && Allocated() && NoLinks() && current in elements
      && (if i == 0 then NoneEmptyBesides(elements, [], current) else NoneEmptyBut(elements, []))
      && Filed(sorted, i, elementPositions) && FiledCurrent(sorted, i, elementPositions, current, annotation)
      && annotation == sorted[if i == 0 then 0 else i - 1].annotation
    }

    method FileAll(sorted: seq<Annotated>)
      requires sorted != [] && ProperlyAnnotated(numElements, sorted) && OrderedByLabel(sorted)
      requires Valid() && elementPositions == map[]
      modifies this
      ensures Valid() && Filed(sorted, |sorted|, elementPositions)
    {
      hide ProperlyAnnotated, OrderedByLabel, Exact, Allocated, NoneEmptyBut, NoneEmptyBesides;
      var currentClassLabel := sorted[0].annotation;
      var itCurrentBlock := AddEmptyBlock();
      ExactAddBlock(numElements, old(blocks), old(elements), elementPositions, itCurrentBlock);
      UnknownEmpty(old(elements), [], itCurrentBlock);
      assert NoLinks() by {
        StillNoLinks(old(itIntersectionBlock), itCurrentBlock);
      }
      for i := 0 to |sorted|
        invariant Filing(sorted, i, itCurrentBlock, currentClassLabel)
      {
        hide Filing;
        itCurrentBlock, currentClassLabel := FileOne(sorted, i, itCurrentBlock, currentClassLabel);
      }
    }

    lemma {:induction false} StillNoLinks(links: Links, added: Iter)
      requires (forall b :: b in links ==> links[b] == END) && itIntersectionBlock == links[added := END]
      ensures NoLinks()
    {
    }

    method FileOne(sorted: seq<Annotated>, i: nat, current: Iter, annotation: int) returns (block: Iter, annotation': int)
      requires i < |sorted| && ProperlyAnnotated(numElements, sorted) && OrderedByLabel(sorted)
      requires Filing(sorted, i, current, annotation)
      modifies this
      ensures Filing(sorted, i + 1, block, annotation')
    {
      hide Exact, NoneEmptyBut, NoneEmptyBesides, Filed, FiledCurrent, ProperlyAnnotated, OrderedByLabel, NoLinks, Allocated;
      block, annotation' := BlockFor(sorted, i, current, annotation);
      ghost var elems, pos := elements, elementPositions;
      var x := sorted[i].element;
      NextElementIsNew(numElements, sorted, i);
      NotYetFiled(sorted, i, pos);
      assert pos - {x} == pos;
      PutIn(x, block, pos);
      FiledOneMore(numElements, sorted, i, pos, block, elementPositions[x].1);
      assert elementPositions == pos[x := (block, elementPositions[x].1)];
      NowFilled(elems, elements, [], block);
    }

    /** The current block if the annotation is still the same, and a new one otherwise. */
    method BlockFor(sorted: seq<Annotated>, i: nat, current: Iter, annotation: int) returns (block: Iter, annotation': int)
      requires i < |sorted| && OrderedByLabel(sorted) && current in elements
      requires Exact(numElements, blocks, elements, elementPositions) && Allocated() && NoLinks()
      requires if i == 0 then NoneEmptyBesides(elements, [], current) else NoneEmptyBut(elements, [])
      requires FiledCurrent(sorted, i, elementPositions, current, annotation)
      requires annotation == sorted[if i == 0 then 0 else i - 1].annotation
      modifies this
      ensures Exact(numElements, blocks, elements, elementPositions) && Allocated() && NoLinks()
      ensures elementPositions == old(elementPositions) && block in elements && annotation' == sorted[i].annotation
      ensures NoneEmptyBesides(elements, [], block)
      ensures FiledCurrent(sorted, i, elementPositions, block, annotation')
    {
      hide Exact, FiledCurrent, OrderedByLabel, Filed;
      block, annotation' := current, annotation;
      if sorted[i].annotation != annotation {
        annotation' := sorted[i].annotation;
        block := AddEmptyBlock();
        ExactAddBlock(numElements, old(blocks), old(elements), elementPositions, block);
        FiledNewBlock(sorted, i, old(blocks), numElements, old(elements), elementPositions, current, annotation, block);
        UnknownEmpty(old(elements), [], block);
      }
    }
  }
}
