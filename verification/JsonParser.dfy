/** The recursive JSON parser (src/search/trajectory_score_protocol.cc). */
module JsonParser {
  import opened JsonText

  datatype Json =
    | Null
    | Bool(bool_: bool)
    | Number(number: real)
    | String(bytes: Text)
    | Array(values: seq<Json>)
    | Object(fields: map<Text, Json>)

  const MAX_DEPTH: nat := 64

  const TRUE_TEXT: Text := [0x74, 0x72, 0x75, 0x65]
  const FALSE_TEXT: Text := [0x66, 0x61, 0x6c, 0x73, 0x65]
  const NULL_TEXT: Text := [0x6e, 0x75, 0x6c, 0x6c]

  // ---------- Grammar: sections 2 to 6 of RFC 8259 ----------

  predicate IsSpace(ch: Byte) {
    ch == 0x20 || ch == 0x09 || ch == 0x0d || ch == 0x0a
  }

  predicate IsDigit(ch: Byte) {
    0x30 <= ch <= 0x39
  }

  ghost predicate AllSpace(t: Text, i: nat, j: nat) {
    i <= j <= |t| && forall k :: i <= k < j ==> IsSpace(t[k])
  }

  /** One structural character with spaces around it. */
  ghost predicate Separated(t: Text, i: nat, j: nat, ch: Byte) {
    exists c :: i <= c < j <= |t| && AllSpace(t, i, c) && t[c] == ch && AllSpace(t, c + 1, j)
  }

  ghost predicate Digits(s: Text) {
    |s| > 0 && forall k :: 0 <= k < |s| ==> IsDigit(s[k])
  }

  ghost predicate IsInteger(s: Text) {
    s == [0x30] || (Digits(s) && s[0] != 0x30)
  }

  ghost predicate IsFraction(s: Text) {
    s == [] || (s[0] == 0x2e && Digits(s[1..]))
  }

  ghost predicate IsExponent(s: Text) {
    s == [] || ((s[0] == 0x65 || s[0] == 0x45) && (Digits(s[1..]) || (|s| > 1 && (s[1] == 0x2b || s[1] == 0x2d) && Digits(s[2..]))))
  }

  /** A token from i to j with an optional minus, an integer, a fraction and an exponent that end at m, n and p. */
  ghost predicate NumberParts(t: Text, i: nat, m: nat, n: nat, p: nat, j: nat) {
    && i <= m <= n <= p <= j <= |t| && (m == i || (m == i + 1 && t[i] == 0x2d))
    && IsInteger(t[m..n]) && IsFraction(t[n..p]) && IsExponent(t[p..j])
  }

  ghost predicate IsNumber(t: Text, i: nat, j: nat) {
    exists m, n, p :: NumberParts(t, i, m, n, p, j)
  }

  datatype Span = Span(start: nat, end: nat)

  /** The list of a JSON array or object: between consecutive items stands a comma. */
  ghost predicate Listed(t: Text, i: nat, j: nat, spans: seq<Span>) {
    && i <= j <= |t|
    && (spans == [] ==> AllSpace(t, i, j))
    && (spans != [] ==> AllSpace(t, i, spans[0].start) && AllSpace(t, spans[|spans| - 1].end, j))
    && (forall k :: 0 < k < |spans| ==> Separated(t, spans[k - 1].end, spans[k].start, 0x2c))
  }

  datatype Member = Member(keyStart: nat, keyEnd: nat, key: Text, start: nat, end: nat)

  ghost predicate IsKey(t: Text, m: Member) {
    m.keyStart < |t| && t[m.keyStart] == QUOTE && StringFrom(t, m.keyStart + 1) == Some(Literal(m.key, m.keyEnd))
    && Separated(t, m.keyEnd, m.start, 0x3a)
  }

  ghost predicate DistinctKeys(members: seq<Member>) {
    forall k, l :: 0 <= k < l < |members| ==> members[k].key != members[l].key
  }

  ghost function MemberSpans(members: seq<Member>): (r: seq<Span>)
    ensures |r| == |members|
  {
    seq(|members|, k requires 0 <= k < |members| => Span(members[k].keyStart, members[k].end))
  }

  type Strtod = Text -> Option<real>

  /** The text from i to j is a JSON text for the value. */
  ghost predicate Denotes(t: Text, f: Strtod, i: nat, j: nat, v: Json)
    decreases v, 2
  {
    i < j <= |t| &&
    match v
    case Null => t[i..j] == NULL_TEXT
    case Bool(b) => t[i..j] == if b then TRUE_TEXT else FALSE_TEXT
    case Number(x) => IsNumber(t, i, j) && f(t[i..j]) == Some(x)
    case String(s) => t[i] == QUOTE && StringFrom(t, i + 1) == Some(Literal(s, j))
    case Array(_) => t[i] == 0x5b && t[j - 1] == 0x5d && i + 1 < j && HasElements(t, f, i + 1, j - 1, v)
    case Object(_) => t[i] == 0x7b && t[j - 1] == 0x7d && i + 1 < j && HasMembers(t, f, i + 1, j - 1, v)
  }

  ghost predicate HasElements(t: Text, f: Strtod, i: nat, j: nat, v: Json)
    requires v.Array?
    decreases v, 1
  {
    exists spans :: Elements(t, f, i, j, v, spans)
  }

  ghost predicate HasMembers(t: Text, f: Strtod, i: nat, j: nat, v: Json)
    requires v.Object?
    decreases v, 1
  {
    exists members :: Members(t, f, i, j, v, members)
  }

  ghost predicate Elements(t: Text, f: Strtod, i: nat, j: nat, v: Json, spans: seq<Span>)
    requires v.Array?
    decreases v, 0
  {
    && |spans| == |v.values| && Listed(t, i, j, spans)
    && forall k :: 0 <= k < |spans| ==> Denotes(t, f, spans[k].start, spans[k].end, v.values[k])
  }

  /** The fields of an object, each with its own key. */
  ghost predicate Members(t: Text, f: Strtod, i: nat, j: nat, v: Json, members: seq<Member>)
    requires v.Object?
    decreases v, 0
  {
    && DistinctKeys(members) && Listed(t, i, j, MemberSpans(members))
    && (forall k :: k in v.fields ==> exists a :: 0 <= a < |members| && members[a].key == k)
    && forall a :: 0 <= a < |members| ==>
         IsKey(t, members[a]) && members[a].key in v.fields
         && Denotes(t, f, members[a].start, members[a].end, v.fields[members[a].key])
  }

  /** How much deeper a value may nest at some depth. */
  function Room(depth: nat): nat {
    if depth <= MAX_DEPTH then MAX_DEPTH - depth else 0
  }

  /** Arrays and objects are nested at most d deep. */
  ghost predicate NestedAtMost(v: Json, d: nat) {
    match v
    case Array(vs) => d > 0 && forall w :: w in vs ==> NestedAtMost(w, d - 1)
    case Object(m) => d > 0 && forall k :: k in m ==> NestedAtMost(m[k], d - 1)
    case _ => true
  }

  // ---------- Steps of reading a string ----------

  ghost predicate IsSpelled(bytes: Text, word: string) {
    |bytes| == |word| && forall k :: 0 <= k < |word| ==> IsChar(bytes[k], word[k])
  }

  /** A string with its quotes. */
  ghost predicate IsQuoted(t: Text, p: nat, s: Text, next: nat) {
    p < |t| && IsChar(t[p], '\"') && IsStringAt(t, p + 1, s, next)
  }

  lemma {:induction false} StringsThatStart(t: Text, p: nat)
    ensures forall s, next :: IsQuoted(t, p, s, next) <==> p < |t| && t[p] == QUOTE && StringFrom(t, p + 1) == Some(Literal(s, next))
  {
    forall s, next
      ensures IsQuoted(t, p, s, next) <==> p < |t| && t[p] == QUOTE && StringFrom(t, p + 1) == Some(Literal(s, next))
    {
      if p < |t| {
        MarksAre(t[p]);
        StringIsRead(t, p + 1, s, next);
      }
    }
  }

  lemma {:induction false} NothingPrepended(r: Option<Literal>)
    ensures Prepend([], r) == r
  {
    if r.Some? {
      assert [] + r.value.bytes == r.value.bytes;
    }
  }

  lemma {:induction false} AllOfIt(output: Text, next: nat)
    ensures Prepend(output, Some(Literal([], next))) == Some(Literal(output, next))
  {
    assert output + [] == output;
  }

  lemma {:induction false} AtTheEnd(t: Text)
    ensures StringFrom(t, |t|) == None && forall b :: Prepend(b, None) == None
  {
  }

  /** A string that is malformed at some position, or ends there. */
  lemma {:induction false} StringAt(t: Text, p: nat)
    requires p < |t|
    ensures t[p] == QUOTE ==> StringFrom(t, p) == Some(Literal([], p + 1))
    ensures ItemAt(t, p).Malformed? ==> StringFrom(t, p) == None
    ensures forall b :: Prepend(b, None) == None
  {
  }

  lemma {:induction false} SpaceThen(t: Text, i: nat, c: nat, j: nat, ch: Byte)
    requires AllSpace(t, i, c) && c < |t| && t[c] == ch && AllSpace(t, c + 1, j)
    ensures Separated(t, i, j, ch)
  {
  }

  lemma {:induction false} ListOneMore(t: Text, i: nat, at: nat, spans: seq<Span>, span: Span)
    requires i <= at <= |t| && span.start <= span.end <= |t|
    requires if spans == [] then AllSpace(t, i, span.start)
             else Listed(t, i, spans[|spans| - 1].end, spans) && Separated(t, spans[|spans| - 1].end, span.start, 0x2c)
    ensures i <= span.end && Listed(t, i, span.end, spans + [span])
  {
    var more := spans + [span];
    forall k | 0 < k < |more| ensures Separated(t, more[k - 1].end, more[k].start, 0x2c) {
      if k < |spans| {
        assert Separated(t, spans[k - 1].end, spans[k].start, 0x2c);
      }
    }
  }

  /** The list may be followed by spaces. */
  lemma {:induction false} ListToEnd(t: Text, i: nat, spans: seq<Span>, j: nat)
    requires spans != [] && Listed(t, i, spans[|spans| - 1].end, spans) && AllSpace(t, spans[|spans| - 1].end, j)
    ensures ListClosed(t, i, j, spans) && i <= j
  {
  }

  /** A list so far, with the position where its next item may start, spaces aside. */
  ghost predicate ListOpen(t: Text, i: nat, spans: seq<Span>, at: nat) {
    && i <= at <= |t|
    && if spans == [] then AllSpace(t, i, at) else Listed(t, i, spans[|spans| - 1].end, spans) && Separated(t, spans[|spans| - 1].end, at, 0x2c)
  }

  lemma {:induction false} MoreSpace(t: Text, i: nat, at: nat, j: nat, ch: Byte)
    requires AllSpace(t, at, j)
    ensures AllSpace(t, i, at) ==> AllSpace(t, i, j)
    ensures Separated(t, i, at, ch) ==> Separated(t, i, j, ch)
  {
    if Separated(t, i, at, ch) {
      var c :| i <= c < at <= |t| && AllSpace(t, i, c) && t[c] == ch && AllSpace(t, c + 1, at);
      assert AllSpace(t, c + 1, j);
    }
  }

  /** The next item joins the list. */
  lemma {:induction false} ListTakes(t: Text, i: nat, spans: seq<Span>, at: nat, start: nat, end: nat)
    requires ListOpen(t, i, spans, at) && AllSpace(t, at, start) && start <= end <= |t|
    ensures Listed(t, i, end, spans + [Span(start, end)])
  {
    if spans != [] {
      MoreSpace(t, spans[|spans| - 1].end, at, start, 0x2c);
    } else {
      MoreSpace(t, i, at, start, 0x2c);
    }
    ListOneMore(t, i, start, spans, Span(start, end));
  }

  ghost predicate Fields(t: Text, f: Strtod, values: map<Text, Json>, members: seq<Member>, d: nat) {
    && DistinctKeys(members)
    && (forall k :: k in values ==> NestedAtMost(values[k], d) && HasKey(members, |members|, k))
    && forall a :: 0 <= a < |members| ==>
         IsKey(t, members[a]) && members[a].key in values && Denotes(t, f, members[a].start, members[a].end, values[members[a].key])
  }

  lemma {:induction false} NoFields(t: Text, f: Strtod, d: nat)
    ensures Fields(t, f, map[], [], d) && MemberSpans([]) == []
  {
  }

  lemma {:induction false} OneMoreField(t: Text, f: Strtod, values: map<Text, Json>, members: seq<Member>, key: Text, value: Json,
                                        member: Member, d: nat)
    requires Fields(t, f, values, members, d) && key !in values && NestedAtMost(value, d)
    requires IsKey(t, member) && member.key == key && Denotes(t, f, member.start, member.end, value)
    ensures Fields(t, f, values[key := value], members + [member], d)
    ensures member.keyStart < member.end <= |t|
  {
    KeyBeforeValue(t, member);
    assert member.start < member.end <= |t|;
    hide IsKey, Denotes, NestedAtMost;
    var values', members' := values[key := value], members + [member];
    assert DistinctKeys(members');
    forall k | k in values' ensures HasKey(members', |members'|, k) {
      if k == key {
        assert members'[|members|].key == k;
      } else {
        var a :| 0 <= a < |members| && members[a].key == k;
        assert members'[a].key == k;
      }
    }
  }

  lemma {:induction false} KeyBeforeValue(t: Text, m: Member)
    requires IsKey(t, m)
    ensures m.keyStart < m.start
  {
  }

  lemma {:induction false} ObjectDone(t: Text, f: Strtod, begin: nat, end: nat, values: map<Text, Json>, members: seq<Member>, depth: nat)
    requires begin + 1 < end <= |t| && t[begin] == 0x7b && t[end - 1] == 0x7d && depth < MAX_DEPTH
    requires ListClosed(t, begin + 1, end - 1, MemberSpans(members)) && Fields(t, f, values, members, Room(depth + 1))
    ensures Denotes(t, f, begin, end, Object(values)) && NestedAtMost(Object(values), Room(depth))
  {
    hide IsKey, MemberSpans, Listed;
    assert Members(t, f, begin + 1, end - 1, Object(values), members);
  }

  // ---------- Elements of an array ----------

  ghost predicate ListClosed(t: Text, i: nat, j: nat, spans: seq<Span>) {
    Listed(t, i, j, spans)
  }

  lemma {:induction false} EmptyList(t: Text, i: nat, j: nat)
    requires AllSpace(t, i, j)
    ensures ListClosed(t, i, j, [])
  {
  }

  lemma {:induction false} OpenList(t: Text, i: nat, j: nat)
    requires AllSpace(t, i, j)
    ensures ListOpen(t, i, [], j)
  {
  }

  ghost predicate Values(t: Text, f: Strtod, values: seq<Json>, spans: seq<Span>, d: nat) {
    && |values| == |spans|
    && (forall k :: 0 <= k < |spans| ==> Denotes(t, f, spans[k].start, spans[k].end, values[k]))
    && (forall k :: 0 <= k < |values| ==> NestedAtMost(values[k], d))
  }

  lemma {:induction false} NoValues(t: Text, f: Strtod, d: nat)
    ensures Values(t, f, [], [], d)
  {
  }

  lemma {:induction false} OneMoreValue(t: Text, f: Strtod, values: seq<Json>, spans: seq<Span>, value: Json, span: Span, d: nat)
    requires Values(t, f, values, spans, d) && Denotes(t, f, span.start, span.end, value) && NestedAtMost(value, d)
    ensures Values(t, f, values + [value], spans + [span], d) && span.start <= span.end <= |t|
  {
    assert span.start <= span.end <= |t|;
    hide Denotes, NestedAtMost;
  }

  lemma {:induction false} ArrayDone(t: Text, f: Strtod, begin: nat, end: nat, values: seq<Json>, spans: seq<Span>, depth: nat)
    requires begin + 1 < end <= |t| && t[begin] == 0x5b && t[end - 1] == 0x5d && depth < MAX_DEPTH
    requires ListClosed(t, begin + 1, end - 1, spans) && Values(t, f, values, spans, Room(depth + 1))
    ensures Denotes(t, f, begin, end, Array(values)) && NestedAtMost(Array(values), Room(depth))
  {
    hide Listed;
    assert Elements(t, f, begin + 1, end - 1, Array(values), spans);
  }

  lemma {:induction false} OneMoreSpan(members: seq<Member>, member: Member)
    ensures MemberSpans(members + [member]) == MemberSpans(members) + [Span(member.keyStart, member.end)]
  {
  }

  // ---------- The other direction: whatever the grammar allows is found ----------

  /** Nothing stands behind a value that a number could still take in. */
  ghost predicate Delimited(t: Text, j: nat) {
    j <= |t| && (j < |t| ==> !IsDigit(t[j]) && t[j] != 0x2e && t[j] != 0x65 && t[j] != 0x45)
  }

  ghost predicate SpaceEndsAt(t: Text, p: nat, q: nat) {
    AllSpace(t, p, q) && (q < |t| ==> !IsSpace(t[q]))
  }

  lemma {:induction false} SpaceEnds(t: Text, p: nat, q: nat, i: nat)
    requires SpaceEndsAt(t, p, q) && AllSpace(t, p, i) && i < |t| && !IsSpace(t[i])
    ensures q == i
  {
  }

  lemma {:induction false} SeparatorAt(t: Text, p: nat, j: nat, ch: Byte, q: nat)
    requires Separated(t, p, j, ch) && !IsSpace(ch) && SpaceEndsAt(t, p, q)
    ensures q < j <= |t| && t[q] == ch && AllSpace(t, q + 1, j)
  {
    var c :| p <= c < j <= |t| && AllSpace(t, p, c) && t[c] == ch && AllSpace(t, c + 1, j);
    SpaceEnds(t, p, q, c);
  }

  ghost predicate StartsNumber(ch: Byte) {
    ch == 0x2d || IsDigit(ch)
  }

  /** The first byte of a value tells what kind of value it is. */
  lemma {:induction false} FirstByte(t: Text, f: Strtod, i: nat, j: nat, v: Json)
    requires Denotes(t, f, i, j, v)
    ensures i < j <= |t| && !IsSpace(t[i]) && t[i] != 0x5d && t[i] != 0x7d
    ensures v.String? <==> t[i] == QUOTE
    ensures v.Array? <==> t[i] == 0x5b
    ensures v.Object? <==> t[i] == 0x7b
    ensures v.Number? <==> StartsNumber(t[i])
  {
    if v.Number? {
      var m: nat, n: nat, p: nat :| NumberParts(t, i, m, n, p, j);
      assert t[m..n][0] == t[m];
    } else if v.Bool? || v.Null? {
      assert t[i..j][0] == t[i];
    }
  }

  /** r and q are the value and the end of any value that starts at p and nests no deeper than depth d leaves room for. */
  ghost predicate FindsAt(t: Text, f: Strtod, p: nat, d: nat, r: Option<Json>, q: nat) {
    forall j, v :: Denotes(t, f, p, j, v) && Delimited(t, j) && NestedAtMost(v, Room(d)) ==> r == Some(v) && q == j
  }

  /** The same behind spaces. */
  ghost predicate Finds(t: Text, f: Strtod, p: nat, d: nat, r: Option<Json>, q: nat) {
    forall i, j, v :: AllSpace(t, p, i) && Denotes(t, f, i, j, v) && Delimited(t, j) && NestedAtMost(v, Room(d)) ==> r == Some(v) && q == j
  }

  lemma {:induction false} FoundBehindSpace(t: Text, f: Strtod, p: nat, i: nat, d: nat, r: Option<Json>, q: nat)
    requires SpaceEndsAt(t, p, i) && (i < |t| ==> FindsAt(t, f, i, d, r, q))
    ensures Finds(t, f, p, d, r, q)
  {
    hide Denotes, NestedAtMost, Delimited;
    forall k, j, v | AllSpace(t, p, k) && Denotes(t, f, k, j, v) && Delimited(t, j) && NestedAtMost(v, Room(d))
      ensures r == Some(v) && q == j
    {
      FirstByte(t, f, k, j, v);
      SpaceEnds(t, p, i, k);
    }
  }

  lemma {:induction false} StringFound(t: Text, f: Strtod, p: nat, d: nat, s: Option<Text>, q: nat)
    requires p < |t| && t[p] == QUOTE && (s.Some? <==> StringFrom(t, p + 1).Some?)
    requires s.Some? ==> StringFrom(t, p + 1) == Some(Literal(s.value, q))
    ensures FindsAt(t, f, p, d, if s.None? then None else Some(String(s.value)), q)
  {
    hide StringFrom, NestedAtMost;
    forall j, v | Denotes(t, f, p, j, v) ensures v.String? {
      FirstByte(t, f, p, j, v);
    }
  }

  /** The three words, and nothing else that starts with another byte. */
  lemma {:induction false} WordFound(t: Text, f: Strtod, p: nat, d: nat, r: Option<Json>, q: nat)
    requires p < |t| && t[p] != QUOTE && t[p] != 0x5b && t[p] != 0x7b && !StartsNumber(t[p])
    requires p + 4 <= |t| && t[p..p + 4] == TRUE_TEXT ==> r == Some(Bool(true)) && q == p + 4
    requires p + 5 <= |t| && t[p..p + 5] == FALSE_TEXT ==> r == Some(Bool(false)) && q == p + 5
    requires p + 4 <= |t| && t[p..p + 4] == NULL_TEXT ==> r == Some(Null) && q == p + 4
    ensures FindsAt(t, f, p, d, r, q)
  {
    hide NestedAtMost;
    forall j: nat, v | Denotes(t, f, p, j, v) ensures r == Some(v) && q == j {
      FirstByte(t, f, p, j, v);
      assert |t[p..j]| == j - p;
    }
  }

  // ---------- Numbers ----------

  ghost predicate NoDigitAt(t: Text, j: nat) {
    j < |t| ==> !IsDigit(t[j])
  }

  /** Where the parts of a number end, the next part cannot go on taking bytes. */
  lemma {:induction false} PartsStop(t: Text, i: nat, m: nat, n: nat, p: nat, j: nat)
    requires NumberParts(t, i, m, n, p, j) && Delimited(t, j)
    ensures m < n && (m == i + 1 <==> t[i] == 0x2d)
    ensures NoDigitAt(t, n) && NoDigitAt(t, p) && NoDigitAt(t, j)
    ensures p < |t| ==> t[p] != 0x2e
    ensures j < |t| ==> t[j] != 0x65 && t[j] != 0x45
  {
    assert t[m..n][0] == t[m];
    assert n < p ==> t[n..p][0] == t[n];
    assert p < j ==> t[p..j][0] == t[p];
  }

  /** A run of digits that is followed by no digit ends in one place. */
  lemma {:induction false} RunEnds(t: Text, p: nat, q: nat, j: nat)
    requires p <= q <= |t| && p <= j <= |t| && NoDigitAt(t, q) && NoDigitAt(t, j)
    requires (forall k :: p <= k < q ==> IsDigit(t[k])) && (forall k :: p <= k < j ==> IsDigit(t[k]))
    ensures q == j
  {
  }

  lemma {:induction false} DigitsAre(t: Text, p: nat, j: nat)
    requires p <= j <= |t| && Digits(t[p..j])
    ensures p < j && forall k :: p <= k < j ==> IsDigit(t[k])
  {
    forall k | p <= k < j ensures IsDigit(t[k]) {
      assert t[p..j][k - p] == t[k];
    }
  }

  ghost predicate IntegerTo(t: Text, p: nat, j: nat) {
    p <= j <= |t| && IsInteger(t[p..j]) && NoDigitAt(t, j)
  }

  ghost predicate FractionTo(t: Text, p: nat, j: nat) {
    p <= j <= |t| && IsFraction(t[p..j]) && NoDigitAt(t, j) && (j < |t| ==> t[j] != 0x2e)
  }

  ghost predicate ExponentTo(t: Text, p: nat, j: nat) {
    p <= j <= |t| && IsExponent(t[p..j]) && NoDigitAt(t, j) && (j < |t| ==> t[j] != 0x65 && t[j] != 0x45)
  }

  lemma {:induction false} IntegerEnds(t: Text, p: nat, j: nat)
    requires IntegerTo(t, p, j)
    ensures p < j && (t[p] == 0x30 ==> j == p + 1) && (t[p] != 0x30 ==> 0x31 <= t[p] <= 0x39)
    ensures forall k :: p <= k < j ==> IsDigit(t[k])
  {
    assert |t[p..j]| == j - p;
    if t[p..j] == [0x30] {
      assert t[p..j][0] == t[p];
    } else {
      DigitsAre(t, p, j);
      assert t[p..j][0] == t[p];
    }
  }

  lemma {:induction false} FractionEnds(t: Text, p: nat, j: nat)
    requires FractionTo(t, p, j)
    ensures j == p <==> !(p < |t| && t[p] == 0x2e)
    ensures j != p ==> p + 1 < j && forall k :: p + 1 <= k < j ==> IsDigit(t[k])
  {
    if j != p {
      assert t[p..j][0] == t[p] && t[p..j][1..] == t[p + 1..j];
      DigitsAre(t, p + 1, j);
    }
  }

  /** Where the digits of an exponent start. */
  function ExponentDigits(t: Text, p: nat): nat {
    if p + 1 < |t| && (t[p + 1] == 0x2b || t[p + 1] == 0x2d) then p + 2 else p + 1
  }

  lemma {:induction false} ExponentEnds(t: Text, p: nat, j: nat)
    requires ExponentTo(t, p, j)
    ensures j == p <==> !(p < |t| && (t[p] == 0x65 || t[p] == 0x45))
    ensures j != p ==> ExponentDigits(t, p) < j && forall k :: ExponentDigits(t, p) <= k < j ==> IsDigit(t[k])
  {
    if j != p {
      var s := t[p..j];
      assert s[0] == t[p] && s[1..] == t[p + 1..j];
      if Digits(s[1..]) {
        DigitsAre(t, p + 1, j);
      } else {
        assert s[1] == t[p + 1] && s[2..] == t[p + 2..j];
        DigitsAre(t, p + 2, j);
      }
    }
  }

  /** A delimited number that starts at i is an integer, a fraction and an exponent, each as long as can be. */
  lemma {:induction false} PartsOf(t: Text, i: nat, m: nat)
    requires i < |t| && m == if t[i] == 0x2d then i + 1 else i
    ensures forall j: nat :: IsNumber(t, i, j) && Delimited(t, j) ==> HasParts(t, m, j)
  {
    hide IsInteger, IsFraction, IsExponent, Delimited, NoDigitAt;
    forall j: nat | IsNumber(t, i, j) && Delimited(t, j) ensures HasParts(t, m, j) {
      var m': nat, n: nat, p: nat :| NumberParts(t, i, m', n, p, j);
      PartsStop(t, i, m', n, p, j);
      assert IntegerTo(t, m, n) && FractionTo(t, n, p) && ExponentTo(t, p, j);
    }
  }

  ghost predicate HasParts(t: Text, m: nat, j: nat) {
    exists n, p :: IntegerTo(t, m, n) && FractionTo(t, n, p) && ExponentTo(t, p, j)
  }

  lemma {:induction false} PartsAreNumber(t: Text, i: nat, m: nat, n: nat, p: nat, j: nat)
    requires i <= m <= n <= p <= j <= |t| && (m == i || (m == i + 1 && t[i] == 0x2d))
    requires IsInteger(t[m..n]) && IsFraction(t[n..p]) && IsExponent(t[p..j])
    ensures IsNumber(t, i, j) && i < j
  {
    assert NumberParts(t, i, m, n, p, j);
    assert |t[m..n]| == n - m;
  }

  lemma {:induction false} NumberFound(t: Text, f: Strtod, p: nat, d: nat, r: Option<Json>, q: nat)
    requires p < |t| && StartsNumber(t[p])
    requires forall j: nat :: IsNumber(t, p, j) && Delimited(t, j) ==>
      q == j && r == match f(t[p..j]) { case Some(x) => Some(Number(x)) case None => None }
    ensures FindsAt(t, f, p, d, r, q)
  {
    hide NestedAtMost, IsNumber, Delimited;
    forall j, v | Denotes(t, f, p, j, v) && Delimited(t, j) ensures r == Some(v) && q == j {
      FirstByte(t, f, p, j, v);
    }
  }

  // ---------- Lists ----------

  datatype Outline = Outline(spans: seq<Span>, end: nat)

  /** How the list from i on may be laid out up to behind its closing byte. */
  ghost predicate Outlines(t: Text, i: nat, close: Byte, o: Outline) {
    && (close == 0x5d || close == 0x7d)
    && i < o.end <= |t| && t[o.end - 1] == close && Listed(t, i, o.end - 1, o.spans)
    && forall k :: 0 <= k < |o.spans| ==> StartsItem(t, o.spans[k].start, close)
  }

  ghost predicate StartsItem(t: Text, p: nat, close: Byte) {
    p < |t| && !IsSpace(t[p]) && t[p] != close
  }

  /** Behind p comes item n. */
  ghost predicate Follows(t: Text, o: Outline, n: nat, p: nat) {
    n < |o.spans| && AllSpace(t, p, o.spans[n].start)
  }

  ghost predicate Closes(o: Outline, n: nat, p: nat) {
    n == |o.spans| && p == o.end
  }

  lemma {:induction false} ItemDelimited(t: Text, i: nat, close: Byte, o: Outline, n: nat)
    requires Outlines(t, i, close, o) && n < |o.spans|
    ensures Delimited(t, o.spans[n].end)
  {
    if n + 1 < |o.spans| {
      assert Separated(t, o.spans[n + 1 - 1].end, o.spans[n + 1].start, 0x2c);
    } else {
      assert AllSpace(t, o.spans[n].end, o.end - 1);
    }
  }

  /** The byte found behind the spaces after the opening byte tells an empty list from another. */
  lemma {:induction false} FirstItem(t: Text, i: nat, close: Byte, o: Outline, p: nat)
    requires Outlines(t, i, close, o) && SpaceEndsAt(t, i, p)
    ensures p < |t| && (o.spans == [] <==> t[p] == close)
    ensures o.spans == [] ==> o.end == p + 1
    ensures o.spans != [] ==> Follows(t, o, 0, p)
  {
    if o.spans == [] {
      SpaceEnds(t, i, p, o.end - 1);
    } else {
      assert StartsItem(t, o.spans[0].start, close);
      SpaceEnds(t, i, p, o.spans[0].start);
    }
  }

  ghost predicate Delimits(t: Text, i: nat, close: Byte, p: nat, ok: bool, more: bool, q: nat) {
    forall o, n: nat {:trigger Outlines(t, i, close, o), o.spans[n]} :: Outlines(t, i, close, o) && n < |o.spans| && o.spans[n].end == p ==>
      ok && if more then Follows(t, o, n + 1, q) else Closes(o, n + 1, q)
  }

  /** Here is where the spaces behind the item end, and q where those behind a comma do. */
  lemma {:induction false} DelimiterFound(t: Text, i: nat, close: Byte, p: nat, here: nat, q: nat)
    requires SpaceEndsAt(t, p, here)
    requires here < |t| && t[here] == 0x2c ==> SpaceEndsAt(t, here + 1, q)
    ensures here >= |t| || (t[here] != close && t[here] != 0x2c) ==> Delimits(t, i, close, p, false, false, q)
    ensures here < |t| && t[here] == close ==> Delimits(t, i, close, p, true, false, here + 1)
    ensures here < |t| && t[here] == 0x2c ==> Delimits(t, i, close, p, true, true, q)
  {
    forall o, n: nat | Outlines(t, i, close, o) && n < |o.spans| && o.spans[n].end == p
      ensures here < |t| && t[here] == if n + 1 < |o.spans| then 0x2c else close
      ensures n + 1 < |o.spans| ==> Follows(t, o, n + 1, q)
      ensures n + 1 == |o.spans| ==> Closes(o, n + 1, here + 1)
    {
      DelimiterOf(t, i, close, o, n, here);
      if n + 1 < |o.spans| {
        assert StartsItem(t, o.spans[n + 1].start, close);
        SpaceEnds(t, here + 1, q, o.spans[n + 1].start);
      }
    }
    hide Outlines, Follows, Closes, SpaceEndsAt;
  }

  lemma {:induction false} DelimiterOf(t: Text, i: nat, close: Byte, o: Outline, n: nat, here: nat)
    requires Outlines(t, i, close, o) && n < |o.spans| && SpaceEndsAt(t, o.spans[n].end, here)
    ensures here < |t| && t[here] == if n + 1 < |o.spans| then 0x2c else close
    ensures n + 1 < |o.spans| ==> AllSpace(t, here + 1, o.spans[n + 1].start)
    ensures n + 1 == |o.spans| ==> o.end == here + 1
  {
    if n + 1 < |o.spans| {
      assert Separated(t, o.spans[n + 1 - 1].end, o.spans[n + 1].start, 0x2c);
      SeparatorAt(t, o.spans[n].end, o.spans[n + 1].start, 0x2c, here);
    } else {
      SpaceEnds(t, o.spans[n].end, here, o.end - 1);
    }
  }

  // ---------- Arrays ----------

  /** v may be read from the bracket at begin, its elements at depth d, laid out like o. */
  ghost predicate IsArrayAt(t: Text, f: Strtod, begin: nat, d: nat, v: Json, o: Outline) {
    && v.Array? && Outlines(t, begin + 1, 0x5d, o) && |v.values| == |o.spans|
    && (forall k :: 0 <= k < |o.spans| ==> Denotes(t, f, o.spans[k].start, o.spans[k].end, v.values[k]))
    && (forall k :: 0 <= k < |v.values| ==> NestedAtMost(v.values[k], Room(d)))
  }

  ghost predicate NoArray(t: Text, f: Strtod, begin: nat, d: nat) {
    forall v, o :: !IsArrayAt(t, f, begin, d, v, o)
  }

  /** Any such array starts with the values read so far and goes on behind p. */
  ghost predicate ArrayGoesOn(t: Text, f: Strtod, begin: nat, d: nat, values: seq<Json>, p: nat) {
    forall v, o :: IsArrayAt(t, f, begin, d, v, o) ==> values <= v.values && Follows(t, o, |values|, p)
  }

  /** Any such array starts with the values read so far, the last of which ends at p. */
  ghost predicate ArrayUpTo(t: Text, f: Strtod, begin: nat, d: nat, values: seq<Json>, p: nat) {
    forall v, o :: IsArrayAt(t, f, begin, d, v, o) ==> 0 < |values| && values <= v.values && o.spans[|values| - 1].end == p
  }

  /** Any such array has these values and ends at p. */
  ghost predicate ArrayRead(t: Text, f: Strtod, begin: nat, d: nat, values: seq<Json>, p: nat) {
    forall v, o :: IsArrayAt(t, f, begin, d, v, o) ==> v == Array(values) && o.end == p
  }

  lemma {:induction false} ArrayOutline(t: Text, f: Strtod, begin: nat, j: nat, v: Json, d: nat) returns (o: Outline)
    requires v.Array? && Denotes(t, f, begin, j, v) && NestedAtMost(v, Room(d))
    ensures d < MAX_DEPTH && IsArrayAt(t, f, begin, d + 1, v, o) && o.end == j
  {
    var spans: seq<Span> :| Elements(t, f, begin + 1, j - 1, v, spans);
    o := Outline(spans, j);
    forall k | 0 <= k < |spans| ensures StartsItem(t, spans[k].start, 0x5d) {
      FirstByte(t, f, spans[k].start, spans[k].end, v.values[k]);
    }
    forall k | 0 <= k < |v.values| ensures NestedAtMost(v.values[k], Room(d + 1)) {
      assert v.values[k] in v.values;
    }
  }

  lemma {:induction false} ArrayFound(t: Text, f: Strtod, begin: nat, d: nat, r: Option<Json>, q: nat)
    requires begin < |t| && t[begin] == 0x5b
    requires d < MAX_DEPTH && r.None? ==> NoArray(t, f, begin, d + 1)
    requires d < MAX_DEPTH && r.Some? ==> r.value.Array? && ArrayRead(t, f, begin, d + 1, r.value.values, q)
    ensures FindsAt(t, f, begin, d, r, q)
  {
    hide Denotes, NestedAtMost, Delimited, IsArrayAt;
    forall j, v | Denotes(t, f, begin, j, v) && NestedAtMost(v, Room(d)) ensures r == Some(v) && q == j {
      FirstByte(t, f, begin, j, v);
      var o := ArrayOutline(t, f, begin, j, v, d);
    }
  }

  lemma {:induction false} ArrayOpened(t: Text, f: Strtod, begin: nat, d: nat, p: nat)
    requires SpaceEndsAt(t, begin + 1, p)
    ensures p < |t| && t[p] == 0x5d ==> ArrayRead(t, f, begin, d, [], p + 1)
    ensures !(p < |t| && t[p] == 0x5d) ==> ArrayGoesOn(t, f, begin, d, [], p)
  {
    hide Denotes, NestedAtMost, SpaceEndsAt, Outlines, Follows;
    forall v: Json, o: Outline | IsArrayAt(t, f, begin, d, v, o)
      ensures if p < |t| && t[p] == 0x5d then v == Array([]) && o.end == p + 1 else [] <= v.values && Follows(t, o, 0, p)
    {
      FirstItem(t, begin + 1, 0x5d, o, p);
    }
  }

  lemma {:induction false} ElementRead(t: Text, f: Strtod, begin: nat, d: nat, values: seq<Json>, p: nat, r: Option<Json>, q: nat)
    requires ArrayGoesOn(t, f, begin, d, values, p) && Finds(t, f, p, d, r, q)
    ensures if r.Some? then ArrayUpTo(t, f, begin, d, values + [r.value], q) else NoArray(t, f, begin, d)
  {
    hide Denotes, NestedAtMost, Delimited, Outlines;
    forall v: Json, o: Outline | IsArrayAt(t, f, begin, d, v, o)
      ensures r.Some? && values + [r.value] <= v.values && o.spans[|values|].end == q
    {
      var n := |values|;
      assert Follows(t, o, n, p);
      assert Denotes(t, f, o.spans[n].start, o.spans[n].end, v.values[n]);
      ItemDelimited(t, begin + 1, 0x5d, o, n);
      assert r == Some(v.values[n]);
      assert v.values[..n + 1] == v.values[..n] + [v.values[n]];
    }
  }

  lemma {:induction false} ArrayStep(t: Text, f: Strtod, begin: nat, d: nat, values: seq<Json>, p: nat, ok: bool, more: bool, q: nat)
    requires ArrayUpTo(t, f, begin, d, values, p) && Delimits(t, begin + 1, 0x5d, p, ok, more, q)
    ensures !ok ==> NoArray(t, f, begin, d)
    ensures ok && more ==> ArrayGoesOn(t, f, begin, d, values, q)
    ensures ok && !more ==> ArrayRead(t, f, begin, d, values, q)
  {
    hide Denotes, NestedAtMost, Outlines, Follows;
    forall v: Json, o: Outline | IsArrayAt(t, f, begin, d, v, o)
      ensures ok && values <= v.values
      ensures if more then Follows(t, o, |values|, q) else v == Array(values) && o.end == q
    {
      var n: nat := |values| - 1;
      assert o.spans[n].end == p;
    }
  }

  // ---------- Objects ----------

  /** v may be read from the brace at begin to end, its fields at depth d, as these members. */
  ghost predicate IsObjectAt(t: Text, f: Strtod, begin: nat, d: nat, v: Json, members: seq<Member>, end: nat) {
    && v.Object? && Outlines(t, begin + 1, 0x7d, Outline(MemberSpans(members), end)) && DistinctKeys(members)
    && (forall k :: k in v.fields ==> HasKey(members, |members|, k))
    && forall a :: 0 <= a < |members| ==> IsField(t, f, d, v.fields, members[a])
  }

  ghost predicate HasKey(members: seq<Member>, n: nat, k: Text) {
    exists a :: 0 <= a < n && a < |members| && members[a].key == k
  }

  ghost predicate IsField(t: Text, f: Strtod, d: nat, fields: map<Text, Json>, m: Member) {
    && IsKey(t, m) && m.key in fields
    && Denotes(t, f, m.start, m.end, fields[m.key]) && NestedAtMost(fields[m.key], Room(d))
  }

  /** The fields of the first n members. */
  ghost predicate Taken(values: map<Text, Json>, fields: map<Text, Json>, members: seq<Member>, n: nat) {
    && n <= |members| && (forall k :: k in values <==> HasKey(members, n, k))
    && (forall k :: k in values ==> k in fields && values[k] == fields[k])
  }

  ghost predicate NoObject(t: Text, f: Strtod, begin: nat, d: nat) {
    forall v, ms, end :: !IsObjectAt(t, f, begin, d, v, ms, end)
  }

  ghost predicate ObjectGoesOn(t: Text, f: Strtod, begin: nat, d: nat, values: map<Text, Json>, n: nat, p: nat) {
    forall v, ms, end :: IsObjectAt(t, f, begin, d, v, ms, end) ==>
      Taken(values, v.fields, ms, n) && Follows(t, Outline(MemberSpans(ms), end), n, p)
  }

  ghost predicate ObjectUpTo(t: Text, f: Strtod, begin: nat, d: nat, values: map<Text, Json>, n: nat, p: nat) {
    forall v, ms, end :: IsObjectAt(t, f, begin, d, v, ms, end) ==>
      0 < n && Taken(values, v.fields, ms, n) && MemberSpans(ms)[n - 1].end == p
  }

  ghost predicate ObjectRead(t: Text, f: Strtod, begin: nat, d: nat, values: map<Text, Json>, p: nat) {
    forall v, ms, end :: IsObjectAt(t, f, begin, d, v, ms, end) ==> v == Object(values) && end == p
  }

  /** The key, value and end of any field that starts at p. */
  ghost predicate FindsMember(t: Text, f: Strtod, p: nat, d: nat, key: Text, r: Option<Json>, q: nat) {
    forall m, v :: IsKey(t, m) && m.keyStart == p && Denotes(t, f, m.start, m.end, v) && Delimited(t, m.end) && NestedAtMost(v, Room(d)) ==>
      r == Some(v) && key == m.key && q == m.end
  }

  lemma {:induction false} ObjectMembers(t: Text, f: Strtod, begin: nat, j: nat, v: Json, d: nat) returns (members: seq<Member>)
    requires v.Object? && Denotes(t, f, begin, j, v) && NestedAtMost(v, Room(d))
    ensures d < MAX_DEPTH && IsObjectAt(t, f, begin, d + 1, v, members, j)
  {
    hide IsObjectAt;
    var ms: seq<Member> :| Members(t, f, begin + 1, j - 1, v, ms);
    members := ms;
    hide Members, HasMembers;
    MembersAreObject(t, f, begin, j, v, d, members);
  }

  lemma {:induction false} MembersAreObject(t: Text, f: Strtod, begin: nat, j: nat, v: Json, d: nat, members: seq<Member>)
    requires v.Object? && begin + 1 < j <= |t| && t[j - 1] == 0x7d && NestedAtMost(v, Room(d))
    requires Members(t, f, begin + 1, j - 1, v, members)
    ensures d < MAX_DEPTH && IsObjectAt(t, f, begin, d + 1, v, members, j)
  {
    hide IsKey, Denotes, Listed, DistinctKeys;
    forall a | 0 <= a < |members|
      ensures StartsItem(t, members[a].keyStart, 0x7d) && IsField(t, f, d + 1, v.fields, members[a])
    {
      KeyStarts(t, members[a]);
    }
    forall k | k in v.fields ensures HasKey(members, |members|, k) {
      var a :| 0 <= a < |members| && members[a].key == k;
    }
  }

  lemma {:induction false} KeyStarts(t: Text, m: Member)
    requires IsKey(t, m)
    ensures StartsItem(t, m.keyStart, 0x7d)
  {
  }

  lemma {:induction false} ObjectFound(t: Text, f: Strtod, begin: nat, d: nat, r: Option<Json>, q: nat)
    requires begin < |t| && t[begin] == 0x7b
    requires d < MAX_DEPTH && r.None? ==> NoObject(t, f, begin, d + 1)
    requires d < MAX_DEPTH && r.Some? ==> r.value.Object? && ObjectRead(t, f, begin, d + 1, r.value.fields, q)
    ensures FindsAt(t, f, begin, d, r, q)
  {
    hide Denotes, NestedAtMost, Delimited, IsObjectAt;
    forall j, v | Denotes(t, f, begin, j, v) && NestedAtMost(v, Room(d)) ensures r == Some(v) && q == j {
      FirstByte(t, f, begin, j, v);
      var members := ObjectMembers(t, f, begin, j, v, d);
    }
  }

  lemma {:induction false} ObjectOpened(t: Text, f: Strtod, begin: nat, d: nat, p: nat)
    requires SpaceEndsAt(t, begin + 1, p)
    ensures p < |t| && t[p] == 0x7d ==> ObjectRead(t, f, begin, d, map[], p + 1)
    ensures !(p < |t| && t[p] == 0x7d) ==> ObjectGoesOn(t, f, begin, d, map[], 0, p)
  {
    hide IsField, SpaceEndsAt, Outlines, Follows;
    forall v: Json, ms: seq<Member>, end: nat | IsObjectAt(t, f, begin, d, v, ms, end)
      ensures if p < |t| && t[p] == 0x7d then v == Object(map[]) && end == p + 1
              else Taken(map[], v.fields, ms, 0) && Follows(t, Outline(MemberSpans(ms), end), 0, p)
    {
      FirstItem(t, begin + 1, 0x7d, Outline(MemberSpans(ms), end), p);
      if ms == [] {
        assert forall k :: !HasKey(ms, |ms|, k);
        assert v.fields == map[];
      }
    }
  }

  /** Behind the spaces before it, the next field is found and has a new key. */
  lemma {:induction false} FieldRead(t: Text, f: Strtod, begin: nat, d: nat, values: map<Text, Json>, n: nat, p: nat, start: nat,
                                     key: Text, r: Option<Json>, q: nat)
    requires ObjectGoesOn(t, f, begin, d, values, n, p) && SpaceEndsAt(t, p, start) && FindsMember(t, f, start, d, key, r, q)
    ensures if r.Some? && key !in values then ObjectUpTo(t, f, begin, d, values[key := r.value], n + 1, q) else NoObject(t, f, begin, d)
  {
    hide Denotes, NestedAtMost, Delimited, Outlines, IsKey, SpaceEndsAt;
    forall v: Json, ms: seq<Member>, end: nat | IsObjectAt(t, f, begin, d, v, ms, end)
      ensures r.Some? && key !in values && Taken(values[key := r.value], v.fields, ms, n + 1) && MemberSpans(ms)[n].end == q
    {
      var o := Outline(MemberSpans(ms), end);
      assert Follows(t, o, n, p);
      var m := ms[n];
      assert IsField(t, f, d, v.fields, m);
      KeyStarts(t, m);
      SpaceEnds(t, p, start, m.keyStart);
      ItemDelimited(t, begin + 1, 0x7d, o, n);
      assert r == Some(v.fields[m.key]) && key == m.key;
      TakeOneMore(values, v.fields, ms, n);
    }
  }

  lemma {:induction false} TakeOneMore(values: map<Text, Json>, fields: map<Text, Json>, members: seq<Member>, n: nat)
    requires Taken(values, fields, members, n) && n < |members| && DistinctKeys(members) && members[n].key in fields
    ensures members[n].key !in values
    ensures Taken(values[members[n].key := fields[members[n].key]], fields, members, n + 1)
  {
    var key := members[n].key;
    forall k ensures HasKey(members, n + 1, k) <==> HasKey(members, n, k) || k == key {
      if k == key {
        assert members[n].key == k;
      } else if HasKey(members, n, k) {
        var a :| 0 <= a < n && members[a].key == k;
        assert 0 <= a < n + 1;
      }
    }
  }

  lemma {:induction false} ObjectStep(t: Text, f: Strtod, begin: nat, d: nat, values: map<Text, Json>, n: nat, p: nat,
                                      ok: bool, more: bool, q: nat)
    requires ObjectUpTo(t, f, begin, d, values, n, p) && Delimits(t, begin + 1, 0x7d, p, ok, more, q)
    ensures !ok ==> NoObject(t, f, begin, d)
    ensures ok && more ==> ObjectGoesOn(t, f, begin, d, values, n, q)
    ensures ok && !more ==> ObjectRead(t, f, begin, d, values, q)
  {
    hide IsField, Outlines, Follows, HasKey;
    forall v: Json, ms: seq<Member>, end: nat | IsObjectAt(t, f, begin, d, v, ms, end)
      ensures ok && Taken(values, v.fields, ms, n)
      ensures if more then Follows(t, Outline(MemberSpans(ms), end), n, q) else v == Object(values) && end == q
    {
      var o := Outline(MemberSpans(ms), end);
      assert o.spans[n - 1].end == p;
      if !more {
        assert forall k :: k in v.fields <==> k in values;
        assert v.fields == values;
      }
    }
  }

  lemma {:induction false} MemberFound(t: Text, f: Strtod, p: nat, keyEnd: nat, key: Text, colon: nat, behind: nat, d: nat,
                                       r: Option<Json>, q: nat)
    requires p < |t| && StringFrom(t, p + 1) == Some(Literal(key, keyEnd)) && SpaceEndsAt(t, keyEnd, colon)
    requires colon < |t| && t[colon] == 0x3a ==> SpaceEndsAt(t, colon + 1, behind) && Finds(t, f, behind, d, r, q)
    requires !(colon < |t| && t[colon] == 0x3a) ==> r.None?
    ensures FindsMember(t, f, p, d, key, r, q)
  {
    hide StringFrom, Denotes, NestedAtMost, Delimited, SpaceEndsAt;
    forall m, v | IsKey(t, m) && m.keyStart == p && Denotes(t, f, m.start, m.end, v) && Delimited(t, m.end) && NestedAtMost(v, Room(d))
      ensures r == Some(v) && key == m.key && q == m.end
    {
      assert m.key == key && m.keyEnd == keyEnd;
      SeparatorAt(t, keyEnd, m.start, 0x3a, colon);
      FirstByte(t, f, m.start, m.end, v);
      SpaceEnds(t, colon + 1, behind, m.start);
      assert AllSpace(t, behind, m.start);
    }
  }

  lemma {:induction false} NoKey(t: Text, f: Strtod, p: nat, d: nat, key: Text, q: nat)
    requires !(p < |t| && t[p] == QUOTE && StringFrom(t, p + 1).Some?)
    ensures FindsMember(t, f, p, d, key, None, q)
  {
    hide StringFrom, Denotes, NestedAtMost, Delimited;
  }

  // ---------- A whole text ----------

  /** The text is a JSON text for v, with spaces around it, that nests at most 64 deep. */
  ghost predicate IsDocument(t: Text, f: Strtod, v: Json) {
    NestedAtMost(v, 64) && exists i, j :: IsDocumentAt(t, f, v, i, j)
  }

  ghost predicate IsDocumentAt(t: Text, f: Strtod, v: Json, i: nat, j: nat) {
    AllSpace(t, 0, i) && Denotes(t, f, i, j, v) && AllSpace(t, j, |t|)
  }

  /** So parsing a printed string gives the original bytes. */
  lemma {:induction false} PrintedStringIsDocument(s: Text, f: Strtod)
    ensures IsDocument(Quoted(s), f, String(s))
  {
    hide EscapeAll, EscapeByte, StringFrom;
    var t := Quoted(s);
    assert t == [QUOTE] + EscapeAll(s) + [QUOTE] + [];
    StringRoundTrip([QUOTE], s, [], t);
    assert IsDocumentAt(t, f, String(s), 0, |t|);
  }

  /** The strings and keys of the grammar are those of section 7 of RFC 8259. */
  lemma {:induction false} StringsAreQuoted(t: Text, f: Strtod, i: nat, j: nat, s: Text, m: Member)
    ensures Denotes(t, f, i, j, String(s)) <==> i < j <= |t| && IsQuoted(t, i, s, j)
    ensures IsKey(t, m) <==> IsQuoted(t, m.keyStart, m.key, m.keyEnd) && Separated(t, m.keyEnd, m.start, 0x3a)
  {
    StringsThatStart(t, i);
    StringsThatStart(t, m.keyStart);
    hide IsQuoted;
    if IsQuoted(t, i, s, j) {
      assert i < j <= |t|;
    }
  }

  /** A quoted escape is a JSON text for the character it spells, whatever the case of its digits. */
  lemma {:induction false} EscapeIsDocument(t: Text, f: Strtod, unit: bv32)
    requires |t| == 8 && IsChar(t[0], '\"') && EscapeAt(t, 1, unit) && IsChar(t[7], '\"') && IsScalar(unit)
    ensures IsDocument(t, f, String(Utf8(unit)))
  {
    EscapeBelow(t, 1, unit);
    Utf8RoundTrip(unit);
    var b := Utf8(unit);
    assert b[..|b|] == b && b[|b|..] == [];
    assert IsUnitEscape(t, 1, b, 7);
    NotQuote(t, 1, unit);
    assert IsStringAt(t, 7, [], 8);
    assert IsCharacter(t, 1, b[..|b|], 7) && IsStringAt(t, 7, b[|b|..], 8);
    assert IsStringAt(t, 1, b, 8);
    StringsAreQuoted(t, f, 0, 8, b, Member(0, 0, [], 0, 0));
    assert IsDocumentAt(t, f, String(b), 0, 8);
  }

  lemma {:induction false} NotQuote(t: Text, p: nat, unit: bv32)
    requires EscapeAt(t, p, unit)
    ensures p < |t| && !IsChar(t[p], '\"')
  {
  }

  /** The bytes that the grammar names are these characters. */
  lemma {:induction false} NamedBytes(ch: Byte)
    ensures IsSpace(ch) <==> IsChar(ch, ' ') || IsChar(ch, '\t') || IsChar(ch, '\n') || IsChar(ch, '\r')
    ensures IsDigit(ch) <==> '0' as int <= ch as int <= '9' as int
    ensures IsSpelled(TRUE_TEXT, "true") && IsSpelled(FALSE_TEXT, "false") && IsSpelled(NULL_TEXT, "null")
  {
  }

  lemma {:induction false} DocumentFound(t: Text, f: Strtod, r: Option<Json>, q: nat, behind: nat, v: Json)
    requires Finds(t, f, 0, 0, r, q) && (r.Some? ==> SpaceEndsAt(t, q, behind)) && IsDocument(t, f, v)
    ensures r == Some(v) && behind == |t|
  {
    hide Denotes, NestedAtMost;
    var i, j :| IsDocumentAt(t, f, v, i, j);
    assert Delimited(t, j);
    assert r == Some(v) && q == j;
  }

  lemma {:induction false} SeparatorFollows(t: Text, i: nat, spans: seq<Span>, q: nat)
    requires spans != [] && Listed(t, i, spans[|spans| - 1].end, spans) && Separated(t, spans[|spans| - 1].end, q, 0x2c)
    ensures ListOpen(t, i, spans, q)
  {
  }

  lemma {:induction false} MemberIsKey(t: Text, m: Member)
    requires m.keyStart < |t| && t[m.keyStart] == QUOTE && StringFrom(t, m.keyStart + 1) == Some(Literal(m.key, m.keyEnd))
    requires Separated(t, m.keyEnd, m.start, 0x3a)
    ensures IsKey(t, m)
  {
  }

  class JsonParser {
    const text: Text
    const strtod: Strtod
    var position: nat
    var depth: nat

    constructor (text: Text, strtod: Strtod)
      ensures position <= |text| && position == 0 && depth == 0 && this.text == text && this.strtod == strtod
    {
      this.text, this.strtod, position, depth := text, strtod, 0, 0;
    }

    method SkipWhitespace()
      requires position <= |text|
      modifies this`position
      ensures position <= |text| && AllSpace(text, old(position), position) && SpaceEndsAt(text, old(position), position)
    {
      while position < |text| && IsSpace(text[position])
        invariant AllSpace(text, old(position), position)
        decreases |text| - position
      {
        position := position + 1;
      }
    }

    method ParseHexQuad() returns (r: Option<bv32>)
      requires position <= |text|
      modifies this`position
      ensures position <= |text| && position >= old(position)
      ensures r == HexQuad(text, old(position)) && (r.Some? ==> position == old(position) + 4)
      ensures forall unit :: r == Some(unit) <==> SpelledAt(text, old(position), unit)
    {
      forall unit ensures HexQuad(text, position) == Some(unit) <==> SpelledAt(text, position, unit) {
        QuadIsSpelled(text, position, unit);
      }
      hide SpelledAt;
      if position + 4 > |text| {
        return None;
      }
      var value: bv32 := 0;
      for index := 0 to 4
        invariant position == old(position) + index && HexDigits(text, old(position), index) == Some(value)
      {
        var digit := HexValue(text[position]);
        position := position + 1;
        if digit.None? {
          MissingDigit(text, old(position), index);
          return None;
        }
        value := AddDigit(value, digit.value);
      }
      r := Some(value);
    }

    /** Reads a string with its quotes; what it returns is what the grammar says it holds. */
    method ParseString() returns (r: Option<Text>)
      requires position <= |text|
      modifies this`position
      ensures position <= |text| && position >= old(position)
      ensures r.Some? <==> old(position) < |text| && text[old(position)] == QUOTE && StringFrom(text, old(position) + 1).Some?
      ensures r.Some? ==> StringFrom(text, old(position) + 1) == Some(Literal(r.value, position))
      ensures forall s, next :: IsQuoted(text, old(position), s, next) <==> r == Some(s) && next == position
    {
      StringsThatStart(text, position);
      hide IsQuoted;
      if position >= |text| || text[position] != QUOTE {
        return None;
      }
      position := position + 1;
      ghost var start := position;
      var output: Text := [];
      NothingPrepended(StringFrom(text, start));
      hide StringFrom, HexQuad, UnicodeItem, Utf8, Prepend;
      AtTheEnd(text);
      while position < |text|
        invariant position <= |text| && start <= position
        invariant StringFrom(text, start) == Prepend(output, StringFrom(text, position))
        decreases |text| - position
      {
        ghost var p := position;
        var ch := text[position];
        position := position + 1;
        StringAt(text, p);
        if ch == QUOTE {
          AllOfIt(output, p + 1);
          return Some(output);
        }
        if ch < 0x20 {
          return None;
        }
        if ch != BACKSLASH {
          StringStep(text, p, [ch], position);
          PrependTwice(output, [ch], StringFrom(text, position));
          output := output + [ch];
          continue;
        }
        if position >= |text| {
          return None;
        }
        var escape := text[position];
        position := position + 1;
        var bytes: Text;
        if escape == 0x75 {
          var u := ParseUnicode();
          if u.None? {
            return None;
          }
          bytes := u.value;
        } else {
          var simple := SimpleEscape(escape);
          if simple.None? {
            return None;
          }
          bytes := [simple.value];
        }
        StringStep(text, p, bytes, position);
        PrependTwice(output, bytes, StringFrom(text, position));
        output := output + bytes;
      }
      return None;
    }

    /** Reads the digits of an escape, and the second escape of a surrogate pair. */
    method ParseUnicode() returns (r: Option<Text>)
      requires position <= |text|
      modifies this`position
      ensures position <= |text| && position >= old(position)
      ensures r.Some? <==> UnicodeItem(text, old(position)).Bytes?
      ensures r.Some? ==> UnicodeItem(text, old(position)) == Bytes(r.value, position)
    {
      var codepoint := ParseHexQuad();
      if codepoint.None? {
        return None;
      }
      if IsHigh(codepoint.value) {
        if position + 2 > |text| || text[position] != BACKSLASH || text[position + 1] != 0x75 {
          return None;
        }
        position := position + 2;
        var low := ParseHexQuad();
        if low.None? || !IsLow(low.value) {
          return None;
        }
        r := Some(Utf8(PairValue(codepoint.value, low.value)));
      } else if IsLow(codepoint.value) {
        return None;
      } else {
        r := Some(Utf8(codepoint.value));
      }
    }

    /** Skips a run of digits. */
    method SkipDigits()
      requires position <= |text|
      modifies this`position
      ensures position <= |text| && position >= old(position)
      ensures forall k :: old(position) <= k < position ==> IsDigit(text[k])
      ensures NoDigitAt(text, position)
    {
      while position < |text| && IsDigit(text[position])
        invariant old(position) <= position <= |text| && forall k :: old(position) <= k < position ==> IsDigit(text[k])
        decreases |text| - position
      {
        position := position + 1;
      }
    }

    method ParseInteger() returns (ok: bool)
      requires position <= |text|
      modifies this`position
      ensures position <= |text| && position >= old(position) && (ok ==> IsInteger(text[old(position)..position]))
      ensures forall j :: IntegerTo(text, old(position), j) ==> ok && position == j
    {
      ghost var start: nat := position;
      forall j: nat | IntegerTo(text, start, j)
        ensures start < j <= |text| && NoDigitAt(text, j) && (text[start] == 0x30 ==> j == start + 1)
        ensures (text[start] != 0x30 ==> 0x31 <= text[start] <= 0x39) && forall k :: start <= k < j ==> IsDigit(text[k])
      {
        IntegerEnds(text, start, j);
      }
      if position >= |text| {
        return false;
      }
      if text[position] == 0x30 {
        position := position + 1;
        if position < |text| && IsDigit(text[position]) {
          return false;
        }
        assert text[old(position)..position] == [0x30];
      } else {
        if !(0x31 <= text[position] <= 0x39) {
          return false;
        }
        SkipDigits();
        assert Digits(text[old(position)..position]);
        forall j: nat | IntegerTo(text, start, j) ensures position == j {
          RunEnds(text, start, position, j);
        }
      }
      return true;
    }

    method ParseFraction() returns (ok: bool)
      requires position <= |text|
      modifies this`position
      ensures position <= |text| && position >= old(position) && (ok ==> IsFraction(text[old(position)..position]))
      ensures forall j :: FractionTo(text, old(position), j) ==> ok && position == j
    {
      ghost var start: nat := position;
      forall j: nat | FractionTo(text, start, j)
        ensures start <= j <= |text| && NoDigitAt(text, j) && (j == start <==> !(start < |text| && text[start] == 0x2e))
        ensures j != start ==> start + 1 < j && forall k :: start + 1 <= k < j ==> IsDigit(text[k])
      {
        FractionEnds(text, start, j);
      }
      if position < |text| && text[position] == 0x2e {
        position := position + 1;
        if position >= |text| || !IsDigit(text[position]) {
          return false;
        }
        SkipDigits();
        assert text[old(position)..position][1..] == text[old(position) + 1..position];
        forall j: nat | FractionTo(text, start, j) ensures position == j {
          RunEnds(text, start + 1, position, j);
        }
      }
      return true;
    }

    method ParseExponent() returns (ok: bool)
      requires position <= |text|
      modifies this`position
      ensures position <= |text| && position >= old(position) && (ok ==> IsExponent(text[old(position)..position]))
      ensures forall j :: ExponentTo(text, old(position), j) ==> ok && position == j
    {
      ghost var start: nat := position;
      forall j: nat | ExponentTo(text, start, j)
        ensures start <= j <= |text| && NoDigitAt(text, j)
        ensures j == start <==> !(start < |text| && (text[start] == 0x65 || text[start] == 0x45))
        ensures j != start ==> ExponentDigits(text, start) < j && forall k :: ExponentDigits(text, start) <= k < j ==> IsDigit(text[k])
      {
        ExponentEnds(text, start, j);
      }
      if position < |text| && (text[position] == 0x65 || text[position] == 0x45) {
        position := position + 1;
        if position < |text| && (text[position] == 0x2b || text[position] == 0x2d) {
          position := position + 1;
        }
        if position >= |text| || !IsDigit(text[position]) {
          return false;
        }
        ghost var first := position;
        SkipDigits();
        ghost var s := text[old(position)..position];
        assert Digits(text[first..position]);
        assert s[1..] == text[old(position) + 1..position];
        assert |s| > 1 ==> s[2..] == text[old(position) + 2..position];
        forall j: nat | ExponentTo(text, start, j) ensures position == j {
          RunEnds(text, first, position, j);
        }
      }
      return true;
    }

    method ParseNumber() returns (r: Option<Json>)
      requires position <= |text| && position < |text| && StartsNumber(text[position])
      modifies this`position
      ensures position <= |text| && position >= old(position) && (r.Some? ==> position > old(position))
      ensures r.Some? ==> r.value.Number? && Denotes(text, strtod, old(position), position, r.value)
      ensures FindsAt(text, strtod, old(position), depth, r, position)
    {
      ghost var begin: nat := position;
      var start := position;
      var ok := ParseToken();
      if !ok {
        NumberFound(text, strtod, begin, depth, None, position);
        return None;
      }
      var value := strtod(text[start..position]);
      r := if value.None? then None else Some(Number(value.value));
      NumberFound(text, strtod, begin, depth, r, position);
    }

    /** Passes over the longest number that starts here. */
    method ParseToken() returns (ok: bool)
      requires position < |text| && StartsNumber(text[position])
      modifies this`position
      ensures position <= |text| && position >= old(position)
      ensures ok ==> position > old(position) && IsNumber(text, old(position), position)
      ensures forall j: nat :: IsNumber(text, old(position), j) && Delimited(text, j) ==> ok && position == j
    {
      hide IsInteger, IsFraction, IsExponent, NoDigitAt;
      ghost var begin: nat := position;
      if text[position] == 0x2d {
        position := position + 1;
      }
      ghost var m: nat := position;
      PartsOf(text, begin, m);
      hide IsNumber, Delimited, NumberParts;
      ok := ParseInteger();
      if !ok {
        return;
      }
      ghost var n: nat := position;
      ok := ParseFraction();
      if !ok {
        return;
      }
      ghost var p: nat := position;
      ok := ParseExponent();
      if !ok {
        return;
      }
      PartsAreNumber(text, begin, m, n, p, position);
    }

    method ParseArray() returns (r: Option<Json>)
      requires position <= |text| && position < |text| && text[position] == 0x5b
      modifies this
      ensures position <= |text| && position >= old(position)
      ensures r.Some? ==> position > old(position) && depth == old(depth) && NestedAtMost(r.value, Room(depth))
      ensures r.Some? ==> r.value.Array? && Denotes(text, strtod, old(position), position, r.value)
      ensures FindsAt(text, strtod, old(position), old(depth), r, position)
      decreases |text| - position, 0
    {
      hide *;
      ghost var begin: nat := position;
      position := position + 1;
      depth := depth + 1;
      if depth > MAX_DEPTH {
        ArrayFound(text, strtod, begin, old(depth), None, position);
        return None;
      }
      var values: seq<Json> := [];
      ghost var spans: seq<Span> := [];
      SkipWhitespace();
      NoValues(text, strtod, Room(depth));
      ArrayOpened(text, strtod, begin, depth, position);
      if position < |text| && text[position] == 0x5d {
        EmptyList(text, begin + 1, position);
        position := position + 1;
        depth := depth - 1;
        r := Some(Array(values));
        ArrayDone(text, strtod, begin, position, values, spans, depth);
        ArrayFound(text, strtod, begin, depth, r, position);
        return;
      }
      OpenList(text, begin + 1, position);
      var ok;
      ok, values, spans := ParseElements(begin);
      if !ok {
        ArrayFound(text, strtod, begin, old(depth), None, position);
        return None;
      }
      depth := depth - 1;
      r := Some(Array(values));
      ArrayDone(text, strtod, begin, position, values, spans, depth);
      ArrayFound(text, strtod, begin, depth, r, position);
    }

    method ParseElements(ghost begin: nat) returns (ok: bool, values: seq<Json>, ghost spans: seq<Span>)
      requires begin < position <= |text| && ListOpen(text, begin + 1, [], position)
      requires ArrayGoesOn(text, strtod, begin, depth, [], position)
      modifies this
      ensures old(position) <= position <= |text|
      ensures if ok then ArrayRead(text, strtod, begin, old(depth), values, position) else NoArray(text, strtod, begin, old(depth))
      ensures ok ==> position > begin + 1 && depth == old(depth) && Values(text, strtod, values, spans, Room(depth))
      ensures ok ==> text[position - 1] == 0x5d && ListClosed(text, begin + 1, position - 1, spans)
      decreases |text| - position, 4
    {
      hide *;
      values, spans := [], [];
      NoValues(text, strtod, Room(depth));
      var more := true;
      while more
        invariant old(position) <= position <= |text| && depth == old(depth) && Values(text, strtod, values, spans, Room(depth))
        invariant more ==> ListOpen(text, begin + 1, spans, position) && ArrayGoesOn(text, strtod, begin, depth, values, position)
        invariant !more ==> ArrayRead(text, strtod, begin, depth, values, position)
        invariant !more ==> position > begin + 1 && text[position - 1] == 0x5d && ListClosed(text, begin + 1, position - 1, spans)
        decreases more, |text| - position
      {
        more, ok, values, spans := NextElement(begin, values, spans);
        if !ok {
          return;
        }
      }
      ok := true;
    }

    method NextElement(ghost begin: nat, values: seq<Json>, ghost spans: seq<Span>)
      returns (more: bool, ok: bool, values': seq<Json>, ghost spans': seq<Span>)
      requires position <= |text| && begin < position && Values(text, strtod, values, spans, Room(depth))
      requires ListOpen(text, begin + 1, spans, position) && ArrayGoesOn(text, strtod, begin, depth, values, position)
      modifies this
      ensures position <= |text| && position >= old(position)
      ensures ok ==> position > old(position) && depth == old(depth) && Values(text, strtod, values', spans', Room(depth))
      ensures ok && more ==> ListOpen(text, begin + 1, spans', position) && ArrayGoesOn(text, strtod, begin, depth, values', position)
      ensures ok && !more ==> ArrayRead(text, strtod, begin, depth, values', position)
      ensures !ok ==> NoArray(text, strtod, begin, old(depth))
      ensures ok && !more ==> position > begin + 1 && text[position - 1] == 0x5d && ListClosed(text, begin + 1, position - 1, spans')
      decreases |text| - position, 3
    {
      hide *;
      ghost var before: nat := position;
      values', spans' := values, spans;
      var value, at := ParseValue();
      ElementRead(text, strtod, begin, old(depth), values, before, value, position);
      if value.None? {
        return false, false, values', spans';
      }
      OneMoreValue(text, strtod, values, spans, value.value, Span(at, position), Room(depth));
      ListTakes(text, begin + 1, spans, before, at, position);
      spans' := spans + [Span(at, position)];
      values' := values + [value.value];
      ghost var end: nat := position;
      more, ok := NextDelimiter(0x5d, begin + 1, spans');
      ArrayStep(text, strtod, begin, depth, values', end, ok, more, position);
    }

    /** Behind an item: a closing character ends the list, a comma goes on. */
    method NextDelimiter(close: Byte, ghost i: nat, ghost spans: seq<Span>) returns (more: bool, ok: bool)
      requires position <= |text| && close != 0x2c && spans != [] && position == spans[|spans| - 1].end && Listed(text, i, position, spans)
      modifies this`position
      ensures position <= |text| && position >= old(position)
      ensures ok ==> position > old(position)
      ensures ok && more ==> ListOpen(text, i, spans, position)
      ensures ok && !more ==> text[position - 1] == close && i <= position - 1 && ListClosed(text, i, position - 1, spans)
      ensures Delimits(text, i, close, old(position), ok, more, position)
    {
      hide *;
      ghost var end: nat := position;
      SkipWhitespace();
      ghost var here: nat := position;
      if position >= |text| {
        DelimiterFound(text, i, close, end, here, position);
        return false, false;
      }
      var delimiter := text[position];
      position := position + 1;
      if delimiter == close {
        ListToEnd(text, i, spans, here);
        DelimiterFound(text, i, close, end, here, position);
        return false, true;
      }
      if delimiter != 0x2c {
        DelimiterFound(text, i, close, end, here, position);
        return false, false;
      }
      SkipWhitespace();
      SpaceThen(text, end, here, position, 0x2c);
      SeparatorFollows(text, i, spans, position);
      DelimiterFound(text, i, close, end, here, position);
      return true, true;
    }

    method ParseObject() returns (r: Option<Json>)
      requires position <= |text| && position < |text| && text[position] == 0x7b
      modifies this
      ensures position <= |text| && position >= old(position)
      ensures r.Some? ==> position > old(position) && depth == old(depth) && NestedAtMost(r.value, Room(depth))
      ensures r.Some? ==> r.value.Object? && Denotes(text, strtod, old(position), position, r.value)
      ensures FindsAt(text, strtod, old(position), old(depth), r, position)
      decreases |text| - position, 0
    {
      hide *;
      ghost var begin: nat := position;
      position := position + 1;
      depth := depth + 1;
      if depth > MAX_DEPTH {
        ObjectFound(text, strtod, begin, old(depth), None, position);
        return None;
      }
      var values: map<Text, Json> := map[];
      ghost var members: seq<Member> := [];
      SkipWhitespace();
      NoFields(text, strtod, Room(depth));
      ObjectOpened(text, strtod, begin, depth, position);
      if position < |text| && text[position] == 0x7d {
        EmptyList(text, begin + 1, position);
        position := position + 1;
        depth := depth - 1;
        r := Some(Object(values));
        ObjectDone(text, strtod, begin, position, values, members, depth);
        ObjectFound(text, strtod, begin, depth, r, position);
        return;
      }
      OpenList(text, begin + 1, position);
      var ok;
      ok, values, members := ParseFields(begin);
      if !ok {
        ObjectFound(text, strtod, begin, old(depth), None, position);
        return None;
      }
      depth := depth - 1;
      r := Some(Object(values));
      ObjectDone(text, strtod, begin, position, values, members, depth);
      ObjectFound(text, strtod, begin, depth, r, position);
    }

    method ParseFields(ghost begin: nat) returns (ok: bool, values: map<Text, Json>, ghost members: seq<Member>)
      requires begin < position <= |text| && ListOpen(text, begin + 1, [], position)
      requires ObjectGoesOn(text, strtod, begin, depth, map[], 0, position)
      modifies this
      ensures old(position) <= position <= |text|
      ensures if ok then ObjectRead(text, strtod, begin, old(depth), values, position) else NoObject(text, strtod, begin, old(depth))
      ensures ok ==> position > begin + 1 && depth == old(depth) && Fields(text, strtod, values, members, Room(depth))
      ensures ok ==> text[position - 1] == 0x7d && ListClosed(text, begin + 1, position - 1, MemberSpans(members))
      decreases |text| - position, 4
    {
      hide *;
      values, members := map[], [];
      NoFields(text, strtod, Room(depth));
      var more := true;
      while more
        invariant old(position) <= position <= |text| && depth == old(depth) && Fields(text, strtod, values, members, Room(depth))
        invariant more ==>
          ListOpen(text, begin + 1, MemberSpans(members), position)
          && ObjectGoesOn(text, strtod, begin, depth, values, |members|, position)
        invariant !more ==> ObjectRead(text, strtod, begin, depth, values, position)
        invariant !more ==>
          position > begin + 1 && text[position - 1] == 0x7d && ListClosed(text, begin + 1, position - 1, MemberSpans(members))
        decreases more, |text| - position
      {
        more, ok, values, members := NextField(begin, values, members);
        if !ok {
          return;
        }
      }
      ok := true;
    }

    method NextField(ghost begin: nat, values: map<Text, Json>, ghost members: seq<Member>)
      returns (more: bool, ok: bool, values': map<Text, Json>, ghost members': seq<Member>)
      requires position <= |text| && begin < position && Fields(text, strtod, values, members, Room(depth))
      requires ListOpen(text, begin + 1, MemberSpans(members), position)
      requires ObjectGoesOn(text, strtod, begin, depth, values, |members|, position)
      modifies this
      ensures position <= |text| && position >= old(position)
      ensures ok ==> position > old(position) && depth == old(depth) && Fields(text, strtod, values', members', Room(depth))
      ensures ok && more ==> ListOpen(text, begin + 1, MemberSpans(members'), position)
      ensures ok && more ==> ObjectGoesOn(text, strtod, begin, depth, values', |members'|, position)
      ensures ok && !more ==> ObjectRead(text, strtod, begin, depth, values', position)
      ensures !ok ==> NoObject(text, strtod, begin, old(depth))
      ensures ok && !more ==>
        position > begin + 1 && text[position - 1] == 0x7d && ListClosed(text, begin + 1, position - 1, MemberSpans(members'))
      decreases |text| - position, 3
    {
      hide *;
      ghost var before: nat := position;
      values', members' := values, members;
      SkipWhitespace();
      ghost var keyStart: nat := position;
      var key, value, member := ParseMember();
      FieldRead(text, strtod, begin, old(depth), values, |members|, before, keyStart, key, value, position);
      if value.None? || key in values {
        return false, false, values', members';
      }
      OneMoreField(text, strtod, values, members, key, value.value, member, Room(depth));
      ListTakes(text, begin + 1, MemberSpans(members), before, keyStart, position);
      OneMoreSpan(members, member);
      values' := values[key := value.value];
      members' := members + [member];
      ghost var end: nat := position;
      more, ok := NextDelimiter(0x7d, begin + 1, MemberSpans(members'));
      ObjectStep(text, strtod, begin, depth, values', |members'|, end, ok, more, position);
    }

    /** Reads a key, a colon and a value. */
    method ParseMember() returns (key: Text, r: Option<Json>, ghost member: Member)
      requires position <= |text|
      modifies this
      ensures position <= |text| && position >= old(position)
      ensures r.Some? ==> position > old(position) && depth == old(depth) && NestedAtMost(r.value, Room(depth))
      ensures r.Some? ==> IsKey(text, member) && member.key == key && member.keyStart == old(position) && member.end == position
      ensures r.Some? ==> Denotes(text, strtod, member.start, member.end, r.value)
      ensures FindsMember(text, strtod, old(position), old(depth), key, r, position)
      decreases |text| - position, 0
    {
      hide *;
      key, member := [], Member(0, 0, [], 0, 0);
      ghost var keyStart: nat := position;
      var k := ParseString();
      if k.None? {
        NoKey(text, strtod, keyStart, depth, key, position);
        return key, None, member;
      }
      key := k.value;
      ghost var keyEnd: nat := position;
      SkipWhitespace();
      ghost var colon: nat := position;
      if position >= |text| || text[position] != 0x3a {
        MemberFound(text, strtod, keyStart, keyEnd, key, colon, colon, depth, None, position);
        return key, None, member;
      }
      position := position + 1;
      SkipWhitespace();
      ghost var q: nat := position;
      ghost var at: nat;
      r, at := ParseValue();
      MemberFound(text, strtod, keyStart, keyEnd, key, colon, q, old(depth), r, position);
      if r.Some? {
        SpaceThen(text, keyEnd, colon, q, 0x3a);
        MoreSpace(text, keyEnd, q, at, 0x3a);
        member := Member(keyStart, keyEnd, key, at, position);
        MemberIsKey(text, member);
      }
    }

    /** Reads one value behind spaces; at is where it starts. */
    method ParseValue() returns (r: Option<Json>, ghost at: nat)
      requires position <= |text|
      modifies this
      ensures position <= |text| && position >= old(position)
      ensures r.Some? ==> position > old(position) && depth == old(depth) && NestedAtMost(r.value, Room(depth))
      ensures r.Some? ==> AllSpace(text, old(position), at) && Denotes(text, strtod, at, position, r.value)
      ensures Finds(text, strtod, old(position), old(depth), r, position)
      decreases |text| - position, 2
    {
      hide Finds, FindsAt;
      SkipWhitespace();
      at := position;
      if position >= |text| {
        FoundBehindSpace(text, strtod, old(position), at, depth, None, position);
        return None, at;
      }
      r := ParseAnyValue();
      FoundBehindSpace(text, strtod, old(position), at, old(depth), r, position);
    }

    method ParseAnyValue() returns (r: Option<Json>)
      requires position < |text|
      modifies this
      ensures position <= |text| && position >= old(position)
      ensures r.Some? ==> position > old(position) && depth == old(depth) && NestedAtMost(r.value, Room(depth))
      ensures r.Some? ==> Denotes(text, strtod, old(position), position, r.value)
      ensures FindsAt(text, strtod, old(position), old(depth), r, position)
      decreases |text| - position, 1
    {
      hide FindsAt;
      ghost var p: nat := position;
      var ch := text[position];
      if ch == QUOTE {
        var s := ParseString();
        StringFound(text, strtod, p, depth, s, position);
        return if s.None? then None else Some(String(s.value));
      }
      if ch == 0x7b {
        r := ParseObject();
        return;
      }
      if ch == 0x5b {
        r := ParseArray();
        return;
      }
      if ch == 0x2d || IsDigit(ch) {
        r := ParseNumber();
        return;
      }
      if StartsWith(TRUE_TEXT) {
        position := position + 4;
        r := Some(Bool(true));
      } else if StartsWith(FALSE_TEXT) {
        position := position + 5;
        r := Some(Bool(false));
      } else if StartsWith(NULL_TEXT) {
        position := position + 4;
        r := Some(Null);
      } else {
        r := None;
      }
      WordFound(text, strtod, p, depth, r, position);
    }

    predicate StartsWith(s: Text)
      reads this
    {
      position + |s| <= |text| && text[position..position + |s|] == s
    }

    /** Succeeds exactly on the JSON texts that nest at most 64 deep, with the value they stand for. */
    method Parse() returns (r: Option<Json>)
      requires position == 0 && depth == 0
      modifies this
      ensures forall v :: r == Some(v) <==> IsDocument(text, strtod, v)
      ensures r.Some? ==> depth == 0
    {
      hide Finds, Denotes, NestedAtMost;
      ghost var at: nat;
      r, at := ParseValue();
      ghost var found, end: nat := r, position;
      if r.Some? {
        SkipWhitespace();
        if position != |text| {
          r := None;
        } else {
          assert IsDocumentAt(text, strtod, found.value, at, end);
        }
      }
      forall v | IsDocument(text, strtod, v) ensures r == Some(v) {
        DocumentFound(text, strtod, found, end, position, v);
      }
    }
  }
}
