/** JSON strings: printing, escapes and UTF-8 (src/search/trajectory_score_protocol.cc). */
module JsonText {

  datatype Option<T> = None | Some(value: T)

  type Byte = bv8

  type Text = seq<Byte>

  type CodePoint = bv32

  const QUOTE: Byte := 0x22
  const BACKSLASH: Byte := 0x5c

  // ---------- UTF-8 ----------

  function Low(x: bv32): Byte {
    (x & 0xff) as bv8
  }

  function Payload(b: Byte, mask: Byte): bv32 {
    (b & mask) as bv32
  }

  predicate HasPrefix(b: Byte, mask: Byte, prefix: Byte) {
    b & mask == prefix
  }

  function Lead2(c: CodePoint): Byte { Low(0xc0 | (c >> 6)) }

  function Lead3(c: CodePoint): Byte { Low(0xe0 | (c >> 12)) }

  function Lead4(c: CodePoint): Byte { Low(0xf0 | (c >> 18)) }

  function Tail(c: CodePoint): Byte { Low(0x80 | (c & 0x3f)) }

  /** The bytes that are appended for a code point. */
  function Utf8(c: CodePoint): Text {
    if c <= 0x7f then [Low(c)]
    else if c <= 0x7ff then [Lead2(c), Tail(c)]
    else if c <= 0xffff then [Lead3(c), Tail(c >> 6), Tail(c)]
    else [Lead4(c), Tail(c >> 12), Tail(c >> 6), Tail(c)]
  }

  predicate IsScalar(c: CodePoint) {
    c <= 0x10ffff && !(0xd800 <= c <= 0xdfff)
  }

  function Join2(a: Byte, b: Byte): CodePoint { (Payload(a, 0x1f) << 6) | Payload(b, 0x3f) }

  function Join3(a: Byte, b: Byte, c: Byte): CodePoint { (Payload(a, 0x0f) << 12) | (Payload(b, 0x3f) << 6) | Payload(c, 0x3f) }

  function Join4(a: Byte, b: Byte, c: Byte, d: Byte): CodePoint {
    (Payload(a, 0x07) << 18) | (Payload(b, 0x3f) << 12) | (Payload(c, 0x3f) << 6) | Payload(d, 0x3f)
  }

  predicate IsTail(b: Byte) {
    HasPrefix(b, 0xc0, 0x80)
  }

  /** Section 3 of RFC 3629: the code point of one encoded character; overlong forms and surrogates are not legal. */
  function DecodeUtf8(b: Text): Option<CodePoint> {
    if |b| == 1 && HasPrefix(b[0], 0x80, 0) then
      Some(b[0] as bv32)
    else if |b| == 2 && HasPrefix(b[0], 0xe0, 0xc0) && IsTail(b[1]) && 0x80 <= Join2(b[0], b[1]) then
      Some(Join2(b[0], b[1]))
    else if |b| == 3 && HasPrefix(b[0], 0xf0, 0xe0) && IsTail(b[1]) && IsTail(b[2])
      && 0x800 <= Join3(b[0], b[1], b[2]) && !(0xd800 <= Join3(b[0], b[1], b[2]) <= 0xdfff) then
      Some(Join3(b[0], b[1], b[2]))
    else if |b| == 4 && HasPrefix(b[0], 0xf8, 0xf0) && IsTail(b[1]) && IsTail(b[2]) && IsTail(b[3])
      && 0x10000 <= Join4(b[0], b[1], b[2], b[3]) <= 0x10ffff then
      Some(Join4(b[0], b[1], b[2], b[3]))
    else None
  }

  lemma {:induction false} Encode1(c: CodePoint)
    requires c <= 0x7f
    ensures HasPrefix(Low(c), 0x80, 0) && Low(c) as bv32 == c
  {
  }

  lemma {:induction false} Encode2(c: CodePoint)
    requires 0x80 <= c <= 0x7ff
    ensures HasPrefix(Lead2(c), 0xe0, 0xc0) && IsTail(Tail(c)) && Join2(Lead2(c), Tail(c)) == c
  {
  }

  lemma {:induction false} Encode3(c: CodePoint)
    requires 0x800 <= c <= 0xffff
    ensures HasPrefix(Lead3(c), 0xf0, 0xe0) && IsTail(Tail(c >> 6)) && IsTail(Tail(c)) && Join3(Lead3(c), Tail(c >> 6), Tail(c)) == c
  {
  }

  lemma {:induction false} Encode4(c: CodePoint)
    requires 0x10000 <= c <= 0x10ffff
    ensures HasPrefix(Lead4(c), 0xf8, 0xf0) && IsTail(Tail(c >> 12)) && IsTail(Tail(c >> 6)) && IsTail(Tail(c))
    ensures Join4(Lead4(c), Tail(c >> 12), Tail(c >> 6), Tail(c)) == c
  {
  }

  /** Exactly the scalar values are encoded so that the decoder gets them back. */
  lemma {:induction false} Utf8RoundTrip(c: CodePoint)
    requires c <= 0x10ffff
    ensures DecodeUtf8(Utf8(c)) == if IsScalar(c) then Some(c) else None
  {
    hide Low, Lead2, Lead3, Lead4, Tail, HasPrefix, IsTail, Join2, Join3, Join4;
    if c <= 0x7f {
      Encode1(c);
    } else if c <= 0x7ff {
      Encode2(c);
    } else if c <= 0xffff {
      Encode3(c);
    } else {
      Encode4(c);
    }
  }

  lemma {:induction false} Decode1(a: Byte)
    requires HasPrefix(a, 0x80, 0)
    ensures a as bv32 <= 0x7f && Low(a as bv32) == a
  {
  }

  lemma {:induction false} Decode2(a: Byte, b: Byte)
    requires HasPrefix(a, 0xe0, 0xc0) && IsTail(b)
    ensures var c := Join2(a, b); c <= 0x7ff && Lead2(c) == a && Tail(c) == b
  {
  }

  lemma {:induction false} Decode3(a: Byte, b: Byte, d: Byte)
    requires HasPrefix(a, 0xf0, 0xe0) && IsTail(b) && IsTail(d)
    ensures var c := Join3(a, b, d); c <= 0xffff && Lead3(c) == a && Tail(c >> 6) == b && Tail(c) == d
  {
  }

  lemma {:induction false} Decode4(a: Byte, b: Byte, d: Byte, e: Byte)
    requires HasPrefix(a, 0xf8, 0xf0) && IsTail(b) && IsTail(d) && IsTail(e)
    ensures var c := Join4(a, b, d, e); Lead4(c) == a && Tail(c >> 12) == b && Tail(c >> 6) == d && Tail(c) == e
  {
  }

  lemma {:induction false} Unique2(a: Byte, b: Byte)
    requires HasPrefix(a, 0xe0, 0xc0) && IsTail(b) && 0x80 <= Join2(a, b)
    ensures IsScalar(Join2(a, b)) && Utf8(Join2(a, b)) == [a, b]
  {
    Decode2(a, b);
    hide Low, Lead2, Tail, HasPrefix, IsTail, Join2;
  }

  lemma {:induction false} Unique3(a: Byte, b: Byte, d: Byte)
    requires HasPrefix(a, 0xf0, 0xe0) && IsTail(b) && IsTail(d) && 0x800 <= Join3(a, b, d) && !(0xd800 <= Join3(a, b, d) <= 0xdfff)
    ensures IsScalar(Join3(a, b, d)) && Utf8(Join3(a, b, d)) == [a, b, d]
  {
    Decode3(a, b, d);
    hide Low, Lead3, Tail, HasPrefix, IsTail, Join3;
  }

  lemma {:induction false} Unique4(a: Byte, b: Byte, d: Byte, e: Byte)
    requires HasPrefix(a, 0xf8, 0xf0) && IsTail(b) && IsTail(d) && IsTail(e) && 0x10000 <= Join4(a, b, d, e) <= 0x10ffff
    ensures IsScalar(Join4(a, b, d, e)) && Utf8(Join4(a, b, d, e)) == [a, b, d, e]
  {
    Decode4(a, b, d, e);
    hide Low, Lead4, Tail, HasPrefix, IsTail, Join4;
  }

  /** There is no other legal encoding. */
  lemma {:induction false} Utf8Unique(b: Text)
    requires DecodeUtf8(b).Some?
    ensures IsScalar(DecodeUtf8(b).value) && Utf8(DecodeUtf8(b).value) == b
  {
    hide Low, HasPrefix, IsTail, Join2, Join3, Join4, Utf8, IsScalar;
    if |b| == 1 {
      Unique1(b[0]);
      assert b == [b[0]];
    } else if |b| == 2 {
      Unique2(b[0], b[1]);
      assert b == [b[0], b[1]];
    } else if |b| == 3 {
      Unique3(b[0], b[1], b[2]);
      assert b == [b[0], b[1], b[2]];
    } else {
      Unique4(b[0], b[1], b[2], b[3]);
      assert b == [b[0], b[1], b[2], b[3]];
    }
  }

  lemma {:induction false} Unique1(a: Byte)
    requires HasPrefix(a, 0x80, 0)
    ensures IsScalar(a as bv32) && Utf8(a as bv32) == [a]
  {
    Decode1(a);
    hide Low, HasPrefix;
  }

  // ---------- Escapes ----------

  function HexValue(ch: Byte): Option<bv32> {
    if 0x30 <= ch <= 0x39 then Some((ch - 0x30) as bv32)
    else if 0x61 <= ch <= 0x66 then Some((ch - 0x61 + 10) as bv32)
    else if 0x41 <= ch <= 0x46 then Some((ch - 0x41 + 10) as bv32)
    else None
  }

  function AddDigit(value: bv32, digit: bv32): bv32 {
    value * 16 + digit
  }

  /** The value of n hexadecimal digits from position p on. */
  function HexDigits(t: Text, p: nat, n: nat): Option<bv32>
    requires p + n <= |t|
  {
    if n == 0 then Some(0)
    else
      var front := HexDigits(t, p, n - 1);
      if front.None? || HexValue(t[p + n - 1]).None? then None else Some(AddDigit(front.value, HexValue(t[p + n - 1]).value))
  }

  function FourDigits(a: bv32, b: bv32, c: bv32, d: bv32): bv32 {
    AddDigit(AddDigit(AddDigit(AddDigit(0, a), b), c), d)
  }

  lemma {:induction false} MissingDigit(t: Text, p: nat, n: nat)
    requires p + 4 <= |t| && n < 4 && HexValue(t[p + n]).None?
    ensures HexDigits(t, p, 4) == None
  {
    Unfolded(t, p);
  }

  lemma {:induction false} Unfolded(t: Text, p: nat)
    requires p + 4 <= |t|
    ensures HexDigits(t, p, 4) ==
      if HexValue(t[p]).None? || HexValue(t[p + 1]).None? || HexValue(t[p + 2]).None? || HexValue(t[p + 3]).None? then None
      else Some(FourDigits(HexValue(t[p]).value, HexValue(t[p + 1]).value, HexValue(t[p + 2]).value, HexValue(t[p + 3]).value))
  {
    hide HexValue, AddDigit;
    assert HexDigits(t, p, 0) == Some(0);
    OneDigitMore(t, p, 0);
    OneDigitMore(t, p, 1);
    OneDigitMore(t, p, 2);
    OneDigitMore(t, p, 3);
    hide HexDigits;
  }

  lemma {:induction false} OneDigitMore(t: Text, p: nat, n: nat)
    requires p + n + 1 <= |t|
    ensures HexDigits(t, p, n + 1) ==
      if HexDigits(t, p, n).None? || HexValue(t[p + n]).None? then None
      else Some(AddDigit(HexDigits(t, p, n).value, HexValue(t[p + n]).value))
  {
    hide HexValue, AddDigit;
  }

  function HexQuad(t: Text, p: nat): Option<bv32> {
    if p + 4 > |t| then None else HexDigits(t, p, 4)
  }

  /** What a string holds at one position: its end, or bytes and the position behind them. */
  datatype Item = Malformed | End | Bytes(bytes: Text, next: nat)

  predicate IsHigh(c: bv32) {
    0xd800 <= c <= 0xdbff
  }

  predicate IsLow(c: bv32) {
    0xdc00 <= c <= 0xdfff
  }

  /** Section 7 of RFC 8259: the code point of a surrogate pair. */
  function PairValue(high: bv32, low: bv32): CodePoint {
    0x10000 + ((high - 0xd800) << 10) + (low - 0xdc00)
  }

  /** The escape \u with its digits from position p on. */
  function UnicodeItem(t: Text, p: nat): (r: Item)
    ensures r.Bytes? ==> p < r.next <= |t|
  {
    var c := HexQuad(t, p);
    if c.None? then Malformed
    else if IsHigh(c.value) then
      if p + 6 > |t| || t[p + 4] != BACKSLASH || t[p + 5] != 0x75 then Malformed
      else
        var low := HexQuad(t, p + 6);
        if low.None? || !IsLow(low.value) then Malformed
        else Bytes(Utf8(PairValue(c.value, low.value)), p + 10)
    else if IsLow(c.value) then Malformed
    else Bytes(Utf8(c.value), p + 4)
  }

  /** The byte that a one-letter escape stands for. */
  function SimpleEscape(ch: Byte): Option<Byte> {
    match ch
    case 0x22 => Some(0x22)
    case 0x5c => Some(0x5c)
    case 0x2f => Some(0x2f)
    case 0x62 => Some(0x08)
    case 0x66 => Some(0x0c)
    case 0x6e => Some(0x0a)
    case 0x72 => Some(0x0d)
    case 0x74 => Some(0x09)
    case _ => None
  }

  function ItemAt(t: Text, p: nat): (r: Item)
    requires p < |t|
    ensures r.Bytes? ==> p < r.next <= |t|
  {
    if t[p] == QUOTE then End
    else if t[p] < 0x20 then Malformed
    else if t[p] != BACKSLASH then Bytes([t[p]], p + 1)
    else if p + 1 == |t| then Malformed
    else if t[p + 1] == 0x75 then UnicodeItem(t, p + 2)
    else if SimpleEscape(t[p + 1]).Some? then Bytes([SimpleEscape(t[p + 1]).value], p + 2)
    else Malformed
  }

  datatype Literal = Literal(bytes: Text, next: nat)

  /** The bytes of a string from behind its opening quote on, and the position behind its closing quote. */
  function StringFrom(t: Text, p: nat): (r: Option<Literal>)
    requires p <= |t|
    ensures r.Some? ==> p < r.value.next <= |t|
    decreases |t| - p
  {
    if p == |t| then None
    else
      match ItemAt(t, p)
      case Malformed => None
      case End => Some(Literal([], p + 1))
      case Bytes(b, next) => Prepend(b, StringFrom(t, next))
  }

  function Prepend(b: Text, r: Option<Literal>): Option<Literal> {
    if r.None? then None else Some(Literal(b + r.value.bytes, r.value.next))
  }

  lemma {:induction false} PrependTwice(a: Text, b: Text, r: Option<Literal>)
    ensures Prepend(a, Prepend(b, r)) == Prepend(a + b, r)
  {
    if r.Some? {
      assert a + (b + r.value.bytes) == (a + b) + r.value.bytes;
    }
  }

  // ---------- Printing ----------

  function HexDigit(d: Byte): Byte {
    if d < 10 then 0x30 + d else 0x61 + (d - 10)
  }

  function EscapeByte(ch: Byte): Text {
    match ch
    case 0x22 => [BACKSLASH, 0x22]
    case 0x5c => [BACKSLASH, 0x5c]
    case 0x08 => [BACKSLASH, 0x62]
    case 0x0c => [BACKSLASH, 0x66]
    case 0x0a => [BACKSLASH, 0x6e]
    case 0x0d => [BACKSLASH, 0x72]
    case 0x09 => [BACKSLASH, 0x74]
    case _ =>
      if ch < 0x20 then [BACKSLASH, 0x75, 0x30, 0x30, HexDigit((ch >> 4) & 0xf), HexDigit(ch & 0xf)] else [ch]
  }

  function EscapeAll(s: Text): Text {
    if s == [] then [] else EscapeAll(s[..|s| - 1]) + EscapeByte(s[|s| - 1])
  }

  function Quoted(s: Text): Text {
    [QUOTE] + EscapeAll(s) + [QUOTE]
  }

  method AppendJsonString(out: Text, value: Text) returns (out': Text)
    ensures out' == out + Quoted(value)
  {
    hide EscapeByte;
    out' := out + [QUOTE];
    for i := 0 to |value|
      invariant out' == out + [QUOTE] + EscapeAll(value[..i])
    {
      assert value[..i + 1][..i] == value[..i];
      out' := out' + EscapeByte(value[i]);
    }
    assert value[..|value|] == value;
    out' := out' + [QUOTE];
  }

  // ---------- Round trip ----------

  lemma {:induction false} ControlDigits(ch: Byte)
    requires ch < 0x20
    ensures HexValue(HexDigit((ch >> 4) & 0xf)) == Some((ch >> 4) as bv32) && HexValue(HexDigit(ch & 0xf)) == Some((ch & 0xf) as bv32)
    ensures var c := FourDigits(0, 0, (ch >> 4) as bv32, (ch & 0xf) as bv32); c == ch as bv32 && c <= 0x7f && Low(c) == ch
  {
  }

  /** An escaped byte is read back as that byte, whatever stands around it. */
  lemma {:induction false} EscapedByteReads(before: Text, ch: Byte, after: Text)
    ensures ItemAt(before + EscapeByte(ch) + after, |before|) == Bytes([ch], |before| + |EscapeByte(ch)|)
  {
    var t, p, e := before + EscapeByte(ch) + after, |before|, EscapeByte(ch);
    assert forall i :: 0 <= i < |e| ==> t[p + i] == e[i];
    if e != [ch] && |e| == 6 {
      ControlDigits(ch);
      assert t[p] == BACKSLASH && t[p + 1] == 0x75 && t[p + 2] == 0x30 && t[p + 3] == 0x30;
      Unfolded(t, p + 2);
      assert HexQuad(t, p + 2) == Some(ch as bv32);
    } else {
      assert t[p] == e[0];
      assert |e| == 2 ==> t[p + 1] == e[1];
    }
  }

  lemma {:induction false} StringStep(t: Text, p: nat, b: Text, next: nat)
    requires p < |t| && ItemAt(t, p) == Bytes(b, next)
    ensures p < next <= |t| && StringFrom(t, p) == Prepend(b, StringFrom(t, next))
  {
    hide Prepend;
  }

  lemma {:induction false} StringEnd(t: Text, p: nat)
    requires p < |t| && t[p] == QUOTE
    ensures StringFrom(t, p) == Some(Literal([], p + 1))
  {
  }

  lemma {:induction false} PrependOne(x: Byte, tail: Text, s: Text, n: nat)
    requires s != [] && s[0] == x && s[1..] == tail
    ensures Prepend([x], Some(Literal(tail, n))) == Some(Literal(s, n))
  {
    assert [x] + tail == s;
  }

  lemma {:induction false} EscapeSplit(before: Text, s: Text, after: Text)
    requires s != []
    ensures before + EscapeAll(s) + [QUOTE] + after == before + EscapeByte(s[0]) + (EscapeAll(s[1..]) + [QUOTE] + after)
    ensures before + EscapeAll(s) + [QUOTE] + after == (before + EscapeByte(s[0])) + EscapeAll(s[1..]) + [QUOTE] + after
    ensures |EscapeAll(s)| == |EscapeByte(s[0])| + |EscapeAll(s[1..])|
  {
    FirstEscape(s);
    hide EscapeByte, EscapeAll;
  }

  lemma {:induction false} EmptyReads(before: Text, after: Text, t: Text)
    requires t == before + EscapeAll([]) + [QUOTE] + after
    ensures Reads(t, |before|, [], |before| + 1)
  {
    StringEnd(t, |before|);
  }

  ghost predicate Reads(t: Text, p: nat, s: Text, next: nat) {
    p <= |t| && StringFrom(t, p) == Some(Literal(s, next))
  }

  lemma {:induction false} ReadsOneMore(t: Text, p: nat, x: Byte, next: nat, tail: Text, end: nat, s: Text)
    requires p < |t| && ItemAt(t, p) == Bytes([x], next) && Reads(t, next, tail, end)
    requires s != [] && s[0] == x && s[1..] == tail
    ensures Reads(t, p, s, end)
  {
    hide ItemAt;
    StringStep(t, p, [x], next);
    PrependOne(x, tail, s, end);
  }

  /** Reading a printed string, in any context, gives the original bytes and stops behind the closing quote. */
  lemma {:induction false} StringRoundTrip(before: Text, s: Text, after: Text, t: Text)
    requires t == before + EscapeAll(s) + [QUOTE] + after
    ensures Reads(t, |before|, s, |before| + |EscapeAll(s)| + 1)
    decreases |s|
  {
    hide *;
    if s == [] {
      NothingEscaped();
      EmptyReads(before, after, t);
    } else {
      EscapeSplit(before, s, after);
      var e, tail := EscapeByte(s[0]), s[1..];
      EscapedByteReads(before, s[0], EscapeAll(tail) + [QUOTE] + after);
      StringRoundTrip(before + e, tail, after, t);
      ReadsOneMore(t, |before|, s[0], |before| + |e|, tail, |before| + |EscapeAll(s)| + 1, s);
    }
  }

  lemma {:induction false} NothingEscaped()
    ensures EscapeAll([]) == []
  {
  }

  lemma {:induction false} FirstEscape(s: Text)
    requires s != []
    ensures EscapeAll(s) == EscapeByte(s[0]) + EscapeAll(s[1..])
    decreases |s|
  {
    hide EscapeByte;
    var front, last := s[..|s| - 1], s[|s| - 1];
    if front == [] {
      assert s[1..] == [];
    } else {
      FirstEscape(front);
      assert s[1..] == front[1..] + [last];
      assert EscapeAll(s[1..]) == EscapeAll(front[1..]) + EscapeByte(last);
    }
  }

  // ---------- Escaped code points ----------

  ghost predicate IsChar(b: Byte, c: char) {
    b as int == c as int
  }

  const LOWER_DIGITS: string := "0123456789abcdef"
  const UPPER_DIGITS: string := "0123456789ABCDEF"

  ghost predicate IsHexDigit(ch: Byte, d: bv32) {
    d < 16 && (IsChar(ch, LOWER_DIGITS[d as nat]) || IsChar(ch, UPPER_DIGITS[d as nat]))
  }

  /** Four hexadecimal digits from position p on spell the unit; each may be written in either case. */
  ghost predicate SpelledAt(t: Text, p: nat, unit: bv32) {
    && p + 4 <= |t| && unit <= 0xffff
    && IsHexDigit(t[p], unit >> 12) && IsHexDigit(t[p + 1], (unit >> 8) & 0xf)
    && IsHexDigit(t[p + 2], (unit >> 4) & 0xf) && IsHexDigit(t[p + 3], unit & 0xf)
  }

  ghost predicate EscapeAt(t: Text, p: nat, unit: bv32) {
    p + 6 <= |t| && IsChar(t[p], '\\') && IsChar(t[p + 1], 'u') && SpelledAt(t, p + 2, unit)
  }

  /** The one-letter escapes of section 7 of RFC 8259 and the characters they stand for. */
  const ESCAPE_LETTERS: string := "\"\\/bfnrt"
  const ESCAPE_MEANINGS: string := "\"\\/\U{0008}\U{000C}\n\r\t"

  ghost predicate LetterAt(t: Text, p: nat, k: nat) {
    p + 2 <= |t| && IsChar(t[p], '\\') && k < 8 && IsChar(t[p + 1], ESCAPE_LETTERS[k])
  }

  lemma {:induction false} DigitOfTable(ch: Byte, d: bv32)
    requires d < 16
    ensures HexValue(ch) == Some(d) <==> IsHexDigit(ch, d)
  {
    assert d == 0 || d == 1 || d == 2 || d == 3 || d == 4 || d == 5 || d == 6 || d == 7
        || d == 8 || d == 9 || d == 10 || d == 11 || d == 12 || d == 13 || d == 14 || d == 15;
  }

  lemma {:induction false} DigitsOfQuad(a: bv32, b: bv32, c: bv32, d: bv32)
    requires a < 16 && b < 16 && c < 16 && d < 16
    ensures var unit := FourDigits(a, b, c, d);
      unit >> 12 == a && (unit >> 8) & 0xf == b && (unit >> 4) & 0xf == c && unit & 0xf == d
  {
  }

  lemma {:induction false} QuadOfDigits(unit: bv32)
    requires unit <= 0xffff
    ensures FourDigits(unit >> 12, (unit >> 8) & 0xf, (unit >> 4) & 0xf, unit & 0xf) == unit
  {
  }

  lemma {:induction false} UnitDigits(unit: bv32)
    requires unit <= 0xffff
    ensures unit >> 12 < 16 && (unit >> 8) & 0xf < 16 && (unit >> 4) & 0xf < 16 && unit & 0xf < 16
  {
  }

  /** The hexadecimal digits read are the unit that is spelled, and nothing else is read. */
  lemma {:induction false} QuadIsSpelled(t: Text, p: nat, unit: bv32)
    ensures HexQuad(t, p) == Some(unit) <==> SpelledAt(t, p, unit)
  {
    QuadBelow(t, p);
    if p + 4 <= |t| && unit <= 0xffff {
      Unfolded(t, p);
      UnitDigits(unit);
      DigitOfTable(t[p], unit >> 12);
      DigitOfTable(t[p + 1], (unit >> 8) & 0xf);
      DigitOfTable(t[p + 2], (unit >> 4) & 0xf);
      DigitOfTable(t[p + 3], unit & 0xf);
      DigitsAreUnit(HexValue(t[p]), HexValue(t[p + 1]), HexValue(t[p + 2]), HexValue(t[p + 3]), unit);
      HexBelow(t[p]);
      HexBelow(t[p + 1]);
      HexBelow(t[p + 2]);
      HexBelow(t[p + 3]);
      hide HexValue, FourDigits, IsHexDigit, HexDigits;
    }
  }

  lemma {:induction false} DigitsAreUnit(a: Option<bv32>, b: Option<bv32>, c: Option<bv32>, d: Option<bv32>, unit: bv32)
    requires unit <= 0xffff
    ensures a.Some? && b.Some? && c.Some? && d.Some? && a.value < 16 && b.value < 16 && c.value < 16 && d.value < 16 ==>
      (FourDigits(a.value, b.value, c.value, d.value) == unit <==>
       a == Some(unit >> 12) && b == Some((unit >> 8) & 0xf) && c == Some((unit >> 4) & 0xf) && d == Some(unit & 0xf))
  {
    if a.Some? && b.Some? && c.Some? && d.Some? && a.value < 16 && b.value < 16 && c.value < 16 && d.value < 16 {
      DigitsOfQuad(a.value, b.value, c.value, d.value);
      QuadOfDigits(unit);
      hide FourDigits;
    }
  }

  lemma {:induction false} MarksAre(b: Byte)
    ensures (IsChar(b, '\"') <==> b == QUOTE) && (IsChar(b, '\\') <==> b == BACKSLASH) && (IsChar(b, 'u') <==> b == 0x75)
  {
  }

  lemma {:induction false} LetterOfTable(ch: Byte, k: nat)
    requires k < 8 && IsChar(ch, ESCAPE_LETTERS[k])
    ensures ch != 0x75 && SimpleEscape(ch).Some? && IsChar(SimpleEscape(ch).value, ESCAPE_MEANINGS[k])
  {
    assert k == 0 || k == 1 || k == 2 || k == 3 || k == 4 || k == 5 || k == 6 || k == 7;
  }

  lemma {:induction false} LetterInTable(ch: Byte) returns (k: nat)
    requires SimpleEscape(ch).Some?
    ensures k < 8 && IsChar(ch, ESCAPE_LETTERS[k])
  {
    k := match ch
      case 0x22 => 0
      case 0x5c => 1
      case 0x2f => 2
      case 0x62 => 3
      case 0x66 => 4
      case 0x6e => 5
      case 0x72 => 6
      case _ => 7;
  }

  lemma {:induction false} SameChar(a: Byte, b: Byte, c: char)
    requires IsChar(a, c) && IsChar(b, c)
    ensures a == b
  {
  }

  // ---------- Characters of a string, section 7 of RFC 8259 ----------

  ghost predicate IsUnescaped(t: Text, p: nat, b: Text, next: nat) {
    p < |t| && t[p] >= 0x20 && !IsChar(t[p], '\"') && !IsChar(t[p], '\\') && b == [t[p]] && next == p + 1
  }

  ghost predicate IsLetterEscape(t: Text, p: nat, b: Text, next: nat) {
    exists k: nat :: LetterAt(t, p, k) && |b| == 1 && IsChar(b[0], ESCAPE_MEANINGS[k]) && next == p + 2
  }

  ghost predicate IsUnitEscape(t: Text, p: nat, b: Text, next: nat) {
    exists unit :: EscapeAt(t, p, unit) && DecodeUtf8(b) == Some(unit) && next == p + 6
  }

  ghost predicate IsPairEscape(t: Text, p: nat, b: Text, next: nat) {
    exists high, low :: EscapeAt(t, p, high) && IsHigh(high) && EscapeAt(t, p + 6, low) && IsLow(low)
      && DecodeUtf8(b) == Some(PairValue(high, low)) && next == p + 12
  }

  /** From p to next stands one character of a string, and b is its UTF-8. */
  ghost predicate IsCharacter(t: Text, p: nat, b: Text, next: nat) {
    IsUnescaped(t, p, b, next) || IsLetterEscape(t, p, b, next) || IsUnitEscape(t, p, b, next) || IsPairEscape(t, p, b, next)
  }

  lemma {:induction false} LetterRead(t: Text, p: nat, b: Text, next: nat)
    requires p + 2 <= |t| && t[p] == BACKSLASH && t[p + 1] != 0x75
    ensures ItemAt(t, p) == Bytes(b, next) <==> IsLetterEscape(t, p, b, next)
  {
    MarksAre(t[p]);
    hide IsChar;
    if SimpleEscape(t[p + 1]).Some? {
      var k := LetterInTable(t[p + 1]);
      LetterOfTable(t[p + 1], k);
      assert LetterAt(t, p, k);
    }
    if IsLetterEscape(t, p, b, next) {
      var k: nat :| LetterAt(t, p, k) && |b| == 1 && IsChar(b[0], ESCAPE_MEANINGS[k]) && next == p + 2;
      LetterOfTable(t[p + 1], k);
      SameChar(b[0], SimpleEscape(t[p + 1]).value, ESCAPE_MEANINGS[k]);
    }
  }

  lemma {:induction false} UnitRead(t: Text, p: nat, b: Text, next: nat)
    requires p + 2 <= |t| && t[p] == BACKSLASH && t[p + 1] == 0x75
    requires ItemAt(t, p) == Bytes(b, next)
    ensures IsUnitEscape(t, p, b, next) || IsPairEscape(t, p, b, next)
  {
    var unit := HexQuad(t, p + 2).value;
    EscapeOfUnit(t, p, unit);
    EscapeBelow(t, p, unit);
    hide EscapeAt, HexQuad, Utf8, DecodeUtf8, PairValue;
    if IsHigh(unit) {
      var low := HexQuad(t, p + 8).value;
      EscapeOfUnit(t, p + 6, low);
      SurrogatePairs(unit, low);
      Utf8RoundTrip(PairValue(unit, low));
    } else {
      Utf8RoundTrip(unit);
    }
  }

  lemma {:induction false} EscapeBelow(t: Text, p: nat, unit: bv32)
    requires EscapeAt(t, p, unit)
    ensures unit <= 0xffff
  {
  }

  lemma {:induction false} HasRoom(t: Text, p: nat, unit: bv32)
    requires SpelledAt(t, p, unit)
    ensures p + 4 <= |t| && unit <= 0xffff
  {
  }

  lemma {:induction false} EscapeIsUnit(t: Text, p: nat, unit: bv32)
    requires EscapeAt(t, p, unit)
    ensures p + 6 <= |t| && t[p] == BACKSLASH && t[p + 1] == 0x75 && HexQuad(t, p + 2) == Some(unit)
  {
    MarksAre(t[p]);
    MarksAre(t[p + 1]);
    QuadIsSpelled(t, p + 2, unit);
  }

  lemma {:induction false} CharacterMeant(t: Text, p: nat, b: Text, next: nat)
    requires IsUnitEscape(t, p, b, next) || IsPairEscape(t, p, b, next)
    ensures p < |t| && ItemAt(t, p) == Bytes(b, next)
  {
    Utf8Unique(b);
    hide EscapeAt, HexQuad, Utf8, DecodeUtf8, PairValue, IsHigh, IsLow;
    if unit :| EscapeAt(t, p, unit) && DecodeUtf8(b) == Some(unit) && next == p + 6 {
      EscapeIsUnit(t, p, unit);
      ScalarIsNoSurrogate(unit);
    } else {
      var high, low :| EscapeAt(t, p, high) && IsHigh(high) && EscapeAt(t, p + 6, low) && IsLow(low)
        && DecodeUtf8(b) == Some(PairValue(high, low)) && next == p + 12;
      EscapeIsUnit(t, p, high);
      EscapeIsUnit(t, p + 6, low);
    }
  }

  lemma {:induction false} ScalarIsNoSurrogate(c: CodePoint)
    requires IsScalar(c)
    ensures !IsHigh(c) && !IsLow(c)
  {
  }

  /** What is read at one position is the character that stands there, if any. */
  lemma {:induction false} CharacterRead(t: Text, p: nat, b: Text, next: nat)
    requires p < |t|
    ensures ItemAt(t, p) == Bytes(b, next) <==> IsCharacter(t, p, b, next)
    ensures ItemAt(t, p) == End <==> IsChar(t[p], '\"')
  {
    MarksAre(t[p]);
    hide IsChar, SimpleEscape, UnicodeItem;
    if t[p] == BACKSLASH && p + 1 < |t| {
      hide ItemAt, IsLetterEscape, IsUnitEscape, IsPairEscape;
      EscapeRead(t, p, b, next);
    } else {
      NoEscape(t, p, b, next);
      hide IsLetterEscape, IsUnitEscape, IsPairEscape;
    }
  }

  lemma {:induction false} NoEscape(t: Text, p: nat, b: Text, next: nat)
    requires p < |t| && (t[p] != BACKSLASH || p + 1 == |t|)
    ensures !IsLetterEscape(t, p, b, next) && !IsUnitEscape(t, p, b, next) && !IsPairEscape(t, p, b, next)
  {
    MarksAre(t[p]);
    hide IsChar, SpelledAt, DecodeUtf8, PairValue, IsHigh, IsLow;
  }

  lemma {:induction false} EscapeRead(t: Text, p: nat, b: Text, next: nat)
    requires p + 2 <= |t| && t[p] == BACKSLASH
    ensures ItemAt(t, p) != End
    ensures ItemAt(t, p) == Bytes(b, next) <==>
      IsLetterEscape(t, p, b, next) || IsUnitEscape(t, p, b, next) || IsPairEscape(t, p, b, next)
  {
    EscapeNoEnd(t, p);
    hide ItemAt;
    if t[p + 1] == 0x75 {
      if IsLetterEscape(t, p, b, next) {
        NoLetterU(t, p, b, next);
      }
      hide IsLetterEscape, IsUnitEscape, IsPairEscape;
      if ItemAt(t, p) == Bytes(b, next) {
        UnitRead(t, p, b, next);
      } else if IsUnitEscape(t, p, b, next) || IsPairEscape(t, p, b, next) {
        CharacterMeant(t, p, b, next);
      }
    } else {
      NoUnit(t, p, b, next);
      hide IsLetterEscape, IsUnitEscape, IsPairEscape;
      LetterRead(t, p, b, next);
    }
  }

  lemma {:induction false} EscapeNoEnd(t: Text, p: nat)
    requires p + 2 <= |t| && t[p] == BACKSLASH
    ensures ItemAt(t, p) != End
  {
    hide SimpleEscape, HexQuad, Utf8;
  }

  lemma {:induction false} NoLetterU(t: Text, p: nat, b: Text, next: nat)
    requires p + 2 <= |t| && t[p + 1] == 0x75
    ensures !IsLetterEscape(t, p, b, next)
  {
    hide IsChar;
    if k: nat :| LetterAt(t, p, k) && |b| == 1 && IsChar(b[0], ESCAPE_MEANINGS[k]) && next == p + 2 {
      LetterOfTable(t[p + 1], k);
    }
  }

  lemma {:induction false} NoUnit(t: Text, p: nat, b: Text, next: nat)
    requires p + 2 <= |t| && t[p + 1] != 0x75
    ensures !IsUnitEscape(t, p, b, next) && !IsPairEscape(t, p, b, next)
  {
    MarksAre(t[p + 1]);
    hide IsChar, SpelledAt, DecodeUtf8, PairValue, IsHigh, IsLow;
  }

  /** Behind an opening quote stand the characters of s, then the closing quote, and next is behind it. */
  ghost predicate IsStringAt(t: Text, p: nat, s: Text, next: nat)
    decreases |t| - p
  {
    p < |t| &&
    if IsChar(t[p], '\"') then s == [] && next == p + 1
    else exists k: nat, mid: nat :: k <= |s| && p < mid <= |t| && IsCharacter(t, p, s[..k], mid) && IsStringAt(t, mid, s[k..], next)
  }

  /** The strings that are read are those of the grammar. */
  lemma {:induction false} StringIsRead(t: Text, p: nat, s: Text, next: nat)
    requires p <= |t|
    ensures StringFrom(t, p) == Some(Literal(s, next)) <==> IsStringAt(t, p, s, next)
    decreases |t| - p
  {
    hide ItemAt, IsCharacter, IsChar;
    if p < |t| {
      CharacterRead(t, p, s, next);
      if IsChar(t[p], '\"') {
      } else {
        if StringFrom(t, p) == Some(Literal(s, next)) {
          SplitOff(t, p, s, next);
          var b, mid := ItemAt(t, p).bytes, ItemAt(t, p).next;
          CharacterRead(t, p, b, mid);
          StringIsRead(t, mid, s[|b|..], next);
          assert IsCharacter(t, p, s[..|b|], mid) && IsStringAt(t, mid, s[|b|..], next);
        }
        if IsStringAt(t, p, s, next) {
          var k: nat, mid: nat :| k <= |s| && p < mid <= |t| && IsCharacter(t, p, s[..k], mid) && IsStringAt(t, mid, s[k..], next);
          CharacterRead(t, p, s[..k], mid);
          StringIsRead(t, mid, s[k..], next);
          StringStep(t, p, s[..k], mid);
          assert s[..k] + s[k..] == s;
        }
      }
    }
  }

  lemma {:induction false} SplitOff(t: Text, p: nat, s: Text, next: nat)
    requires p < |t| && StringFrom(t, p) == Some(Literal(s, next)) && ItemAt(t, p) != End
    ensures var item := ItemAt(t, p);
      && item.Bytes? && p < item.next <= |t| && |item.bytes| <= |s| && s[..|item.bytes|] == item.bytes
      && StringFrom(t, item.next) == Some(Literal(s[|item.bytes|..], next))
  {
    var item := ItemAt(t, p);
    StringStep(t, p, item.bytes, item.next);
    hide ItemAt;
    assert s == item.bytes + StringFrom(t, item.next).value.bytes;
  }

  /** Every pair of surrogates names one code point above 0xffff, and every such code point has a pair. */
  lemma {:induction false} SurrogatePairs(high: bv32, low: bv32)
    requires IsHigh(high) && IsLow(low)
    ensures 0x10000 <= PairValue(high, low) <= 0x10ffff
    ensures high == 0xd800 + ((PairValue(high, low) - 0x10000) >> 10) && low == 0xdc00 + ((PairValue(high, low) - 0x10000) & 0x3ff)
  {
  }

  lemma {:induction false} PairOf(c: CodePoint)
    requires 0x10000 <= c <= 0x10ffff
    ensures var high, low := 0xd800 + ((c - 0x10000) >> 10), 0xdc00 + ((c - 0x10000) & 0x3ff);
      IsHigh(high) && IsLow(low) && PairValue(high, low) == c
  {
  }

  /** An escape stands for the UTF-8 of its code point; a lone surrogate is refused. */
  lemma {:induction false} EscapeDecodes(t: Text, p: nat, unit: bv32)
    requires EscapeAt(t, p, unit) && !IsHigh(unit)
    ensures if IsLow(unit) then ItemAt(t, p) == Malformed
            else ItemAt(t, p).Bytes? && ItemAt(t, p).next == p + 6 && DecodeUtf8(ItemAt(t, p).bytes) == Some(unit)
  {
    EscapeIsUnit(t, p, unit);
    HasRoom(t, p + 2, unit);
    hide HexQuad, DecodeUtf8, Utf8;
    if !IsLow(unit) {
      Utf8RoundTrip(unit);
    }
  }

  /** A high surrogate and the low one behind it stand for the UTF-8 of their code point; without one it is refused. */
  lemma {:induction false} PairDecodes(t: Text, p: nat, high: bv32)
    requires EscapeAt(t, p, high) && IsHigh(high)
    ensures (forall low :: IsLow(low) ==> !EscapeAt(t, p + 6, low)) ==> ItemAt(t, p) == Malformed
    ensures forall low :: IsLow(low) && EscapeAt(t, p + 6, low) ==>
      ItemAt(t, p).Bytes? && ItemAt(t, p).next == p + 12 && DecodeUtf8(ItemAt(t, p).bytes) == Some(PairValue(high, low))
  {
    forall low | IsLow(low) && EscapeAt(t, p + 6, low)
      ensures ItemAt(t, p).Bytes? && ItemAt(t, p).next == p + 12 && DecodeUtf8(ItemAt(t, p).bytes) == Some(PairValue(high, low))
    {
      PairRead(t, p, high, low);
    }
    if forall low :: IsLow(low) ==> !EscapeAt(t, p + 6, low) {
      LoneHigh(t, p, high);
    }
  }

  lemma {:induction false} LoneHigh(t: Text, p: nat, high: bv32)
    requires EscapeAt(t, p, high) && IsHigh(high) && forall low :: IsLow(low) ==> !EscapeAt(t, p + 6, low)
    ensures ItemAt(t, p) == Malformed
  {
    EscapeIsUnit(t, p, high);
    hide HexQuad, Utf8, PairValue, EscapeAt;
    if p + 8 <= |t| && t[p + 6] == BACKSLASH && t[p + 7] == 0x75 && HexQuad(t, p + 8).Some? {
      EscapeOfUnit(t, p + 6, HexQuad(t, p + 8).value);
    }
  }

  lemma {:induction false} EscapeOfUnit(t: Text, p: nat, unit: bv32)
    requires p + 2 <= |t| && t[p] == BACKSLASH && t[p + 1] == 0x75 && HexQuad(t, p + 2) == Some(unit)
    ensures EscapeAt(t, p, unit)
  {
    MarksAre(t[p]);
    MarksAre(t[p + 1]);
    QuadIsSpelled(t, p + 2, unit);
    HasRoom(t, p + 2, unit);
  }

  lemma {:induction false} PairRead(t: Text, p: nat, high: bv32, low: bv32)
    requires EscapeAt(t, p, high) && IsHigh(high) && EscapeAt(t, p + 6, low) && IsLow(low)
    ensures ItemAt(t, p).Bytes? && ItemAt(t, p).next == p + 12 && DecodeUtf8(ItemAt(t, p).bytes) == Some(PairValue(high, low))
  {
    EscapeIsUnit(t, p, high);
    EscapeIsUnit(t, p + 6, low);
    hide HexQuad, DecodeUtf8, Utf8, PairValue;
    if IsLow(low) {
      SurrogatePairs(high, low);
      Utf8RoundTrip(PairValue(high, low));
    }
  }

  lemma {:induction false} HexBelow(ch: Byte)
    ensures HexValue(ch).Some? ==> HexValue(ch).value < 16
  {
  }

  lemma {:induction false} QuadBound(a: bv32, b: bv32, c: bv32, d: bv32)
    requires a < 16 && b < 16 && c < 16 && d < 16
    ensures FourDigits(a, b, c, d) <= 0xffff
  {
  }

  lemma {:induction false} QuadBelow(t: Text, p: nat)
    ensures HexQuad(t, p).Some? ==> HexQuad(t, p).value <= 0xffff
  {
    hide HexValue, FourDigits, AddDigit;
    if HexQuad(t, p).Some? {
      Unfolded(t, p);
      HexBelow(t[p]);
      HexBelow(t[p + 1]);
      HexBelow(t[p + 2]);
      HexBelow(t[p + 3]);
      QuadBound(HexValue(t[p]).value, HexValue(t[p + 1]).value, HexValue(t[p + 2]).value, HexValue(t[p + 3]).value);
    }
  }
}
