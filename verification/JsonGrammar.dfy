/**
  The texts that the parser accepts, as a grammar that knows nothing of the parser (sections 2 to 7 of RFC 8259, with
  white space as wide as the program has it): whatever is accepted is spelled by the grammar and means the value
  returned, and every spelling without a malformed escape is accepted.
 */
module JsonGrammar {
  import opened JsonText
  import opened JsonString
  import opened JsonTree
  import opened JsonParser
  import opened JsonRoundTrip
  import opened Wrappers

  // ----- Spellings -----

  /**
    A part of a string literal. The program reads four bytes after \u that are not all hexadecimal digits as NUL. It may
    then meet a quote in the middle of the literal, or take a backslash and the closing quote for an escape.
   */
  datatype Part = Good(piece: Piece) | Malformed(four: Bytes) | StrayQuote | StrayBackslash {
    ghost predicate Legal() {
      match this
      case Good(piece) => piece.Valid()
      case Malformed(four) => |four| == 4 && !AllHex(four)
      case _ => true
    }

    function Text(): Bytes {
      match this
      case Good(piece) => piece.Text()
      case Malformed(four) => [BACKSLASH, LETTER_u] + four
      case StrayQuote => [QUOTE]
      case StrayBackslash => [BACKSLASH]
    }

    ghost function Meaning(): Bytes {
      match this
      case Good(piece) => if piece.Valid() then piece.Meaning() else []
      case Malformed(_) => [NUL]
      case _ => [QUOTE]
    }
  }

  ghost predicate AllLegal(parts: seq<Part>) {
    forall i :: 0 <= i < |parts| ==> parts[i].Legal() && (parts[i].StrayBackslash? ==> i == |parts| - 1)
  }

  /** No part is malformed or stray. */
  ghost predicate AllGood(parts: seq<Part>) {
    forall i :: 0 <= i < |parts| ==> parts[i].Good?
  }

  ghost predicate NoneMalformed(parts: seq<Part>) {
    forall i :: 0 <= i < |parts| ==> !parts[i].Malformed?
  }

  /** Stray parts come with malformed ones only. */
  ghost predicate Spells(parts: seq<Part>) {
    AllLegal(parts) && (NoneMalformed(parts) ==> AllGood(parts))
  }

  function PartsText(parts: seq<Part>): Bytes {
    if parts == [] then [] else parts[0].Text() + PartsText(parts[1..])
  }

  ghost function PartsMeaning(parts: seq<Part>): Bytes {
    if parts == [] then [] else parts[0].Meaning() + PartsMeaning(parts[1..])
  }

  /** How a value is written down. */
  datatype Syntax =
    | NullWord
    | FalseWord
    | TrueWord
    | Numeral(minus: bool, digits: Bytes)
    | Literal(parts: seq<Part>)
    | EmptyArray(gap: Bytes)
    | FullArray(elements: seq<Element>)
    | EmptyObject(gap: Bytes)
    | FullObject(entries: seq<Entry>)

  /** A value between white space. */
  datatype Element = Element(before: Bytes, value: Syntax, after: Bytes)

  /** White space, a key, white space and, behind a colon, a value between white space. */
  datatype Entry = Entry(before: Bytes, key: seq<Part>, gap: Bytes, element: Element)

  function Word(text: string): Bytes {
    seq(|text|, i requires 0 <= i < |text| => (text[i] as int % 256) as byte)
  }

  function Text(c: Syntax): Bytes
    decreases c, 0
  {
    match c
    case NullWord => Word("null")
    case FalseWord => Word("false")
    case TrueWord => Word("true")
    case Numeral(minus, digits) => (if minus then Word("-") else []) + digits
    case Literal(parts) => Word("\"") + PartsText(parts) + Word("\"")
    case EmptyArray(gap) => Word("[") + gap + Word("]")
    case FullArray(elements) => Word("[") + ElementsText(elements) + Word("]")
    case EmptyObject(gap) => Word("{") + gap + Word("}")
    case FullObject(entries) => Word("{") + EntriesText(entries) + Word("}")
  }

  function ElementText(e: Element): Bytes
    decreases e, 0
  {
    e.before + Text(e.value) + e.after
  }

  function ElementsText(elements: seq<Element>): Bytes
    decreases elements, 0
  {
    if elements == [] then []
    else ElementText(elements[0]) + (if |elements| > 1 then Word(",") + ElementsText(elements[1..]) else [])
  }

  function EntryText(e: Entry): Bytes
    decreases e, 0
  {
    e.before + Word("\"") + PartsText(e.key) + Word("\"") + e.gap + Word(":") + ElementText(e.element)
  }

  function EntriesText(entries: seq<Entry>): Bytes
    decreases entries, 0
  {
    if entries == [] then []
    else EntryText(entries[0]) + (if |entries| > 1 then Word(",") + EntriesText(entries[1..]) else [])
  }

  ghost predicate White(w: Bytes) {
    forall i :: 0 <= i < |w| ==> w[i] <= SPACE
  }

  function Value(minus: bool, digits: Bytes): int {
    var n: int := DigitsValue(digits);
    if minus then -n else n
  }

  ghost predicate Correct(c: Syntax)
    decreases c, 0
  {
    match c
    case Numeral(minus, digits) =>
      digits != [] && (forall i :: 0 <= i < |digits| ==> IsDigit(digits[i])) && IsInt(Value(minus, digits))
    case Literal(parts) => Spells(parts)
    case EmptyArray(gap) => White(gap)
    case FullArray(elements) => elements != [] && CorrectElements(elements)
    case EmptyObject(gap) => White(gap)
    case FullObject(entries) => entries != [] && CorrectEntries(entries)
    case _ => true
  }

  ghost predicate CorrectElement(e: Element)
    decreases e, 0
  {
    White(e.before) && White(e.after) && Correct(e.value)
  }

  ghost predicate CorrectElements(elements: seq<Element>)
    decreases elements, 0
  {
    elements != [] ==> CorrectElement(elements[0]) && CorrectElements(elements[1..])
  }

  ghost predicate CorrectEntry(e: Entry)
    decreases e, 0
  {
    White(e.before) && White(e.gap) && Spells(e.key) && CorrectElement(e.element)
  }

  ghost predicate CorrectEntries(entries: seq<Entry>)
    decreases entries, 0
  {
    entries != [] ==> CorrectEntry(entries[0]) && CorrectEntries(entries[1..])
  }

  lemma ElementParts(e: Element)
    requires CorrectElement(e)
    ensures White(e.before) && White(e.after) && Correct(e.value)
  {}

  lemma EntryParts(e: Entry)
    requires CorrectEntry(e)
    ensures White(e.before) && White(e.gap) && Spells(e.key)
    ensures White(e.element.before) && White(e.element.after) && Correct(e.element.value)
  {
    ElementParts(e.element);
  }

  // ----- Meaning -----

  ghost function Meaning(c: Syntax): Json
    decreases c, 0
  {
    match c
    case NullWord => Null
    case FalseWord => False
    case TrueWord => True
    case Numeral(minus, digits) => Number(Value(minus, digits))
    case Literal(parts) => String(CString(PartsMeaning(parts)))
    case EmptyArray(_) => Array([])
    case FullArray(elements) => Array(ElementsMeaning(elements))
    case EmptyObject(_) => Object([])
    case FullObject(entries) => Object(EntriesMeaning(entries))
  }

  ghost function ElementsMeaning(elements: seq<Element>): seq<Json>
    decreases elements, 0
  {
    if elements == [] then [] else [Meaning(elements[0].value)] + ElementsMeaning(elements[1..])
  }

  ghost function EntryMeaning(e: Entry): Member
    decreases e, 0
  {
    Member(CString(PartsMeaning(e.key)), Meaning(e.element.value))
  }

  ghost function EntriesMeaning(entries: seq<Entry>): seq<Member>
    decreases entries, 0
  {
    if entries == [] then [] else [EntryMeaning(entries[0])] + EntriesMeaning(entries[1..])
  }

  // ----- Literals -----

  /** One decoding step reads one part. */
  lemma StepIsPart(s: Bytes, p: nat, end: nat) returns (part: Part)
    requires p < end < |s| && s[end] == QUOTE && DecodeStep(s, p, end).Step?
    ensures var r := DecodeStep(s, p, end);
      part.Legal() && part.Text() == s[p..Min(p + r.length, end)] && part.Meaning() == r.output
      && (part.StrayBackslash? ==> p + 1 == end)
  {
    hide Utf8;
    if s[p] == QUOTE {
      part := StrayQuote;
    } else if s[p] != BACKSLASH {
      part := Good(Raw(s[p]));
    } else if s[p + 1] == LETTER_u {
      part := UnitIsPart(s, p, end);
    } else if p + 1 == end {
      part := StrayBackslash;
      assert s[p..end] == [s[p]];
    } else {
      part := Good(Short(s[p + 1]));
      assert s[p..p + 2] == [s[p], s[p + 1]];
    }
  }

  lemma UnitIsPart(s: Bytes, p: nat, end: nat) returns (part: Part)
    requires p + 1 < end < |s| && s[p] == BACKSLASH && s[p + 1] == LETTER_u && Utf16Literal(s, p, end).Literal?
    ensures var l := Utf16Literal(s, p, end);
      part.Legal() && part.Text() == s[p..p + l.length] && part.Meaning() == Utf8(l.code) && !part.StrayBackslash?
  {
    hide Utf8, Hex4;
    var l := Utf16Literal(s, p, end);
    var high := s[p + 2..p + 6];
    HexSlice(s, p + 2);
    if l.length == 12 {
      var low := s[p + 8..p + 12];
      HexSlice(s, p + 8);
      NoHex(s, p + 2);
      NoHex(s, p + 8);
      part := Good(Pair(high, low));
      assert s[p..p + 12] == [s[p], s[p + 1]] + high + [s[p + 6], s[p + 7]] + low;
      Surrogates(Hex4(high, 0), Hex4(low, 0));
    } else if AllHex(high) {
      part := Good(Unit(high));
      assert s[p..p + 6] == [s[p], s[p + 1]] + high;
    } else {
      part := Malformed(high);
      assert s[p..p + 6] == [s[p], s[p + 1]] + high;
      NotHex(s, p + 2);
      NulUtf8();
    }
  }

  lemma NulUtf8()
    ensures Utf8(0) == [NUL]
  {}

  lemma Surrogates(h: nat, l: nat)
    requires 0xD800 <= h <= 0xDBFF && 0xDC00 <= l <= 0xDFFF
    ensures h % 1024 * 1024 + l % 1024 == (h - 0xD800) * 1024 + (l - 0xDC00)
  {
    assert h % 1024 == h - 0xD800 && l % 1024 == l - 0xDC00;
  }

  lemma HexSlice(s: Bytes, i: nat)
    requires i + 4 <= |s|
    ensures Hex4(s[i..i + 4], 0) == Hex4(s, i)
  {}

  lemma NoHex(s: Bytes, i: nat)
    requires i + 4 <= |s| && Hex4(s, i) != 0
    ensures AllHex(s[i..i + 4])
  {}

  lemma NotHex(s: Bytes, i: nat)
    requires i + 4 <= |s| && !AllHex(s[i..i + 4])
    ensures Hex4(s, i) == 0
  {}

  /** A part that is not malformed leaves scan and decoder in step. */
  lemma PartScanned(s: Bytes, p: nat, end: nat, part: Part)
    requires p < end < |s| && part.Legal() && !part.Malformed? && FindEnd(s, p) == Some(end)
    requires p + |part.Text()| <= end && s[p..p + |part.Text()|] == part.Text() && (part.StrayBackslash? ==> p + 1 == end)
    ensures part.Good? && FindEnd(s, p + |part.Text()|) == Some(end)
  {
    assert |part.Text()| > 0 && s[p..p + |part.Text()|][0] == s[p];
    if part.Good? {
      PieceDecoded(s, p, part.piece, end);
    }
  }

  function Min(a: nat, b: nat): nat {
    if a < b then a else b
  }

  /** What is decoded up to the closing quote is spelled by parts, all of them good if the scan is in step and none malformed. */
  lemma {:induction false} DecodedIsParts(s: Bytes, p: nat, end: nat) returns (parts: seq<Part>)
    requires p <= end < |s| && s[end] == QUOTE && Decode(s, p, end).Some?
    ensures AllLegal(parts) && s[p..end] == PartsText(parts) && PartsMeaning(parts) == Decode(s, p, end).value
    ensures FindEnd(s, p) == Some(end) && NoneMalformed(parts) ==> AllGood(parts)
    ensures p == end ==> parts == []
    decreases end - p
  {
    hide DecodeStep, FindEnd, Part.Text, Part.Meaning, Part.Legal;
    if p == end {
      parts := [];
    } else {
      var n := DecodeStep(s, p, end).length;
      var part := StepIsPart(s, p, end);
      var q := Min(p + n, end);
      var more := DecodedIsParts(s, q, end);
      parts := [part] + more;
      assert parts[1..] == more;
      assert s[p..end] == s[p..q] + s[q..end];
      if FindEnd(s, p) == Some(end) && !part.Malformed? {
        PartScanned(s, p, end, part);
        assert forall i :: 0 <= i < |more| ==> more[i] == parts[i + 1];
      }
    }
  }

  lemma Words()
    ensures Word("null") == NULL_TEXT && Word("false") == FALSE_TEXT && Word("true") == TRUE_TEXT
    ensures Word("-") == [MINUS] && Word("\"") == [QUOTE] && Word(",") == [COMMA] && Word(":") == [COLON]
    ensures Word("[") == [LBRACKET] && Word("]") == [RBRACKET] && Word("{") == [LBRACE] && Word("}") == [RBRACE]
  {}

  lemma TextIsParts(s: Bytes) returns (parts: seq<Part>)
    requires ParseText(s).Ok?
    ensures Spells(parts) && s == [QUOTE] + PartsText(parts) + [QUOTE] + ParseText(s).rest
    ensures ParseText(s).value == CString(PartsMeaning(parts))
  {
    hide Decode, FindEnd, PartsText, PartsMeaning;
    var end := FindEnd(s, 1).value;
    parts := DecodedIsParts(s, 1, end);
    assert s == [s[0]] + s[1..end] + [s[end]] + s[end + 1..];
  }

  // ----- Soundness -----

  lemma {:induction false} SpaceDropped(s: Bytes) returns (w: Bytes)
    ensures White(w) && s == w + DropSpace(s)
  {
    if s != [] && s[0] <= SPACE {
      var more := SpaceDropped(s[1..]);
      w := [s[0]] + more;
    } else {
      w := [];
    }
  }

  /** What is skipped is white space, if something else follows. */
  lemma GapSkipped(s: Bytes) returns (w: Bytes)
    requires Skip(s) != [] && Skip(s)[0] > SPACE
    ensures White(w) && s == w + Skip(s)
  {
    w := SpaceDropped(s);
  }

  /** What strtod reads as an integer is a sign and digits. */
  lemma IntegerIsSaid(token: Bytes, length: nat)
    requires token != [] && token[0] != PLUS && ReadNumber(token).Integer? && ReadNumber(token).length == length
    ensures
      var sign := if token[0] == MINUS then 1 else 0;
      var digits := token[sign..length];
      digits != [] && (forall i :: 0 <= i < |digits| ==> IsDigit(digits[i]))
      && ReadNumber(token).n == Value(sign == 1, digits) && IsInt(ReadNumber(token).n)
  {
    hide DigitsValue;
    var sign := if token[0] == MINUS then 1 else 0;
    var k := DigitCount(token[sign..]);
    assert token[sign..][..k] == token[sign..length];
  }

  lemma NumeralText(t: Bytes, sign: nat)
    requires sign <= |t| && (sign == 0 || (sign == 1 && t[0] == MINUS))
    ensures Text(Numeral(sign == 1, t[sign..])) == t
  {
    Words();
  }

  /** An accepted number is a sign and digits. */
  lemma NumberIsSaid(s: Bytes) returns (c: Syntax)
    requires s != [] && (s[0] == MINUS || IsDigit(s[0])) && ParseNumber(s).Ok?
    ensures Correct(c) && s == Text(c) + ParseNumber(s).rest && Meaning(c) == ParseNumber(s).value
  {
    hide ReadNumber, DigitsValue, Text, Value;
    var token := Token(s);
    assert token[0] == s[0];
    var length := ReadNumber(token).length;
    IntegerIsSaid(token, length);
    var sign := if token[0] == MINUS then 1 else 0;
    c := Numeral(sign == 1, token[sign..length]);
    assert token[..length][sign..] == token[sign..length];
    assert token[..length] == s[..length];
    NumeralText(s[..length], sign);
  }

  lemma {:induction false} ValueIsSaid(s: Bytes, depth: nat) returns (c: Syntax)
    requires ParseValue(s, depth).Ok? && depth <= NESTING_LIMIT
    ensures Correct(c) && s == Text(c) + ParseValue(s, depth).rest && Meaning(c) == ParseValue(s, depth).value
    ensures depth + Nesting(Meaning(c)) <= NESTING_LIMIT
    decreases |s|, 1
  {
    hide ParseItems, ParseMembers, ParseText, ParseNumber, Skip, PartsText, PartsMeaning, ElementsText, EntriesText;
    Words();
    var rest := ParseValue(s, depth).rest;
    if NULL_TEXT <= s {
      c := NullWord;
    } else if FALSE_TEXT <= s {
      c := FalseWord;
    } else if TRUE_TEXT <= s {
      c := TrueWord;
    } else if s[0] == QUOTE {
      var parts := TextIsParts(s);
      c := Syntax.Literal(parts);
    } else if s[0] == MINUS || IsDigit(s[0]) {
      c := NumberIsSaid(s);
    } else if s[0] == LBRACKET {
      c := ArrayIsSaid(s, depth);
    } else {
      c := ObjectIsSaid(s, depth);
    }
  }

  /** How an array is parsed. */
  lemma ArrayParts(s: Bytes, depth: nat)
    requires s != [] && s[0] == LBRACKET && ParseValue(s, depth).Ok?
    ensures depth < NESTING_LIMIT
    ensures
      var next := Skip(s[1..]);
      if next != [] && next[0] == RBRACKET then ParseValue(s, depth) == Ok(Array([]), next[1..])
      else
        ParseItems(next, depth + 1).Ok? && next != [] && next[0] > SPACE
        && ParseValue(s, depth) == Ok(Array(ParseItems(next, depth + 1).value), ParseItems(next, depth + 1).rest)
  {
    hide ParseItems, Skip;
    if ParseItems(Skip(s[1..]), depth + 1).Ok? {
      ItemsHeadVisible(Skip(s[1..]), depth + 1);
    }
  }

  lemma ItemsHeadVisible(s: Bytes, depth: nat)
    requires ParseItems(s, depth).Ok?
    ensures s != [] && s[0] > SPACE
  {
    hide ParseMembers, ParseText, ParseNumber, Skip;
  }

  lemma ArrayNesting(items: seq<Json>)
    ensures Nesting(Array(items)) == 1 + ItemsNesting(items) && ItemsNesting([]) == 0
  {}

  /** Brackets around a text, in front of the rest. */
  lemma Enclosed(open: byte, gap: Bytes, next: Bytes, body: Bytes, close: byte, rest: Bytes)
    requires gap + next == body + [close] + rest
    ensures [open] + (gap + next) == [open] + body + [close] + rest
  {}

  lemma {:induction false} ArrayIsSaid(s: Bytes, depth: nat) returns (c: Syntax)
    requires s != [] && s[0] == LBRACKET && ParseValue(s, depth).Ok? && depth <= NESTING_LIMIT
    ensures Correct(c) && s == Text(c) + ParseValue(s, depth).rest && Meaning(c) == ParseValue(s, depth).value
    ensures depth + Nesting(Meaning(c)) <= NESTING_LIMIT
    decreases |s|, 0
  {
    hide ParseValue, ParseItems, Skip, ElementsText, Word, Nesting, ItemsNesting;
    Words();
    ArrayParts(s, depth);
    var next := Skip(s[1..]);
    var gap := GapSkipped(s[1..]);
    assert s == [LBRACKET] + (gap + next);
    if next[0] == RBRACKET {
      c := EmptyArray(gap);
      ArrayNesting([]);
      assert next == [RBRACKET] + next[1..];
      Enclosed(LBRACKET, gap, next, gap, RBRACKET, next[1..]);
    } else {
      var elements := ItemsAreSaid(gap, next, depth + 1);
      c := FullArray(elements);
      ArrayNesting(ElementsMeaning(elements));
      Enclosed(LBRACKET, gap, next, ElementsText(elements), RBRACKET, ParseItems(next, depth + 1).rest);
    }
  }

  /** How elements are parsed. */
  lemma ItemsParts(s: Bytes, depth: nat)
    requires ParseItems(s, depth).Ok?
    ensures ParseValue(s, depth).Ok?
    ensures
      var item, next := ParseValue(s, depth).value, Skip(ParseValue(s, depth).rest);
      next != [] &&
      if next[0] == COMMA then
        var s' := Skip(next[1..]);
        s' != [] && s'[0] > SPACE && ParseItems(s', depth).Ok? && |s'| < |s|
        && ParseItems(s, depth) == Ok([item] + ParseItems(s', depth).value, ParseItems(s', depth).rest)
      else next[0] == RBRACKET && ParseItems(s, depth) == Ok([item], next[1..])
  {
    hide ParseValue, Skip;
    var next := Skip(ParseValue(s, depth).rest);
    if next != [] && next[0] == COMMA {
      ItemsHeadVisible(Skip(next[1..]), depth);
    }
  }

  lemma ElementsCons(e: Element, more: seq<Element>)
    ensures ElementsText([e] + more) == e.before + Text(e.value) + e.after + (if more == [] then [] else [COMMA] + ElementsText(more))
    ensures ElementsMeaning([e] + more) == [Meaning(e.value)] + ElementsMeaning(more)
    ensures CorrectElements([e] + more) <==> CorrectElement(e) && CorrectElements(more)
    ensures ItemsNesting([Meaning(e.value)] + ElementsMeaning(more)) ==
      JsonTree.Max(Nesting(Meaning(e.value)), ItemsNesting(ElementsMeaning(more)))
  {
    hide Text, Correct, Meaning, Nesting;
    Words();
    assert ([e] + more)[1..] == more;
    assert ([Meaning(e.value)] + ElementsMeaning(more))[1..] == ElementsMeaning(more);
  }

  lemma NoElements()
    ensures ElementsMeaning([]) == [] && CorrectElements([]) && ItemsNesting([]) == 0
  {}

  /** Elements up to the closing bracket, with white space in front. */
  lemma {:induction false} ItemsAreSaid(gap: Bytes, s: Bytes, depth: nat) returns (elements: seq<Element>)
    requires White(gap) && ParseItems(s, depth).Ok? && depth <= NESTING_LIMIT
    ensures elements != [] && CorrectElements(elements)
    ensures gap + s == ElementsText(elements) + [RBRACKET] + ParseItems(s, depth).rest
    ensures ElementsMeaning(elements) == ParseItems(s, depth).value
    ensures depth + ItemsNesting(ElementsMeaning(elements)) <= NESTING_LIMIT
    decreases |s|, 2
  {
    hide ParseValue, ParseItems, Skip, Text, Correct, Meaning, Nesting, ItemsNesting, ElementsMeaning, ElementsText, CorrectElements;
    ItemsParts(s, depth);
    var value := ValueIsSaid(s, depth);
    var next := Skip(ParseValue(s, depth).rest);
    var after := GapSkipped(ParseValue(s, depth).rest);
    var e := Element(gap, value, after);
    NoElements();
    assert gap + s == gap + Text(value) + after + next;
    if next[0] == COMMA {
      var before := GapSkipped(next[1..]);
      var more := ItemsAreSaid(before, Skip(next[1..]), depth);
      ElementsCons(e, more);
      elements := [e] + more;
      assert next == [COMMA] + (before + Skip(next[1..]));
    } else {
      ElementsCons(e, []);
      elements := [e];
      assert [e] + [] == [e];
      assert next == [RBRACKET] + next[1..];
    }
  }

  // ----- Objects -----

  lemma MembersHeadVisible(s: Bytes, depth: nat)
    requires ParseMembers(s, depth).Ok?
    ensures s != [] && s[0] > SPACE
  {
    hide ParseValue, Skip, FindEnd, Decode;
  }

  /** How an object is parsed. */
  lemma ObjectParts(s: Bytes, depth: nat)
    requires s != [] && s[0] == LBRACE && ParseValue(s, depth).Ok?
    ensures depth < NESTING_LIMIT
    ensures
      var next := Skip(s[1..]);
      if next != [] && next[0] == RBRACE then ParseValue(s, depth) == Ok(Object([]), next[1..])
      else
        ParseMembers(next, depth + 1).Ok? && next != [] && next[0] > SPACE
        && ParseValue(s, depth) == Ok(Object(ParseMembers(next, depth + 1).value), ParseMembers(next, depth + 1).rest)
  {
    hide ParseMembers, Skip;
    if ParseMembers(Skip(s[1..]), depth + 1).Ok? {
      MembersHeadVisible(Skip(s[1..]), depth + 1);
    }
  }

  lemma ObjectNests(members: seq<Member>)
    ensures Nesting(Object(members)) == 1 + MembersNesting(members) && MembersNesting([]) == 0
  {}

  lemma {:induction false} ObjectIsSaid(s: Bytes, depth: nat) returns (c: Syntax)
    requires s != [] && s[0] == LBRACE && ParseValue(s, depth).Ok? && depth <= NESTING_LIMIT
    ensures Correct(c) && s == Text(c) + ParseValue(s, depth).rest && Meaning(c) == ParseValue(s, depth).value
    ensures depth + Nesting(Meaning(c)) <= NESTING_LIMIT
    decreases |s|, 0
  {
    hide ParseValue, ParseMembers, Skip, EntriesText, Word, Nesting, MembersNesting;
    Words();
    ObjectParts(s, depth);
    var next := Skip(s[1..]);
    var gap := GapSkipped(s[1..]);
    assert s == [LBRACE] + (gap + next);
    if next[0] == RBRACE {
      c := EmptyObject(gap);
      ObjectNests([]);
      assert next == [RBRACE] + next[1..];
      Enclosed(LBRACE, gap, next, gap, RBRACE, next[1..]);
    } else {
      var entries := MembersAreSaid(gap, next, depth + 1);
      c := FullObject(entries);
      ObjectNests(EntriesMeaning(entries));
      Enclosed(LBRACE, gap, next, EntriesText(entries), RBRACE, ParseMembers(next, depth + 1).rest);
    }
  }

  /** What follows a key. */
  function AfterKey(s: Bytes): Bytes
    requires ParseText(s).Ok?
  {
    Skip(ParseText(s).rest)
  }

  /** How members are parsed. */
  lemma MembersParts(s: Bytes, depth: nat)
    requires ParseMembers(s, depth).Ok?
    ensures ParseText(s).Ok? && AfterKey(s) != [] && AfterKey(s)[0] == COLON
    ensures
      var from := Skip(AfterKey(s)[1..]);
      |from| < |s| && ParseValue(from, depth).Ok? && from != [] && from[0] > SPACE
      && var member, next := Member(ParseText(s).value, ParseValue(from, depth).value), Skip(ParseValue(from, depth).rest);
         next != [] &&
         if next[0] == COMMA then
           var s' := Skip(next[1..]);
           s' != [] && s'[0] > SPACE && ParseMembers(s', depth).Ok? && |s'| < |s|
           && ParseMembers(s, depth) == Ok([member] + ParseMembers(s', depth).value, ParseMembers(s', depth).rest)
         else next[0] == RBRACE && ParseMembers(s, depth) == Ok([member], next[1..])
  {
    hide ParseValue, ParseText, Skip;
    var from := Skip(AfterKey(s)[1..]);
    ValueHeadVisible(from, depth);
    var next := Skip(ParseValue(from, depth).rest);
    if next != [] && next[0] == COMMA {
      MembersHeadVisible(Skip(next[1..]), depth);
    }
  }

  lemma ValueHeadVisible(s: Bytes, depth: nat)
    requires ParseValue(s, depth).Ok?
    ensures s != [] && s[0] > SPACE
  {
    hide ParseItems, ParseMembers, ParseText, ParseNumber, Skip;
  }

  lemma EntriesCons(e: Entry, more: seq<Entry>)
    ensures EntriesText([e] + more) ==
      e.before + [QUOTE] + PartsText(e.key) + [QUOTE] + e.gap + [COLON] + (e.element.before + Text(e.element.value) + e.element.after)
      + (if more == [] then [] else [COMMA] + EntriesText(more))
    ensures EntriesMeaning([e] + more) == [EntryMeaning(e)] + EntriesMeaning(more)
    ensures CorrectEntries([e] + more) <==> CorrectEntry(e) && CorrectEntries(more)
    ensures MembersNesting([EntryMeaning(e)] + EntriesMeaning(more)) ==
      JsonTree.Max(Nesting(EntryMeaning(e).value), MembersNesting(EntriesMeaning(more)))
  {
    hide Text, Correct, Meaning, Nesting, PartsText, PartsMeaning, EntryMeaning, CorrectEntry;
    Words();
    assert ([e] + more)[1..] == more;
    assert EntryText(e) ==
      e.before + [QUOTE] + PartsText(e.key) + [QUOTE] + e.gap + [COLON] + (e.element.before + Text(e.element.value) + e.element.after);
    assert ([EntryMeaning(e)] + EntriesMeaning(more))[1..] == EntriesMeaning(more);
  }

  lemma NoEntries()
    ensures EntriesMeaning([]) == [] && CorrectEntries([]) && MembersNesting([]) == 0
  {}

  /** Members up to the closing brace, with white space in front. */
  lemma {:induction false} MembersAreSaid(gap: Bytes, s: Bytes, depth: nat) returns (entries: seq<Entry>)
    requires White(gap) && ParseMembers(s, depth).Ok? && depth <= NESTING_LIMIT
    ensures entries != [] && CorrectEntries(entries)
    ensures gap + s == EntriesText(entries) + [RBRACE] + ParseMembers(s, depth).rest
    ensures EntriesMeaning(entries) == ParseMembers(s, depth).value
    ensures depth + MembersNesting(EntriesMeaning(entries)) <= NESTING_LIMIT
    decreases |s|, 2
  {
    hide ParseValue, ParseMembers, ParseText, Skip, Text, Correct, Meaning, Nesting, MembersNesting, EntriesMeaning, EntriesText,
      CorrectEntries, PartsText, PartsMeaning, Spells;
    MembersParts(s, depth);
    var parts := TextIsParts(s);
    var colonGap := GapSkipped(ParseText(s).rest);
    var from := Skip(AfterKey(s)[1..]);
    var before := GapSkipped(AfterKey(s)[1..]);
    var value := ValueIsSaid(from, depth);
    var next := Skip(ParseValue(from, depth).rest);
    var after := GapSkipped(ParseValue(from, depth).rest);
    var e := Entry(gap, parts, colonGap, Element(before, value, after));
    NoEntries();
    EntrySpelled(gap, s, parts, colonGap, before, Text(value), after, ParseText(s).rest, AfterKey(s), from, next);
    if next[0] == COMMA {
      var gap' := GapSkipped(next[1..]);
      var more := MembersAreSaid(gap', Skip(next[1..]), depth);
      EntriesCons(e, more);
      entries := [e] + more;
      assert next == [COMMA] + (gap' + Skip(next[1..]));
    } else {
      EntriesCons(e, []);
      entries := [e];
      assert [e] + [] == [e];
      assert next == [RBRACE] + next[1..];
    }
  }

  lemma EntrySpelled(gap: Bytes, s: Bytes, parts: seq<Part>, colonGap: Bytes, before: Bytes, value: Bytes, after: Bytes,
                     rest: Bytes, afterKey: Bytes, from: Bytes, next: Bytes)
    requires s == [QUOTE] + PartsText(parts) + [QUOTE] + rest && rest == colonGap + afterKey
    requires afterKey != [] && afterKey[0] == COLON && afterKey[1..] == before + from && from == value + (after + next)
    ensures gap + s ==
      gap + [QUOTE] + PartsText(parts) + [QUOTE] + colonGap + [COLON] + (before + value + after) + next
  {
    hide PartsText;
    assert afterKey == [COLON] + (before + (value + (after + next)));
  }

  // ----- Completeness -----

  /** No escape of the text is malformed. */
  ghost predicate Plain(c: Syntax)
    decreases c, 0
  {
    match c
    case Literal(parts) => NoneMalformed(parts)
    case FullArray(elements) => PlainElements(elements)
    case FullObject(entries) => PlainEntries(entries)
    case _ => true
  }

  ghost predicate PlainElements(elements: seq<Element>)
    decreases elements, 0
  {
    elements != [] ==> Plain(elements[0].value) && PlainElements(elements[1..])
  }

  ghost predicate PlainEntries(entries: seq<Entry>)
    decreases entries, 0
  {
    entries != [] ==> NoneMalformed(entries[0].key) && Plain(entries[0].element.value) && PlainEntries(entries[1..])
  }

  lemma {:induction false} PartsArePieces(parts: seq<Part>) returns (pieces: seq<Piece>)
    requires AllLegal(parts) && AllGood(parts)
    ensures WellFormed(pieces) && LiteralText(pieces) == PartsText(parts) && LiteralMeaning(pieces) == PartsMeaning(parts)
  {
    if parts == [] {
      pieces := [];
    } else {
      var more := PartsArePieces(parts[1..]);
      pieces := [parts[0].piece] + more;
      assert pieces[1..] == more;
    }
  }

  lemma PartsAreText(parts: seq<Part>, rest: Bytes)
    requires Spells(parts) && NoneMalformed(parts)
    ensures ParseText([QUOTE] + PartsText(parts) + [QUOTE] + rest) == Ok(CString(PartsMeaning(parts)), rest)
  {
    hide PartsText, PartsMeaning, ParseLiteral;
    var pieces := PartsArePieces(parts);
    LiteralDecoded(pieces, rest);
  }

  lemma WordIsParsed(c: Syntax, depth: nat, rest: Bytes)
    requires c.NullWord? || c.FalseWord? || c.TrueWord?
    ensures ParseValue(Text(c) + rest, depth) == Ok(Meaning(c), rest)
  {
    hide ParseItems, ParseMembers, ParseText, ParseNumber, Skip;
    Words();
    assert (Text(c) + rest)[..|Text(c)|] == Text(c) && (Text(c) + rest)[|Text(c)|..] == rest;
    assert (Text(c) + rest)[0] == Text(c)[0];
  }

  lemma LiteralIsParsed(parts: seq<Part>, depth: nat, rest: Bytes)
    requires Spells(parts) && NoneMalformed(parts)
    ensures ParseValue(Text(Syntax.Literal(parts)) + rest, depth) == Ok(String(CString(PartsMeaning(parts))), rest)
  {
    hide ParseItems, ParseMembers, ParseText, ParseNumber, Skip, PartsText, PartsMeaning, Spells, NoneMalformed;
    Words();
    PartsAreText(parts, rest);
    var s := Text(Syntax.Literal(parts)) + rest;
    assert s == [QUOTE] + PartsText(parts) + [QUOTE] + rest;
    assert s[0] == QUOTE;
  }

  lemma NumeralIsParsed(minus: bool, digits: Bytes, depth: nat, rest: Bytes)
    requires Correct(Numeral(minus, digits)) && Follows(rest)
    ensures ParseValue(Text(Numeral(minus, digits)) + rest, depth) == Ok(Number(Value(minus, digits)), rest)
  {
    hide ReadNumber, Token, DigitsValue, ParseItems, ParseMembers, ParseText;
    Words();
    var t := Text(Numeral(minus, digits));
    assert t == (if minus then [MINUS] else []) + digits;
    NumeralIsRead(minus, digits);
    TokenOf(t, rest);
    assert (t + rest)[|t|..] == rest;
    assert (t + rest)[0] == t[0];
  }

  lemma NumeralIsRead(minus: bool, digits: Bytes)
    requires Correct(Numeral(minus, digits))
    ensures
      var t := (if minus then [MINUS] else []) + digits;
      ReadNumber(t) == Integer(Value(minus, digits), |t|)
  {
    hide DigitsValue;
    var t := (if minus then [MINUS] else []) + digits;
    CountDigits(digits);
    assert t[if minus then 1 else 0..] == digits;
    assert digits[..|digits|] == digits;
  }

  /** The first byte of a text is visible, and neither closes nor separates. */
  lemma TextHead(c: Syntax)
    requires Correct(c)
    ensures Text(c) != [] && Text(c)[0] > SPACE && Text(c)[0] != RBRACKET && Text(c)[0] != RBRACE
  {
    hide PartsText, ElementsText, EntriesText, Word;
    Words();
  }

  /** Elements from the first value on, up to the closing bracket and what follows. */
  function FromValue(elements: seq<Element>, rest: Bytes): Bytes
    requires elements != []
    decreases |elements|, 1
  {
    Text(elements[0].value) + (elements[0].after + AfterElement(elements, rest))
  }

  function AfterElement(elements: seq<Element>, rest: Bytes): Bytes
    requires elements != []
    decreases |elements|, 0
  {
    if |elements| == 1 then [RBRACKET] + rest else [COMMA] + (elements[1].before + FromValue(elements[1..], rest))
  }

  lemma {:induction false} ElementsSplit(elements: seq<Element>, rest: Bytes)
    requires elements != []
    ensures ElementsText(elements) + [RBRACKET] + rest == elements[0].before + FromValue(elements, rest)
  {
    hide Text, FromValue;
    var e, more := elements[0], elements[1..];
    assert elements == [e] + more;
    ElementsCons(e, more);
    if more != [] {
      ElementsSplit(more, rest);
      Regrouped(e.before, Text(e.value), e.after, ElementsText(more), rest, RBRACKET);
    }
    FromValueIs(elements, rest);
  }

  lemma FromValueIs(elements: seq<Element>, rest: Bytes)
    requires elements != []
    ensures FromValue(elements, rest) == Text(elements[0].value) + (elements[0].after + AfterElement(elements, rest))
  {
    hide Text, AfterElement;
  }

  lemma Regrouped(before: Bytes, value: Bytes, after: Bytes, more: Bytes, rest: Bytes, close: byte)
    ensures before + value + after + ([COMMA] + more) + [close] + rest
         == before + (value + (after + ([COMMA] + (more + [close] + rest))))
  {}

  /** White space does not belong to a number. */
  lemma FollowsGap(w: Bytes, s: Bytes)
    requires White(w) && s != [] && (s[0] == COMMA || s[0] == RBRACKET || s[0] == RBRACE)
    ensures Follows(w + s) && Skip(w + s) == s
  {
    SkipTo(w, s);
  }

  /** Every text without malformed escapes is accepted, with its meaning, whatever follows, up to the nesting limit. */
  lemma {:induction false} SaidIsParsed(c: Syntax, depth: nat, rest: Bytes)
    requires Correct(c) && Plain(c) && depth + Nesting(Meaning(c)) <= NESTING_LIMIT && Follows(rest)
    ensures ParseValue(Text(c) + rest, depth) == Ok(Meaning(c), rest)
    decreases c, 1
  {
    hide ParseItems, ParseMembers, ParseText, ParseNumber, Skip, PartsText, PartsMeaning, ElementsText, EntriesText, Nesting,
      ElementsMeaning, EntriesMeaning, CorrectElements, CorrectEntries, PlainElements, PlainEntries, Word, Value;
    Words();
    match c
    case NullWord => WordIsParsed(c, depth, rest);
    case FalseWord => WordIsParsed(c, depth, rest);
    case TrueWord => WordIsParsed(c, depth, rest);
    case Numeral(minus, digits) => NumeralIsParsed(minus, digits, depth, rest);
    case Literal(parts) => LiteralIsParsed(parts, depth, rest);
    case EmptyArray(gap) =>
      ArrayNesting([]);
      SkipTo(gap, [RBRACKET] + rest);
      assert Text(c) + rest == [LBRACKET] + (gap + ([RBRACKET] + rest));
      ArrayParsed(Text(c) + rest, depth, [RBRACKET] + rest, [], rest);
    case EmptyObject(gap) =>
      ObjectNests([]);
      SkipTo(gap, [RBRACE] + rest);
      assert Text(c) + rest == [LBRACE] + (gap + ([RBRACE] + rest));
      ObjectParsed(Text(c) + rest, depth, [RBRACE] + rest, [], rest);
    case FullArray(elements) => ArrayIsParsed(elements, depth, rest);
    case FullObject(entries) => ObjectIsParsed(entries, depth, rest);
  }

  lemma {:induction false} ArrayIsParsed(elements: seq<Element>, depth: nat, rest: Bytes)
    requires elements != [] && CorrectElements(elements) && PlainElements(elements)
    requires depth + Nesting(Array(ElementsMeaning(elements))) <= NESTING_LIMIT
    ensures ParseValue(Text(FullArray(elements)) + rest, depth) == Ok(Array(ElementsMeaning(elements)), rest)
    decreases elements, 1
  {
    hide ParseValue, ParseItems, Skip, Nesting, ElementsMeaning, ItemsNesting, ElementsText, PlainElements, Word, Correct;
    Words();
    ArrayNesting(ElementsMeaning(elements));
    ElementsSplit(elements, rest);
    var next := FromValue(elements, rest);
    var s := Text(FullArray(elements)) + rest;
    assert s == [LBRACKET] + (elements[0].before + next);
    TextHead(elements[0].value);
    SkipTo(elements[0].before, next);
    ElementsAreParsed(elements, depth + 1, rest);
    ElementsMany(elements);
    ArrayParsed(s, depth, next, ElementsMeaning(elements), rest);
  }

  lemma ElementsMany(elements: seq<Element>)
    requires elements != []
    ensures ElementsMeaning(elements) == [Meaning(elements[0].value)] + ElementsMeaning(elements[1..])
    ensures ItemsNesting(ElementsMeaning(elements)) ==
      JsonTree.Max(Nesting(Meaning(elements[0].value)), ItemsNesting(ElementsMeaning(elements[1..])))
  {
    hide Meaning, Nesting;
    assert ElementsMeaning(elements)[1..] == ElementsMeaning(elements[1..]);
  }

  lemma {:induction false} ElementsAreParsed(elements: seq<Element>, depth: nat, rest: Bytes)
    requires elements != [] && CorrectElements(elements) && PlainElements(elements)
    requires depth + ItemsNesting(ElementsMeaning(elements)) <= NESTING_LIMIT
    ensures ParseItems(FromValue(elements, rest), depth) == Ok(ElementsMeaning(elements), rest)
    decreases elements, 0
  {
    hide ParseValue, ParseItems, Skip, Nesting, ElementsMeaning, ItemsNesting, Text, Meaning, Plain, Correct, FromValue;
    var e, more := elements[0], elements[1..];
    assert CorrectElements(more) && PlainElements(more);
    ElementParts(e);
    ElementsMany(elements);
    FromValueIs(elements, rest);
    var s, next := FromValue(elements, rest), AfterElement(elements, rest);
    FollowsGap(e.after, next);
    SaidIsParsed(e.value, depth, e.after + next);
    if |elements| == 1 {
      NoElements();
      assert more == [] && [Meaning(e.value)] + [] == [Meaning(e.value)];
      LastItem(s, depth, Meaning(e.value), e.after + next, rest);
    } else {
      ElementParts(more[0]);
      TextHead(more[0].value);
      FromValueIs(more, rest);
      SkipTo(more[0].before, FromValue(more, rest));
      assert next[1..] == more[0].before + FromValue(more, rest);
      ElementsAreParsed(more, depth, rest);
      NextItem(s, depth, Meaning(e.value), e.after + next, FromValue(more, rest), ElementsMeaning(more), rest);
    }
  }

  /** Entries from the first key on, up to the closing brace and what follows. */
  function FromKey(entries: seq<Entry>, rest: Bytes): Bytes
    requires entries != []
    decreases |entries|, 1
  {
    var e := entries[0];
    [QUOTE] + PartsText(e.key) + [QUOTE]
    + (e.gap + ([COLON] + (e.element.before + (Text(e.element.value) + (e.element.after + AfterEntry(entries, rest))))))
  }

  function AfterEntry(entries: seq<Entry>, rest: Bytes): Bytes
    requires entries != []
    decreases |entries|, 0
  {
    if |entries| == 1 then [RBRACE] + rest else [COMMA] + (entries[1].before + FromKey(entries[1..], rest))
  }

  lemma FromKeyIs(entries: seq<Entry>, rest: Bytes)
    requires entries != []
    ensures
      var e := entries[0];
      FromKey(entries, rest) == [QUOTE] + PartsText(e.key) + [QUOTE] + (e.gap + ([COLON] + FromColon(e.element, AfterEntry(entries, rest))))
  {
    hide Text, AfterEntry, PartsText;
  }

  /** What comes behind a colon. */
  function FromColon(e: Element, next: Bytes): Bytes {
    e.before + (Text(e.value) + (e.after + next))
  }

  lemma {:induction false} EntriesSplit(entries: seq<Entry>, rest: Bytes)
    requires entries != []
    ensures EntriesText(entries) + [RBRACE] + rest == entries[0].before + FromKey(entries, rest)
  {
    hide Text, FromKey, PartsText;
    var e, more := entries[0], entries[1..];
    assert entries == [e] + more;
    EntriesCons(e, more);
    var tail := if more == [] then [RBRACE] + rest else [COMMA] + (EntriesText(more) + [RBRACE] + rest);
    EntryRegrouped(e, if more == [] then [] else [COMMA] + EntriesText(more), [RBRACE], rest);
    if more != [] {
      EntriesSplit(more, rest);
      assert [COMMA] + EntriesText(more) + [RBRACE] + rest == [COMMA] + (EntriesText(more) + [RBRACE] + rest);
    } else {
      assert [] + [RBRACE] + rest == [RBRACE] + rest;
    }
    FromKeyIs(entries, rest);
  }

  lemma EntryRegrouped(e: Entry, more: Bytes, close: Bytes, rest: Bytes)
    ensures
      e.before + [QUOTE] + PartsText(e.key) + [QUOTE] + e.gap + [COLON] + (e.element.before + Text(e.element.value) + e.element.after)
        + more + close + rest
      == e.before + ([QUOTE] + PartsText(e.key) + [QUOTE] + (e.gap + ([COLON] + FromColon(e.element, more + close + rest))))
  {
    hide Text, PartsText;
    var a, k, g, b, v, t := e.before, PartsText(e.key), e.gap, e.element.before, Text(e.element.value), e.element.after;
    var tail := more + close + rest;
    assert a + [QUOTE] + k + [QUOTE] + g + [COLON] + (b + v + t) + more + close + rest
        == a + ([QUOTE] + k + [QUOTE] + (g + ([COLON] + (b + (v + (t + tail))))));
  }

  lemma EntriesMany(entries: seq<Entry>)
    requires entries != []
    ensures EntriesMeaning(entries) == [EntryMeaning(entries[0])] + EntriesMeaning(entries[1..])
    ensures MembersNesting(EntriesMeaning(entries)) ==
      JsonTree.Max(Nesting(EntryMeaning(entries[0]).value), MembersNesting(EntriesMeaning(entries[1..])))
  {
    hide Meaning, Nesting, PartsMeaning;
    assert EntriesMeaning(entries)[1..] == EntriesMeaning(entries[1..]);
  }

  lemma {:induction false} ObjectIsParsed(entries: seq<Entry>, depth: nat, rest: Bytes)
    requires entries != [] && CorrectEntries(entries) && PlainEntries(entries)
    requires depth + Nesting(Object(EntriesMeaning(entries))) <= NESTING_LIMIT
    ensures ParseValue(Text(FullObject(entries)) + rest, depth) == Ok(Object(EntriesMeaning(entries)), rest)
    decreases entries, 1
  {
    hide ParseValue, ParseMembers, Skip, Nesting, EntriesMeaning, MembersNesting, EntriesText, PlainEntries, Word, Correct, FromKey,
      PartsText;
    Words();
    ObjectNests(EntriesMeaning(entries));
    EntriesSplit(entries, rest);
    FromKeyIs(entries, rest);
    var next := FromKey(entries, rest);
    var s := Text(FullObject(entries)) + rest;
    assert s == [LBRACE] + (entries[0].before + next);
    SkipTo(entries[0].before, next);
    EntriesAreParsed(entries, depth + 1, rest);
    EntriesMany(entries);
    ObjectParsed(s, depth, next, EntriesMeaning(entries), rest);
  }

  lemma {:induction false} EntriesAreParsed(entries: seq<Entry>, depth: nat, rest: Bytes)
    requires entries != [] && CorrectEntries(entries) && PlainEntries(entries)
    requires depth + MembersNesting(EntriesMeaning(entries)) <= NESTING_LIMIT
    ensures ParseMembers(FromKey(entries, rest), depth) == Ok(EntriesMeaning(entries), rest)
    decreases entries, 0
  {
    hide ParseMembers, Skip, Nesting, EntriesMeaning, MembersNesting, Text, Meaning, Plain, Correct, FromKey, MemberAt, PartsText,
      PartsMeaning;
    var e, more := entries[0], entries[1..];
    assert CorrectEntry(e) && CorrectEntries(more) && PlainEntries(more);
    EntryParts(e);
    EntriesMany(entries);
    FromKeyIs(entries, rest);
    var s, next := FromKey(entries, rest), AfterEntry(entries, rest);
    FollowsGap(e.element.after, next);
    EntryIsParsed(e, depth, next);
    if |entries| == 1 {
      NoEntries();
      assert more == [] && [EntryMeaning(e)] + [] == [EntryMeaning(e)];
      LastMember(s, depth, EntryMeaning(e), e.element.after + next, rest);
    } else {
      EntryParts(more[0]);
      FromKeyIs(more, rest);
      SkipTo(more[0].before, FromKey(more, rest));
      assert next[1..] == more[0].before + FromKey(more, rest);
      EntriesAreParsed(more, depth, rest);
      NextMember(s, depth, EntryMeaning(e), e.element.after + next, FromKey(more, rest), EntriesMeaning(more), rest);
    }
  }

  lemma {:induction false} EntryIsParsed(e: Entry, depth: nat, next: Bytes)
    requires CorrectEntry(e) && NoneMalformed(e.key) && Plain(e.element.value)
    requires depth + Nesting(EntryMeaning(e).value) <= NESTING_LIMIT && Follows(e.element.after + next)
    ensures
      var s := [QUOTE] + PartsText(e.key) + [QUOTE] + (e.gap + ([COLON] + FromColon(e.element, next)));
      MemberAt(s, depth, EntryMeaning(e), e.element.after + next)
    decreases e, 0
  {
    hide ParseValue, ParseText, Skip, Nesting, Text, Meaning, Plain, Correct, PartsText, PartsMeaning;
    var afterKey := [COLON] + FromColon(e.element, next);
    PartsAreText(e.key, e.gap + afterKey);
    SkipTo(e.gap, afterKey);
    TextHead(e.element.value);
    SkipTo(e.element.before, Text(e.element.value) + (e.element.after + next));
    assert afterKey[1..] == e.element.before + (Text(e.element.value) + (e.element.after + next));
    SaidIsParsed(e.element.value, depth, e.element.after + next);
  }

  // ----- Documents -----

  /** White space up to the final NUL. */
  ghost predicate ToTheEnd(tail: Bytes) {
    White(tail) && tail != [] && tail[|tail| - 1] == NUL
  }

  /**
    An accepted document is a value, with a byte order mark and white space in front. If its end is required, nothing but
    white space up to the NUL follows, and parsing ends at the NUL; otherwise it ends behind the value.
   */
  lemma DocumentIsSaid(s: Bytes, requireNullTerminated: bool) returns (mark: Bytes, gap: Bytes, c: Syntax, tail: Bytes)
    requires ParseDocument(s, requireNullTerminated).Ok?
    ensures s == mark + gap + Text(c) + tail && (mark == [] || mark == [0xEF, 0xBB, 0xBF]) && White(gap) && Correct(c)
    ensures Nesting(Meaning(c)) <= 1000 && ParseDocument(s, requireNullTerminated).value == Meaning(c)
    ensures requireNullTerminated ==> ToTheEnd(tail)
    ensures ParseDocument(s, requireNullTerminated).rest == if requireNullTerminated then [NUL] else tail
  {
    hide ParseValue, Skip, Text, Meaning, Correct, Nesting;
    var text := SkipBom(s);
    mark := MarkSkipped(s);
    var from := Skip(text);
    c := ValueIsSaid(from, 0);
    tail := ParseValue(from, 0).rest;
    ValueVisible(from, c, tail);
    gap := GapSkipped(text);
    assert s == mark + (gap + (Text(c) + tail));
    if requireNullTerminated {
      EndSkipped(tail);
    }
  }

  lemma MarkSkipped(s: Bytes) returns (mark: Bytes)
    ensures s == mark + SkipBom(s) && (mark == [] || (mark == [0xEF, 0xBB, 0xBF] && |s| > 4))
  {
    mark := if SkipBom(s) == s then [] else BOM;
  }

  lemma ValueVisible(s: Bytes, c: Syntax, tail: Bytes)
    requires Correct(c) && s == Text(c) + tail
    ensures s != [] && s[0] > SPACE
  {
    hide Text, Correct;
    TextHead(c);
  }

  /** Skipping leads to a NUL exactly when there is white space only, with a NUL at its end. */
  lemma EndSkipped(tail: Bytes)
    ensures Skip(tail) != [] && Skip(tail)[0] == NUL <==> ToTheEnd(tail)
    ensures ToTheEnd(tail) ==> Skip(tail) == [NUL]
  {
    var w := SpaceDropped(tail);
    assert DropSpace(tail) == [] ==> tail == w;
    if White(tail) {
      NoneLeft(tail);
    }
  }

  lemma {:induction false} NoneLeft(w: Bytes)
    requires White(w)
    ensures DropSpace(w) == []
  {
    if w != [] {
      NoneLeft(w[1..]);
    }
  }

  /** And whatever is so spelled is accepted. */
  lemma SaidIsDocument(mark: Bytes, gap: Bytes, c: Syntax, tail: Bytes, requireNullTerminated: bool)
    requires White(gap) && Correct(c) && Plain(c) && Nesting(Meaning(c)) <= 1000 && Follows(tail)
    requires mark == [] || (mark == [0xEF, 0xBB, 0xBF] && |gap + Text(c) + tail| > 1)
    ensures ParseDocument(mark + gap + Text(c) + tail, requireNullTerminated) ==
      if requireNullTerminated then if ToTheEnd(tail) then Ok(Meaning(c), [NUL]) else Rejected
      else Ok(Meaning(c), tail)
  {
    hide ParseValue, Skip, Text, Meaning, Correct, Plain, Nesting;
    var s := mark + gap + Text(c) + tail;
    TextHead(c);
    MarkTaken(mark, gap, c, tail);
    SkipTo(gap, Text(c) + tail);
    SaidIsParsed(c, 0, tail);
    EndSkipped(tail);
  }

  lemma MarkTaken(mark: Bytes, gap: Bytes, c: Syntax, tail: Bytes)
    requires White(gap) && Correct(c) && Text(c) != []
    requires mark == [] || (mark == [0xEF, 0xBB, 0xBF] && |gap + Text(c) + tail| > 1)
    ensures var s := mark + gap + Text(c) + tail; s != [] && SkipBom(s) == gap + (Text(c) + tail)
  {
    hide Text, Correct;
    var s := mark + gap + Text(c) + tail;
    if mark == [] {
      assert s == gap + (Text(c) + tail);
      TextSeven(c);
      assert s[0] != 0xEF;
      assert |s| > 4 ==> s[..3][0] == s[0];
    } else {
      assert s[..3] == BOM && s[3..] == gap + (Text(c) + tail);
    }
  }

  /** A text starts with a byte of ASCII. */
  lemma TextSeven(c: Syntax)
    requires Correct(c)
    ensures Text(c) != [] && Text(c)[0] < 0x80
  {
    hide PartsText, ElementsText, EntriesText, Word;
    Words();
  }
}
