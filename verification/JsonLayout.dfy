/**
  What printed JSON looks like: the unformatted text is spelled by the grammar without any white space and without leading
  zeros, and the formatted one is the same text with white space put in by six rules.
 */
module JsonLayout {
  import opened JsonText
  import opened JsonString
  import opened JsonTree
  import opened JsonRoundTrip
  import opened Wrappers
  import G = JsonGrammar

  // ----- The rules of formatting -----

  /**
    Puts white space into a text without any. `open` holds the brackets that are open.
    A brace opens a line, members stand on lines of their own, a tab follows every colon and a space every comma of an
    array; lines are indented by one tab for each open bracket, and strings are left alone.
   */
  function Formatted(s: Bytes, open: Bytes): Bytes
    decreases |s|
  {
    if s == [] then []
    else if s[0] == QUOTE then
      match FindEnd(s, 1)
      case None => s
      case Some(end) => s[..end + 1] + Formatted(s[end + 1..], open)
    else if s[0] == LBRACE && |s| > 1 && s[1] == RBRACE then
      [LBRACE] + NewLine(|open|) + [RBRACE] + Formatted(s[2..], open)
    else if s[0] == LBRACE then [LBRACE] + NewLine(|open| + 1) + Formatted(s[1..], open + [LBRACE])
    else if s[0] == RBRACE && open != [] then
      NewLine(|open| - 1) + [RBRACE] + Formatted(s[1..], open[..|open| - 1])
    else if s[0] == LBRACKET then [LBRACKET] + Formatted(s[1..], open + [LBRACKET])
    else if s[0] == RBRACKET && open != [] then [RBRACKET] + Formatted(s[1..], open[..|open| - 1])
    else if s[0] == COLON then [COLON, TAB] + Formatted(s[1..], open)
    else if s[0] == COMMA && open != [] && open[|open| - 1] == LBRACE then
      [COMMA] + NewLine(|open|) + Formatted(s[1..], open)
    else if s[0] == COMMA then [COMMA, SPACE] + Formatted(s[1..], open)
    else [s[0]] + Formatted(s[1..], open)
  }

  /** A line feed and a tab for each level. */
  function NewLine(indent: nat): Bytes {
    [NEWLINE] + seq(indent, _ => TAB)
  }

  // ----- Steps -----

  /** Bytes that the rules leave alone. */
  predicate Kept(b: byte) {
    b != QUOTE && b != LBRACE && b != RBRACE && b != LBRACKET && b != RBRACKET && b != COLON && b != COMMA
  }

  lemma {:induction false} FormattedWord(word: Bytes, rest: Bytes, open: Bytes)
    requires forall i :: 0 <= i < |word| ==> Kept(word[i])
    ensures Formatted(word + rest, open) == word + Formatted(rest, open)
  {
    if word == [] {
      assert word + rest == rest;
    } else {
      assert (word + rest)[0] == word[0] && (word + rest)[1..] == word[1..] + rest;
      FormattedWord(word[1..], rest, open);
    }
  }

  lemma QuotedEnds(text: Bytes, rest: Bytes)
    ensures var s := Quoted(text) + rest;
      s != [] && s[0] == QUOTE && FindEnd(s, 1) == Some(|Quoted(text)| - 1) && s[|Quoted(text)|..] == rest
      && s[..|Quoted(text)|] == Quoted(text)
  {
    hide FindEnd, Decode, LiteralText, EscapePieces;
    var pieces := EscapePieces(text);
    EscapesMean(text);
    var s := Quoted(text) + rest;
    assert s[1..] == LiteralText(pieces) + [QUOTE] + rest;
    PiecesDecoded(s, 1, pieces, rest);
  }

  /** Strings are left alone. */
  lemma FormattedText(text: Bytes, rest: Bytes, open: Bytes)
    ensures Formatted(Quoted(text) + rest, open) == Quoted(text) + Formatted(rest, open)
  {
    hide Quoted, FindEnd;
    QuotedEnds(text, rest);
    var s := Quoted(text) + rest;
    var end := FindEnd(s, 1).value;
    assert s[..end + 1] == Quoted(text) && s[end + 1..] == rest;
  }

  lemma FormattedColon(rest: Bytes, open: Bytes)
    ensures Formatted([COLON] + rest, open) == [COLON, TAB] + Formatted(rest, open)
  {
    assert ([COLON] + rest)[1..] == rest;
  }

  lemma FormattedComma(rest: Bytes, open: Bytes, bracket: byte)
    requires bracket == LBRACE || bracket == LBRACKET
    ensures
      Formatted([COMMA] + rest, open + [bracket]) ==
        (if bracket == LBRACE then [COMMA] + NewLine(|open| + 1) else [COMMA, SPACE]) + Formatted(rest, open + [bracket])
  {
    assert ([COMMA] + rest)[1..] == rest;
  }

  lemma FormattedClose(rest: Bytes, open: Bytes)
    ensures Formatted([RBRACKET] + rest, open + [LBRACKET]) == [RBRACKET] + Formatted(rest, open)
    ensures Formatted([RBRACE] + rest, open + [LBRACE]) == NewLine(|open|) + [RBRACE] + Formatted(rest, open)
  {
    assert ([RBRACKET] + rest)[1..] == rest && ([RBRACE] + rest)[1..] == rest;
    assert (open + [LBRACKET])[..|open|] == open && (open + [LBRACE])[..|open|] == open;
  }

  lemma FormattedOpen(rest: Bytes, open: Bytes)
    ensures Formatted([LBRACKET] + rest, open) == [LBRACKET] + Formatted(rest, open + [LBRACKET])
    ensures rest != [] && rest[0] != RBRACE ==> Formatted([LBRACE] + rest, open) == [LBRACE] + NewLine(|open| + 1) + Formatted(rest, open + [LBRACE])
  {
    assert ([LBRACKET] + rest)[1..] == rest && ([LBRACE] + rest)[1..] == rest;
  }

  lemma FormattedEmpty(rest: Bytes, open: Bytes)
    ensures Formatted([LBRACE, RBRACE] + rest, open) == [LBRACE] + NewLine(|open|) + [RBRACE] + Formatted(rest, open)
  {
    hide FindEnd, NewLine;
    var s := [LBRACE, RBRACE] + rest;
    assert s[0] == LBRACE && |s| > 1 && s[1] == RBRACE;
    assert s[2..] == rest;
    EmptyStep(s, open);
  }

  lemma EmptyStep(s: Bytes, open: Bytes)
    requires |s| > 1 && s[0] == LBRACE && s[1] == RBRACE
    ensures Formatted(s, open) == [LBRACE] + NewLine(|open|) + [RBRACE] + Formatted(s[2..], open)
  {
    hide FindEnd, NewLine;
  }

  lemma {:induction false} DigitsKept(n: nat)
    ensures forall i :: 0 <= i < |Digits(n)| ==> Kept(Digits(n)[i])
  {}

  // ----- The printer follows the rules -----

  lemma {:induction false} ValueFormatted(t: Json, indent: nat, rest: Bytes, open: Bytes)
    ensures Formatted(Render(t, false, indent) + rest, open) == Render(t, true, |open|) + Formatted(rest, open)
    decreases t, 0
  {
    hide Formatted, Quoted, RenderItems, RenderMembers, NewLine;
    match t
    case Null => FormattedWord(NULL_TEXT, rest, open);
    case False => FormattedWord(FALSE_TEXT, rest, open);
    case True => FormattedWord(TRUE_TEXT, rest, open);
    case Number(n) => NumberFormatted(n, rest, open);
    case String(text) => FormattedText(text, rest, open);
    case Array(items) => ArrayFormatted(items, indent, rest, open);
    case Object(members) => ObjectFormatted(members, indent, rest, open);
  }

  lemma NumberFormatted(n: int, rest: Bytes, open: Bytes)
    ensures Formatted(NumberText(n) + rest, open) == NumberText(n) + Formatted(rest, open)
  {
    hide Formatted, Digits;
    DigitsKept(if n < 0 then -n else n);
    FormattedWord(NumberText(n), rest, open);
  }

  lemma {:induction false} ArrayFormatted(items: seq<Json>, indent: nat, rest: Bytes, open: Bytes)
    ensures Formatted(Render(Array(items), false, indent) + rest, open) == Render(Array(items), true, |open|) + Formatted(rest, open)
    decreases items, 2
  {
    hide Formatted, RenderItems;
    var body := RenderItems(items, false, indent + 1);
    assert Render(Array(items), false, indent) + rest == [LBRACKET] + (body + ([RBRACKET] + rest));
    FormattedOpen(body + ([RBRACKET] + rest), open);
    if items == [] {
      NoItems(false, indent + 1);
      NoItems(true, |open| + 1);
      assert body + ([RBRACKET] + rest) == [RBRACKET] + rest;
    } else {
      ItemsFormatted(items, indent + 1, [RBRACKET] + rest, open);
    }
    FormattedClose(rest, open);
    assert Render(Array(items), true, |open|) + Formatted(rest, open)
        == [LBRACKET] + (RenderItems(items, true, |open| + 1) + ([RBRACKET] + Formatted(rest, open)));
  }

  lemma ItemsCons(items: seq<Json>, format: bool, indent: nat)
    requires items != []
    ensures RenderItems(items, format, indent) == Render(items[0], format, indent) +
      (if |items| == 1 then [] else ArraySeparator(format) + RenderItems(items[1..], format, indent))
  {
    hide Render, ArraySeparator;
  }

  lemma {:induction false} ItemsFormatted(items: seq<Json>, indent: nat, rest: Bytes, open: Bytes)
    requires items != []
    ensures
      Formatted(RenderItems(items, false, indent) + rest, open + [LBRACKET])
      == RenderItems(items, true, |open| + 1) + Formatted(rest, open + [LBRACKET])
    decreases items, 1
  {
    hide Formatted, Render, RenderItems;
    ItemsCons(items, false, indent);
    ItemsCons(items, true, |open| + 1);
    var inner := open + [LBRACKET];
    var first := Render(items[0], false, indent);
    if |items| == 1 {
      assert RenderItems(items, false, indent) == first;
      assert RenderItems(items, true, |open| + 1) == Render(items[0], true, |open| + 1);
      ValueFormatted(items[0], indent, rest, inner);
    } else {
      var more := RenderItems(items[1..], false, indent) + rest;
      assert RenderItems(items, false, indent) + rest == first + ([COMMA] + more);
      ValueFormatted(items[0], indent, [COMMA] + more, inner);
      FormattedComma(more, open, LBRACKET);
      ItemsFormatted(items[1..], indent, rest, open);
      assert |inner| == |open| + 1;
      assert RenderItems(items, true, |open| + 1)
          == Render(items[0], true, |open| + 1) + ([COMMA, SPACE] + RenderItems(items[1..], true, |open| + 1));
      Grouped(Render(items[0], true, |open| + 1), [COMMA, SPACE], RenderItems(items[1..], true, |open| + 1), Formatted(rest, inner));
    }
  }

  lemma Grouped(a: Bytes, b: Bytes, c: Bytes, d: Bytes)
    ensures a + (b + (c + d)) == a + (b + c) + d
  {}

  lemma {:induction false} ObjectFormatted(members: seq<Member>, indent: nat, rest: Bytes, open: Bytes)
    ensures Formatted(Render(Object(members), false, indent) + rest, open) == Render(Object(members), true, |open|) + Formatted(rest, open)
    decreases members, 2
  {
    hide Formatted, RenderMembers;
    var body := RenderMembers(members, false, indent + 1);
    TabsAre(|open|);
    TabsAre(|open| + 1);
    if members == [] {
      NoItems(false, indent + 1);
      NoItems(true, |open| + 1);
      assert Render(Object(members), false, indent) + rest == [LBRACE, RBRACE] + rest;
      FormattedEmpty(rest, open);
      assert Render(Object(members), true, |open|) == [LBRACE] + NewLine(|open|) + [RBRACE];
    } else {
      assert Render(Object(members), false, indent) + rest == [LBRACE] + (body + ([RBRACE] + rest));
      MembersHead(members, indent + 1, [RBRACE] + rest);
      FormattedOpen(body + ([RBRACE] + rest), open);
      MembersFormatted(members, indent + 1, rest, open);
      var after := Formatted(rest, open);
      var lines := RenderMembers(members, true, |open| + 1);
      assert Render(Object(members), true, |open|) + after
          == [LBRACE] + ([NEWLINE] + (lines + (Tabs(|open|) + ([RBRACE] + after))));
    }
  }

  lemma TabsAre(n: nat)
    ensures NewLine(n) == [NEWLINE] + Tabs(n)
  {}

  lemma MembersHead(members: seq<Member>, indent: nat, rest: Bytes)
    requires members != []
    ensures var s := RenderMembers(members, false, indent) + rest; s != [] && s[0] == QUOTE
  {
    hide Render, LiteralText;
  }

  /** What follows the value of a member, formatted. */
  lemma {:induction false} MembersFormatted(members: seq<Member>, indent: nat, rest: Bytes, open: Bytes)
    requires members != []
    ensures
      Tabs(|open| + 1) + Formatted(RenderMembers(members, false, indent) + ([RBRACE] + rest), open + [LBRACE])
      == RenderMembers(members, true, |open| + 1) + (Tabs(|open|) + ([RBRACE] + Formatted(rest, open)))
    decreases members, 1
  {
    hide Formatted, Render, RenderMembers, Quoted, Tabs, NewLine;
    MembersCons(members, false, indent);
    MembersCons(members, true, |open| + 1);
    TabsAre(|open|);
    TabsAre(|open| + 1);
    var inner, key, value := open + [LBRACE], Quoted(members[0].key), Render(members[0].value, false, indent);
    var shown, after := Render(members[0].value, true, |open| + 1), Formatted(rest, open);
    var tabs := Tabs(|open| + 1);
    if |members| == 1 {
      NoItems(false, indent);
      NoItems(true, |open| + 1);
      assert members[1..] == [];
      assert RenderMembers(members, false, indent) + ([RBRACE] + rest) == key + ([COLON] + (value + ([RBRACE] + rest)));
      FormattedText(members[0].key, [COLON] + (value + ([RBRACE] + rest)), inner);
      FormattedColon(value + ([RBRACE] + rest), inner);
      ValueFormatted(members[0].value, indent, [RBRACE] + rest, inner);
      FormattedClose(rest, open);
      LastLine(tabs, key, shown, Tabs(|open|), after);
    } else {
      var more := RenderMembers(members[1..], false, indent) + ([RBRACE] + rest);
      assert RenderMembers(members, false, indent) + ([RBRACE] + rest) == key + ([COLON] + (value + ([COMMA] + more)));
      FormattedText(members[0].key, [COLON] + (value + ([COMMA] + more)), inner);
      FormattedColon(value + ([COMMA] + more), inner);
      ValueFormatted(members[0].value, indent, [COMMA] + more, inner);
      FormattedComma(more, open, LBRACE);
      MembersFormatted(members[1..], indent, rest, open);
      NextLine(tabs, key, shown, Formatted(more, inner), RenderMembers(members[1..], true, |open| + 1),
               Tabs(|open|) + ([RBRACE] + after));
    }
  }

  lemma LastLine(tabs: Bytes, key: Bytes, shown: Bytes, outer: Bytes, after: Bytes)
    ensures tabs + (key + ([COLON, TAB] + (shown + ([NEWLINE] + outer + [RBRACE] + after))))
      == tabs + key + [COLON, TAB] + shown + [NEWLINE] + [] + (outer + ([RBRACE] + after))
  {}

  lemma NextLine(tabs: Bytes, key: Bytes, shown: Bytes, formatted: Bytes, more: Bytes, close: Bytes)
    requires tabs + formatted == more + close
    ensures tabs + (key + ([COLON, TAB] + (shown + ([COMMA] + ([NEWLINE] + tabs) + formatted))))
      == tabs + key + [COLON, TAB] + shown + ([COMMA] + [NEWLINE]) + more + close
  {
    assert [COMMA] + ([NEWLINE] + tabs) + formatted == [COMMA, NEWLINE] + (tabs + formatted);
  }

  /** The formatted text is the unformatted one with white space put in by the rules. */
  lemma PrintedFormatted(t: Json)
    ensures Render(t, true, 0) == Formatted(Render(t, false, 0), [])
  {
    hide Formatted, Render;
    ValueFormatted(t, 0, [], []);
    assert Render(t, false, 0) + [] == Render(t, false, 0);
    NothingFormatted();
    assert Render(t, true, 0) + [] == Render(t, true, 0);
  }

  lemma NothingFormatted()
    ensures Formatted([], []) == []
  {}

  // ----- The unformatted text in the grammar -----

  /** The spelling of a tree without white space. */
  ghost function Compact(t: Json): G.Syntax
    decreases t, 0
  {
    match t
    case Null => G.NullWord
    case False => G.FalseWord
    case True => G.TrueWord
    case Number(n) => G.Numeral(n < 0, Digits(if n < 0 then -n else n))
    case String(text) => G.Literal(Escaped(text))
    case Array(items) => if items == [] then G.EmptyArray([]) else G.FullArray(CompactItems(items))
    case Object(members) => if members == [] then G.EmptyObject([]) else G.FullObject(CompactMembers(members))
  }

  ghost function Escaped(text: Bytes): seq<G.Part> {
    seq(|text|, i requires 0 <= i < |text| => G.Good(EscapePiece(text[i])))
  }

  ghost function CompactItems(items: seq<Json>): seq<G.Element>
    decreases items, 1
  {
    if items == [] then [] else [G.Element([], Compact(items[0]), [])] + CompactItems(items[1..])
  }

  ghost function CompactMembers(members: seq<Member>): seq<G.Entry>
    decreases members, 1
  {
    if members == [] then []
    else [G.Entry([], Escaped(members[0].key), [], G.Element([], Compact(members[0].value), []))] + CompactMembers(members[1..])
  }

  /** The first digit is a zero for zero only. */
  lemma {:induction false} NoLeadingZero(n: nat)
    ensures Digits(n)[0] == ZERO <==> n == 0
  {
    if n >= 10 {
      NoLeadingZero(n / 10);
      assert n / 10 > 0;
    }
  }

  lemma {:induction false} EscapedSpells(text: Bytes)
    ensures G.Spells(Escaped(text)) && G.NoneMalformed(Escaped(text))
    ensures G.PartsText(Escaped(text)) == LiteralText(EscapePieces(text))
    ensures G.PartsMeaning(Escaped(text)) == text
  {
    hide EscapePiece, EscapePieces, G.Spells, G.NoneMalformed;
    EscapedGood(text);
    if text == [] {
      assert Escaped(text) == [] && EscapePieces(text) == [];
    } else {
      EscapedSpells(text[1..]);
      EscapeMeans(text[0]);
      assert Escaped(text)[1..] == Escaped(text[1..]);
      assert EscapePieces(text)[1..] == EscapePieces(text[1..]);
      assert [text[0]] + text[1..] == text;
    }
  }

  lemma EscapedGood(text: Bytes)
    ensures G.Spells(Escaped(text)) && G.NoneMalformed(Escaped(text))
  {
    hide EscapePiece;
    forall i | 0 <= i < |text| ensures Escaped(text)[i].Legal() {
      EscapeMeans(text[i]);
    }
  }

  /** Without formatting, a tree is spelled by the grammar with no white space at all. */
  lemma {:induction false} CompactSpells(t: Json, depth: nat)
    requires Valid(t)
    ensures G.Correct(Compact(t)) && G.Plain(Compact(t))
    ensures G.Text(Compact(t)) == Render(t, false, depth)
    ensures G.Meaning(Compact(t)) == t
    decreases t, 0
  {
    hide Compact, G.Correct, G.Plain, G.Text, G.Meaning, Render;
    match t
    case Array(items) =>
      CompactItemsSpell(items, depth + 1);
      CompactArray(items, depth);
    case Object(members) =>
      CompactMembersSpell(members, depth + 1);
      CompactObject(members, depth);
    case _ => CompactAtom(t, depth);
  }

  lemma CompactAtom(t: Json, depth: nat)
    requires Valid(t) && !t.Array? && !t.Object?
    ensures G.Correct(Compact(t)) && G.Plain(Compact(t))
    ensures G.Text(Compact(t)) == Render(t, false, depth)
    ensures G.Meaning(Compact(t)) == t
  {
    hide G.PartsText, G.PartsMeaning, Escaped, G.Spells, LiteralText, G.Value;
    G.Words();
    match t
    case Number(n) => NumeralSpells(n);
    case String(text) => EscapedSpells(text);
    case _ =>
  }

  lemma CompactArray(items: seq<Json>, depth: nat)
    requires var c := CompactItems(items);
      |c| == |items| && G.CorrectElements(c) && G.PlainElements(c) && G.ElementsMeaning(c) == items
      && G.ElementsText(c) == RenderItems(items, false, depth + 1)
    ensures var c := Compact(Array(items));
      G.Correct(c) && G.Plain(c) && G.Text(c) == Render(Array(items), false, depth) && G.Meaning(c) == Array(items)
  {
    hide G.ElementsText, G.ElementsMeaning, G.CorrectElements, G.PlainElements, CompactItems, RenderItems;
    G.Words();
    NoItems(false, depth + 1);
  }

  lemma CompactObject(members: seq<Member>, depth: nat)
    requires var c := CompactMembers(members);
      |c| == |members| && G.CorrectEntries(c) && G.PlainEntries(c) && G.EntriesMeaning(c) == members
      && G.EntriesText(c) == RenderMembers(members, false, depth + 1)
    ensures var c := Compact(Object(members));
      G.Correct(c) && G.Plain(c) && G.Text(c) == Render(Object(members), false, depth) && G.Meaning(c) == Object(members)
  {
    hide G.EntriesText, G.EntriesMeaning, G.CorrectEntries, G.PlainEntries, CompactMembers, RenderMembers;
    G.Words();
    NoItems(false, depth + 1);
  }

  lemma NumeralSpells(n: int)
    ensures var digits := Digits(if n < 0 then -n else n);
      digits != [] && G.Value(n < 0, digits) == n
      && (if n < 0 then [MINUS] else []) + digits == NumberText(n)
  {
    hide Digits;
    DigitsRead(if n < 0 then -n else n);
  }

  lemma {:induction false} CompactItemsSpell(items: seq<Json>, depth: nat)
    requires forall i :: 0 <= i < |items| ==> Valid(items[i])
    ensures var c := CompactItems(items);
      |c| == |items| && G.CorrectElements(c) && G.PlainElements(c) && G.ElementsMeaning(c) == items
      && G.ElementsText(c) == RenderItems(items, false, depth)
    decreases items, 1
  {
    hide G.Text, G.Correct, G.Plain, G.Meaning, Render, Compact, Valid;
    if items == [] {
      G.NoElements();
    } else {
      CompactSpells(items[0], depth);
      CompactItemsSpell(items[1..], depth);
      var e, more := G.Element([], Compact(items[0]), []), CompactItems(items[1..]);
      ElementsCompact(e, more);
      ItemsCons(items, false, depth);
    }
  }

  lemma ElementsCompact(e: G.Element, more: seq<G.Element>)
    requires e.before == [] && e.after == [] && G.Correct(e.value) && G.Plain(e.value)
    requires G.CorrectElements(more) && G.PlainElements(more)
    ensures G.CorrectElements([e] + more) && G.PlainElements([e] + more)
    ensures G.ElementsMeaning([e] + more) == [G.Meaning(e.value)] + G.ElementsMeaning(more)
    ensures G.ElementsText([e] + more) == G.Text(e.value) + (if more == [] then [] else [COMMA] + G.ElementsText(more))
  {
    hide G.Text, G.Correct, G.Plain, G.Meaning, G.ElementsText, G.ElementsMeaning, G.CorrectElements;
    G.ElementsCons(e, more);
    ElementAlone(e);
    assert ([e] + more)[1..] == more;
    assert e.before + G.Text(e.value) + e.after == G.Text(e.value);
  }

  lemma ElementAlone(e: G.Element)
    requires e.before == [] && e.after == [] && G.Correct(e.value)
    ensures G.CorrectElement(e)
  {}

  lemma {:induction false} CompactMembersSpell(members: seq<Member>, depth: nat)
    requires forall i :: 0 <= i < |members| ==> NUL !in members[i].key && Valid(members[i].value)
    ensures var c := CompactMembers(members);
      |c| == |members| && G.CorrectEntries(c) && G.PlainEntries(c) && G.EntriesMeaning(c) == members
      && G.EntriesText(c) == RenderMembers(members, false, depth)
    decreases members, 1
  {
    hide G.Text, G.Correct, G.Plain, G.Meaning, Render, Compact, Valid, RenderMembers, G.EntriesText, G.EntriesMeaning, G.PartsText, G.PartsMeaning, Escaped, G.Spells, LiteralText;
    if members == [] {
      G.NoEntries();
      NoItems(false, depth);
      NoEntriesText();
    } else {
      CompactSpells(members[0].value, depth);
      CompactMembersSpell(members[1..], depth);
      EscapedSpells(members[0].key);
      var e := G.Entry([], Escaped(members[0].key), [], G.Element([], Compact(members[0].value), []));
      var more := CompactMembers(members[1..]);
      EntriesCompact(e, more);
      MembersCons(members, false, depth);
      NoItems(false, depth);
      assert more == [] <==> |members| == 1;
    }
  }

  lemma NoEntriesText()
    ensures CompactMembers([]) == [] && G.EntriesText([]) == [] && G.PlainEntries([])
  {}

  lemma EntriesCompact(e: G.Entry, more: seq<G.Entry>)
    requires e.before == [] && e.gap == [] && e.element.before == [] && e.element.after == []
    requires G.Spells(e.key) && G.NoneMalformed(e.key) && G.Correct(e.element.value) && G.Plain(e.element.value)
    requires G.CorrectEntries(more) && G.PlainEntries(more) && NUL !in G.PartsMeaning(e.key)
    ensures G.CorrectEntries([e] + more) && G.PlainEntries([e] + more)
    ensures G.EntriesMeaning([e] + more) ==
      [Member(G.PartsMeaning(e.key), G.Meaning(e.element.value))] + G.EntriesMeaning(more)
    ensures G.EntriesText([e] + more) ==
      [QUOTE] + G.PartsText(e.key) + [QUOTE] + [COLON] + G.Text(e.element.value)
      + (if more == [] then [] else [COMMA] + G.EntriesText(more))
  {
    hide G.Text, G.Correct, G.Plain, G.Meaning, G.PartsText, G.PartsMeaning, G.Spells, G.NoneMalformed;
    G.EntriesCons(e, more);
    assert ([e] + more)[1..] == more;
  }
}
