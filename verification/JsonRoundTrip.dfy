/** Printing and then parsing is the identity, up to the nesting limit and not beyond it. */
module JsonRoundTrip {
  import opened JsonText
  import opened JsonString
  import opened JsonTree
  import opened JsonParser
  import opened Wrappers

  // ----- Numbers -----

  lemma {:induction false} TokenOf(t: Bytes, rest: Bytes)
    requires forall i :: 0 <= i < |t| ==> IsNumberByte(t[i])
    requires rest != [] ==> !IsNumberByte(rest[0])
    ensures Token(t + rest) == t
  {
    if t == [] {
      assert t + rest == rest;
    } else {
      assert (t + rest)[1..] == t[1..] + rest;
      TokenOf(t[1..], rest);
    }
  }

  lemma {:induction false} CountDigits(s: Bytes)
    requires forall i :: 0 <= i < |s| ==> IsDigit(s[i])
    ensures DigitCount(s) == |s|
  {
    if s != [] {
      CountDigits(s[1..]);
    }
  }

  lemma {:induction false} DigitsRead(n: nat)
    ensures DigitsValue(Digits(n)) == n
  {
    if n < 10 {
      assert DigitsValue([]) == 0;
    } else {
      DigitsRead(n / 10);
      assert Digits(n)[..|Digits(n)| - 1] == Digits(n / 10);
    }
  }

  /** The sign of a number is in front of the digits of its magnitude. */
  lemma SignFirst(n: int, m: nat, sign: nat)
    requires if n < 0 then m == -n && sign == 1 else m == n && sign == 0
    ensures var t := NumberText(n); |t| == sign + |Digits(m)| && t[sign..] == Digits(m)
    ensures var t := NumberText(n); t != [] && t[0] != PLUS && (t[0] == MINUS <==> n < 0)
  {
    hide Digits;
  }

  lemma DigitsAlone(m: nat)
    ensures
      var d := Digits(m);
      d != [] && DigitCount(d) == |d| && DigitsValue(d[..|d|]) == m && !Continues(d[|d|..])
  {
    hide Digits, DigitCount, DigitsValue;
    CountDigits(Digits(m));
    DigitsRead(m);
    assert Digits(m)[..|Digits(m)|] == Digits(m);
  }

  lemma IntegerRead(n: int)
    requires IsInt(n)
    ensures ReadNumber(NumberText(n)) == Integer(n, |NumberText(n)|)
  {
    hide Digits, NumberText, DigitCount, DigitsValue, Continues;
    var m: nat := if n < 0 then -n else n;
    SignFirst(n, m, if n < 0 then 1 else 0);
    DigitsAlone(m);
  }

  lemma NumberRoundTrip(n: int, rest: Bytes)
    requires IsInt(n) && Follows(rest)
    ensures ParseNumber(NumberText(n) + rest) == Ok(Number(n), rest)
  {
    hide ReadNumber, Token;
    TokenOf(NumberText(n), rest);
    IntegerRead(n);
    assert (NumberText(n) + rest)[|NumberText(n)|..] == rest;
  }

  /** What may follow a value: nothing that would extend a number. */
  predicate Follows(rest: Bytes) {
    rest != [] ==> !IsNumberByte(rest[0])
  }

  // ----- White space -----

  lemma {:induction false} SkipTo(w: Bytes, s: Bytes)
    requires forall i :: 0 <= i < |w| ==> w[i] <= SPACE
    requires s != [] && s[0] > SPACE
    ensures Skip(w + s) == s
  {
    DropTo(w, s);
  }

  lemma {:induction false} DropTo(w: Bytes, s: Bytes)
    requires forall i :: 0 <= i < |w| ==> w[i] <= SPACE
    requires s != [] && s[0] > SPACE
    ensures DropSpace(w + s) == s
  {
    if w == [] {
      assert w + s == s;
    } else {
      assert (w + s)[1..] == w[1..] + s;
      DropTo(w[1..], s);
    }
  }

  lemma SkipNone(s: Bytes)
    requires s != [] && s[0] > SPACE
    ensures Skip(s) == s
  {
    SkipTo([], s);
    assert [] + s == s;
  }

  // ----- Heads -----

  /** The first byte of a rendered value tells its kind. */
  predicate HeadOf(t: Json, b: byte) {
    match t
    case Null => b == LETTER_n
    case False => b == LETTER_f
    case True => b == LETTER_t
    case Number(n) => b == MINUS || IsDigit(b)
    case String(text) => b == QUOTE
    case Array(items) => b == LBRACKET
    case Object(members) => b == LBRACE
  }

  lemma RenderHead(t: Json, format: bool, depth: nat)
    ensures Render(t, format, depth) != [] && HeadOf(t, Render(t, format, depth)[0])
    ensures Render(t, format, depth)[0] > SPACE
  {
    hide RenderItems, RenderMembers, LiteralText;
  }

  // ----- Steps of the parser -----

  lemma ArrayParsed(s: Bytes, depth: nat, next: Bytes, items: seq<Json>, rest: Bytes)
    requires s != [] && s[0] == LBRACKET && depth < NESTING_LIMIT && Skip(s[1..]) == next
    requires if items == [] then next == [RBRACKET] + rest
      else next != [] && next[0] != RBRACKET && ParseItems(next, depth + 1) == Ok(items, rest)
    ensures ParseValue(s, depth) == Ok(Array(items), rest)
  {
    hide ParseItems, ParseMembers, Skip;
  }

  lemma ObjectParsed(s: Bytes, depth: nat, next: Bytes, members: seq<Member>, rest: Bytes)
    requires s != [] && s[0] == LBRACE && depth < NESTING_LIMIT && Skip(s[1..]) == next
    requires if members == [] then next == [RBRACE] + rest
      else next != [] && next[0] != RBRACE && ParseMembers(next, depth + 1) == Ok(members, rest)
    ensures ParseValue(s, depth) == Ok(Object(members), rest)
  {
    hide ParseItems, ParseMembers, Skip;
  }

  lemma LastItem(s: Bytes, depth: nat, item: Json, after: Bytes, rest: Bytes)
    requires ParseValue(s, depth) == Ok(item, after) && Skip(after) == [RBRACKET] + rest
    ensures ParseItems(s, depth) == Ok([item], rest)
  {
    hide ParseValue, Skip;
  }

  lemma NextItem(s: Bytes, depth: nat, item: Json, after: Bytes, next: Bytes, items: seq<Json>, rest: Bytes)
    requires ParseValue(s, depth) == Ok(item, after)
    requires Skip(after) != [] && Skip(after)[0] == COMMA && Skip(Skip(after)[1..]) == next
    requires ParseItems(next, depth) == Ok(items, rest)
    ensures ParseItems(s, depth) == Ok([item] + items, rest)
  {
    hide ParseValue, Skip;
  }

  /** A key, a colon and a value. */
  ghost predicate MemberAt(s: Bytes, depth: nat, member: Member, after: Bytes)
  {
    var key := ParseText(s);
    key.Ok? && key.value == member.key
    && Skip(key.rest) != [] && Skip(key.rest)[0] == COLON
    && ParseValue(Skip(Skip(key.rest)[1..]), depth) == Ok(member.value, after)
  }

  lemma LastMember(s: Bytes, depth: nat, member: Member, after: Bytes, rest: Bytes)
    requires MemberAt(s, depth, member, after) && Skip(after) == [RBRACE] + rest
    ensures ParseMembers(s, depth) == Ok([member], rest)
  {
    hide ParseValue, Skip, ParseText;
  }

  lemma NextMember(s: Bytes, depth: nat, member: Member, after: Bytes, next: Bytes, members: seq<Member>, rest: Bytes)
    requires MemberAt(s, depth, member, after)
    requires Skip(after) != [] && Skip(after)[0] == COMMA && Skip(Skip(after)[1..]) == next
    requires ParseMembers(next, depth) == Ok(members, rest)
    ensures ParseMembers(s, depth) == Ok([member] + members, rest)
  {
    hide ParseValue, Skip, ParseText;
  }

  // ----- Parts of the text -----

  /** White space after an item separator. */
  function ItemGap(format: bool): Bytes {
    if format then [SPACE] else []
  }

  lemma ItemsText(items: seq<Json>, format: bool, indent: nat, tail: Bytes)
    requires items != []
    ensures RenderItems(items, format, indent) + tail == Render(items[0], format, indent) +
      (if |items| == 1 then tail else AfterItem(items[1..], format, indent, tail))
  {
    hide Render, ItemGap, ArraySeparator;
    if |items| > 1 {
      var h, r := Render(items[0], format, indent), RenderItems(items[1..], format, indent);
      SeparatorGap(format);
      RegroupItem(h, [COMMA], ItemGap(format), r, tail);
    } else {
      NoItems(format, indent);
      assert items[1..] == [];
    }
  }

  /** White space in front of a key. */
  function KeyGap(format: bool, indent: nat): Bytes {
    if format then [NEWLINE] + Tabs(indent) else []
  }

  function ColonGap(format: bool): Bytes {
    if format then [TAB] else []
  }

  /** The text of members from the first quote on, followed by tail. */
  function FromQuote(members: seq<Member>, format: bool, indent: nat, tail: Bytes): Bytes
    requires members != []
    decreases |members|, 1
  {
    Quoted(members[0].key) + ([COLON] + (ColonGap(format) + (Render(members[0].value, format, indent)
    + AfterValue(members, format, indent, tail))))
  }

  /** What follows the value of the first member. */
  function AfterValue(members: seq<Member>, format: bool, indent: nat, tail: Bytes): Bytes
    requires members != []
    decreases |members|, 0
  {
    if |members| > 1 then [COMMA] + (KeyGap(format, indent) + FromQuote(members[1..], format, indent, tail))
    else (if format then [NEWLINE] else []) + tail
  }

  lemma {:induction false} MembersText(members: seq<Member>, format: bool, indent: nat, tail: Bytes)
    requires members != []
    ensures (if format then [NEWLINE] else []) + (RenderMembers(members, format, indent) + tail)
         == KeyGap(format, indent) + FromQuote(members, format, indent, tail)
  {
    hide Render, Quoted, Tabs, RenderMembers;
    var k, v := Quoted(members[0].key), Render(members[0].value, format, indent);
    var more := RenderMembers(members[1..], format, indent);
    var line := if format then [NEWLINE] else [];
    var end := MemberEnd(format, |members| > 1);
    var after := AfterValue(members, format, indent, tail);
    assert end + (more + tail) == after by {
      if |members| > 1 {
        MembersText(members[1..], format, indent, tail);
        assert end + (more + tail) == [COMMA] + (line + (more + tail));
      } else {
        NoItems(format, indent);
        assert members[1..] == [];
        assert end + (more + tail) == line + tail;
      }
    }
    MembersCons(members, format, indent);
    var tabs := if format then Tabs(indent) else [];
    assert KeyText(members[0].key, format, indent) == tabs + k + ([COLON] + ColonGap(format));
    assert KeyGap(format, indent) == line + tabs;
    Regroup(line, tabs, k, [COLON], ColonGap(format), v, end, more, tail);
  }

  lemma MembersCons(members: seq<Member>, format: bool, indent: nat)
    requires members != []
    ensures RenderMembers(members, format, indent) == KeyText(members[0].key, format, indent)
      + Render(members[0].value, format, indent) + MemberEnd(format, |members| > 1) + RenderMembers(members[1..], format, indent)
  {
    hide Render, KeyText;
  }

  lemma NoItems(format: bool, indent: nat)
    ensures RenderItems([], format, indent) == [] && RenderMembers([], format, indent) == []
  {}

  lemma SeparatorGap(format: bool)
    ensures ArraySeparator(format) == [COMMA] + ItemGap(format)
  {}

  lemma RegroupItem(h: Bytes, comma: Bytes, gap: Bytes, r: Bytes, tail: Bytes)
    ensures h + (comma + gap) + r + tail == h + (comma + (gap + (r + tail)))
  {}

  lemma Regroup(line: Bytes, tabs: Bytes, k: Bytes, colon: Bytes, gap: Bytes, v: Bytes, end: Bytes, more: Bytes, tail: Bytes)
    ensures line + (tabs + k + (colon + gap) + v + end + more + tail)
         == (line + tabs) + (k + (colon + (gap + (v + (end + (more + tail))))))
  {}

  lemma QuoteFirst(members: seq<Member>, format: bool, indent: nat, tail: Bytes)
    requires members != []
    ensures var s := FromQuote(members, format, indent, tail); s != [] && s[0] == QUOTE
  {
    hide Render, LiteralText, AfterValue;
  }

  // ----- The main result -----

  lemma {:induction false} ValueRoundTrip(t: Json, format: bool, indent: nat, depth: nat, rest: Bytes)
    requires Valid(t) && depth + Nesting(t) <= NESTING_LIMIT && Follows(rest)
    ensures ParseValue(Render(t, format, indent) + rest, depth) == Ok(t, rest)
    decreases t, 0
  {
    hide Token, ReadNumber, LiteralText, FindEnd, Decode, RenderItems, RenderMembers, ParseItems, ParseMembers;
    var s := Render(t, format, indent) + rest;
    RenderHead(t, format, indent);
    match t
    case Null => assert s[4..] == rest;
    case False => assert s[5..] == rest;
    case True => assert s[4..] == rest;
    case Number(n) => NumberRoundTrip(n, rest);
    case String(text) => TextRoundTrip(text, rest);
    case Array(items) => ArrayRoundTrip(items, format, indent, depth, rest);
    case Object(members) => ObjectRoundTrip(members, format, indent, depth, rest);
  }

  lemma TextRoundTrip(text: Bytes, rest: Bytes)
    requires NUL !in text
    ensures ParseText(Quoted(text) + rest) == Ok(text, rest)
  {
    QuotedRoundTrip(text, rest);
  }

  lemma {:induction false} ArrayRoundTrip(items: seq<Json>, format: bool, indent: nat, depth: nat, rest: Bytes)
    requires Valid(Array(items)) && depth + Nesting(Array(items)) <= NESTING_LIMIT
    ensures ParseValue(Render(Array(items), format, indent) + rest, depth) == Ok(Array(items), rest)
    decreases items, 1
  {
    hide ParseItems, ParseValue, RenderItems, Skip;
    var tail := [RBRACKET] + rest;
    var s := Render(Array(items), format, indent) + rest;
    var next := RenderItems(items, format, indent + 1) + tail;
    assert s[0] == LBRACKET && s[1..] == next;
    if items == [] {
      assert next == tail by { assert RenderItems([], format, indent + 1) == [] by { NoItems(format, indent + 1); } }
    } else {
      ItemsHead(items, format, indent + 1, tail);
      ItemsRoundTrip(items, format, indent + 1, depth + 1, rest);
    }
    SkipNone(next);
    ArrayParsed(s, depth, next, items, rest);
  }

  lemma ItemsHead(items: seq<Json>, format: bool, indent: nat, tail: Bytes)
    requires items != []
    ensures var s := RenderItems(items, format, indent) + tail; s != [] && s[0] > SPACE && s[0] != RBRACKET
  {
    hide Render;
    RenderHead(items[0], format, indent);
  }

  /** What follows an element that is not the last one. */
  function AfterItem(items: seq<Json>, format: bool, indent: nat, tail: Bytes): Bytes {
    [COMMA] + (ItemGap(format) + (RenderItems(items, format, indent) + tail))
  }

  lemma AfterItemSkips(items: seq<Json>, format: bool, indent: nat, tail: Bytes)
    requires items != []
    ensures
      var after := AfterItem(items, format, indent, tail);
      Follows(after) && Skip(after) == after && after != [] && after[0] == COMMA
      && Skip(after[1..]) == RenderItems(items, format, indent) + tail
  {
    hide RenderItems, Skip;
    var next := RenderItems(items, format, indent) + tail;
    var after := AfterItem(items, format, indent, tail);
    SkipNone(after);
    ItemsHead(items, format, indent, tail);
    SkipTo(ItemGap(format), next);
    assert after[1..] == ItemGap(format) + next;
  }

  lemma {:induction false} ItemsRoundTrip(items: seq<Json>, format: bool, indent: nat, depth: nat, rest: Bytes)
    requires items != [] && Valid(Array(items)) && depth + ItemsNesting(items) <= NESTING_LIMIT
    ensures ParseItems(RenderItems(items, format, indent) + ([RBRACKET] + rest), depth) == Ok(items, rest)
    decreases items, 0
  {
    hide ParseValue, ParseItems, Render, RenderItems, Nesting, ItemsNesting, Skip, Valid, AfterItem;
    ItemsValid(items);
    var tail := [RBRACKET] + rest;
    var s := RenderItems(items, format, indent) + tail;
    ItemsText(items, format, indent, tail);
    if |items| == 1 {
      ValueRoundTrip(items[0], format, indent, depth, tail);
      SkipNone(tail);
      LastItem(s, depth, items[0], tail, rest);
      assert items == [items[0]];
    } else {
      var next, after := RenderItems(items[1..], format, indent) + tail, AfterItem(items[1..], format, indent, tail);
      AfterItemSkips(items[1..], format, indent, tail);
      ValueRoundTrip(items[0], format, indent, depth, after);
      ItemsRoundTrip(items[1..], format, indent, depth, rest);
      NextItem(s, depth, items[0], after, next, items[1..], rest);
      assert items == [items[0]] + items[1..];
    }
  }

  lemma ItemsValid(items: seq<Json>)
    requires items != [] && Valid(Array(items))
    ensures Valid(items[0]) && Valid(Array(items[1..]))
    ensures ItemsNesting(items) == Max(Nesting(items[0]), ItemsNesting(items[1..]))
  {
    hide Nesting;
  }

  lemma {:induction false} ObjectRoundTrip(members: seq<Member>, format: bool, indent: nat, depth: nat, rest: Bytes)
    requires Valid(Object(members)) && depth + Nesting(Object(members)) <= NESTING_LIMIT
    ensures ParseValue(Render(Object(members), format, indent) + rest, depth) == Ok(Object(members), rest)
    decreases members, 1
  {
    hide ParseMembers, ParseValue, Render, RenderMembers, Skip, FromQuote, Nesting, MembersNesting, Valid;
    ObjectNesting(members);
    var tail := ObjectClose(format, indent) + rest;
    var s := Render(Object(members), format, indent) + rest;
    ObjectText(members, format, indent, rest);
    if members == [] {
      EmptyObject(format, indent, rest);
      ObjectParsed(s, depth, [RBRACE] + rest, members, rest);
    } else {
      var next := FromQuote(members, format, indent + 1, tail);
      MembersSkipped(members, format, indent + 1, tail);
      MembersRoundTrip(members, format, indent + 1, indent, depth + 1, rest);
      ObjectParsed(s, depth, next, members, rest);
    }
  }

  lemma ObjectNesting(members: seq<Member>)
    ensures Nesting(Object(members)) == 1 + MembersNesting(members)
  {}

  /** The text of an object behind its opening brace. */
  function AfterBrace(members: seq<Member>, format: bool, indent: nat, tail: Bytes): Bytes {
    (if format then [NEWLINE] else []) + (RenderMembers(members, format, indent) + tail)
  }

  lemma ObjectText(members: seq<Member>, format: bool, indent: nat, rest: Bytes)
    ensures
      var s := Render(Object(members), format, indent) + rest;
      s != [] && s[0] == LBRACE && s[1..] == AfterBrace(members, format, indent + 1, ObjectClose(format, indent) + rest)
  {
    hide RenderMembers, ObjectClose;
    BraceText(ObjectOpen(format), RenderMembers(members, format, indent + 1), ObjectClose(format, indent), rest);
    assert ObjectOpen(format) == [LBRACE] + (if format then [NEWLINE] else []);
  }

  lemma BraceText(open: Bytes, body: Bytes, close: Bytes, rest: Bytes)
    requires open != []
    ensures open + body + close + rest == [open[0]] + (open[1..] + (body + (close + rest)))
  {}

  lemma EmptyObject(format: bool, indent: nat, rest: Bytes)
    ensures Skip(AfterBrace([], format, indent + 1, ObjectClose(format, indent) + rest)) == [RBRACE] + rest
  {
    hide Skip, ObjectClose;
    NoItems(format, indent + 1);
    assert [] + (ObjectClose(format, indent) + rest) == ObjectClose(format, indent) + rest;
    CloseSkipped(format, indent, rest);
  }

  /** Behind the opening brace and white space come the members, from the first quote on. */
  lemma MembersSkipped(members: seq<Member>, format: bool, indent: nat, tail: Bytes)
    requires members != []
    ensures
      var next := FromQuote(members, format, indent, tail);
      Skip(AfterBrace(members, format, indent, tail)) == next && next != [] && next[0] == QUOTE
  {
    hide Skip, FromQuote, RenderMembers;
    MembersText(members, format, indent, tail);
    QuoteFirst(members, format, indent, tail);
    SkipTo(KeyGap(format, indent), FromQuote(members, format, indent, tail));
  }

  /** White space and the closing brace. */
  lemma CloseSkipped(format: bool, indent: nat, rest: Bytes)
    ensures Skip((if format then [NEWLINE] else []) + (ObjectClose(format, indent) + rest)) == [RBRACE] + rest
  {
    hide Skip;
    SkipTo(KeyGap(format, indent), [RBRACE] + rest);
    assert (if format then [NEWLINE] else []) + (ObjectClose(format, indent) + rest)
        == KeyGap(format, indent) + ([RBRACE] + rest);
  }

  lemma {:induction false} MembersRoundTrip(members: seq<Member>, format: bool, indent: nat, close: nat, depth: nat, rest: Bytes)
    requires members != [] && Valid(Object(members)) && depth + MembersNesting(members) <= NESTING_LIMIT
    ensures ParseMembers(FromQuote(members, format, indent, ObjectClose(format, close) + rest), depth) == Ok(members, rest)
    decreases members, 0
  {
    hide ParseMembers, MemberAt, Nesting, Skip, AfterValue, FromQuote;
    var tail := ObjectClose(format, close) + rest;
    var s := FromQuote(members, format, indent, tail);
    var after := AfterValue(members, format, indent, tail);
    FollowsValue(members, format, indent, close, rest);
    MemberRoundTrip(members, format, indent, depth, tail);
    if |members| == 1 {
      LastMember(s, depth, members[0], after, rest);
      assert members == [members[0]];
    } else {
      var next := FromQuote(members[1..], format, indent, tail);
      MembersRoundTrip(members[1..], format, indent, close, depth, rest);
      NextMember(s, depth, members[0], after, next, members[1..], rest);
      assert members == [members[0]] + members[1..];
    }
  }

  /** After a member comes a comma and the next member, or the closing brace. */
  lemma FollowsValue(members: seq<Member>, format: bool, indent: nat, close: nat, rest: Bytes)
    requires members != []
    ensures var tail := ObjectClose(format, close) + rest;
      var after := AfterValue(members, format, indent, tail);
      Follows(after) &&
      if |members| > 1 then
        Skip(after) != [] && Skip(after)[0] == COMMA
        && Skip(Skip(after)[1..]) == FromQuote(members[1..], format, indent, tail)
      else Skip(after) == [RBRACE] + rest
  {
    hide Skip, FromQuote;
    var tail := ObjectClose(format, close) + rest;
    var after := AfterValue(members, format, indent, tail);
    if |members| > 1 {
      var next := FromQuote(members[1..], format, indent, tail);
      SkipNone(after);
      QuoteFirst(members[1..], format, indent, tail);
      SkipTo(KeyGap(format, indent), next);
      assert after[1..] == KeyGap(format, indent) + next;
    } else {
      CloseSkipped(format, close, rest);
      assert after[0] == if format then NEWLINE else RBRACE;
    }
  }

  lemma {:induction false} MemberRoundTrip(members: seq<Member>, format: bool, indent: nat, depth: nat, tail: Bytes)
    requires members != [] && Valid(members[0].value) && NUL !in members[0].key
    requires depth + Nesting(members[0].value) <= NESTING_LIMIT
    requires Follows(AfterValue(members, format, indent, tail))
    ensures MemberAt(FromQuote(members, format, indent, tail), depth, members[0], AfterValue(members, format, indent, tail))
    decreases members, 0, 0
  {
    hide ParseValue, ParseText, Render, Skip, AfterValue, Quoted;
    var key, value := members[0].key, members[0].value;
    var afterValue := AfterValue(members, format, indent, tail);
    var text := Render(value, format, indent) + afterValue;
    var afterKey := [COLON] + (ColonGap(format) + text);
    TextRoundTrip(key, afterKey);
    SkipNone(afterKey);
    RenderHead(value, format, indent);
    SkipTo(ColonGap(format), text);
    assert afterKey[1..] == ColonGap(format) + text;
    ValueRoundTrip(value, format, indent, depth, afterValue);
  }

  // ----- Beyond the nesting limit -----

  lemma ArrayRefused(s: Bytes, depth: nat, next: Bytes)
    requires s != [] && s[0] == LBRACKET && Skip(s[1..]) == next
    requires depth >= NESTING_LIMIT || (next != [] && next[0] != RBRACKET && ParseItems(next, depth + 1) == Rejected)
    ensures ParseValue(s, depth) == Rejected
  {
    hide ParseItems, ParseMembers, Skip;
  }

  lemma ObjectRefused(s: Bytes, depth: nat, next: Bytes)
    requires s != [] && s[0] == LBRACE && Skip(s[1..]) == next
    requires depth >= NESTING_LIMIT || (next != [] && next[0] != RBRACE && ParseMembers(next, depth + 1) == Rejected)
    ensures ParseValue(s, depth) == Rejected
  {
    hide ParseItems, ParseMembers, Skip;
  }

  lemma ItemsRejected(s: Bytes, depth: nat, item: Json, after: Bytes, next: Bytes)
    requires ParseValue(s, depth) == Rejected ||
      (ParseValue(s, depth) == Ok(item, after) && Skip(after) != [] && Skip(after)[0] == COMMA
       && Skip(Skip(after)[1..]) == next && ParseItems(next, depth) == Rejected)
    ensures ParseItems(s, depth) == Rejected
  {
    hide ParseValue, Skip;
  }

  /** A key and a colon, with a value that is rejected. */
  ghost predicate BadMemberAt(s: Bytes, depth: nat) {
    var key := ParseText(s);
    key.Ok? && Skip(key.rest) != [] && Skip(key.rest)[0] == COLON
    && ParseValue(Skip(Skip(key.rest)[1..]), depth) == Rejected
  }

  lemma MembersRejected(s: Bytes, depth: nat, member: Member, after: Bytes, next: Bytes)
    requires BadMemberAt(s, depth) ||
      (MemberAt(s, depth, member, after) && Skip(after) != [] && Skip(after)[0] == COMMA
       && Skip(Skip(after)[1..]) == next && ParseMembers(next, depth) == Rejected)
    ensures ParseMembers(s, depth) == Rejected
  {
    hide ParseValue, Skip, ParseText;
  }

  /** The text of a tree that is nested too deep is rejected. */
  lemma {:induction false} ValueRefused(t: Json, format: bool, indent: nat, depth: nat, rest: Bytes)
    requires Valid(t) && depth <= NESTING_LIMIT < depth + Nesting(t)
    ensures ParseValue(Render(t, format, indent) + rest, depth) == Rejected
    decreases t, 0
  {
    hide Render, RenderItems, RenderMembers, ParseItems, ParseMembers, ParseValue, Skip, FromQuote;
    match t
    case Array(items) => ArrayTooDeep(items, format, indent, depth, rest);
    case Object(members) => ObjectTooDeep(members, format, indent, depth, rest);
    case _ =>
  }

  lemma {:induction false} ArrayTooDeep(items: seq<Json>, format: bool, indent: nat, depth: nat, rest: Bytes)
    requires Valid(Array(items)) && depth <= NESTING_LIMIT < depth + Nesting(Array(items))
    ensures ParseValue(Render(Array(items), format, indent) + rest, depth) == Rejected
    decreases items, 1
  {
    hide RenderItems, ParseItems, ParseValue, Skip;
    var tail := [RBRACKET] + rest;
    var s := Render(Array(items), format, indent) + rest;
    var next := RenderItems(items, format, indent + 1) + tail;
    assert s[0] == LBRACKET && s[1..] == next;
    if depth < NESTING_LIMIT {
      ItemsHead(items, format, indent + 1, tail);
      SkipNone(next);
      ItemsRefused(items, format, indent + 1, depth + 1, tail);
    }
    ArrayRefused(s, depth, Skip(next));
  }

  lemma {:induction false} ObjectTooDeep(members: seq<Member>, format: bool, indent: nat, depth: nat, rest: Bytes)
    requires Valid(Object(members)) && depth <= NESTING_LIMIT < depth + Nesting(Object(members))
    ensures ParseValue(Render(Object(members), format, indent) + rest, depth) == Rejected
    decreases members, 1
  {
    hide Render, RenderMembers, ParseMembers, ParseValue, Skip, FromQuote;
    var s := Render(Object(members), format, indent) + rest;
    ObjectText(members, format, indent, rest);
    if depth < NESTING_LIMIT {
      MembersSkipped(members, format, indent + 1, ObjectClose(format, indent) + rest);
      MembersRefused(members, format, indent + 1, indent, depth + 1, rest);
    }
    ObjectRefused(s, depth, Skip(s[1..]));
  }

  lemma {:induction false} ItemsRefused(items: seq<Json>, format: bool, indent: nat, depth: nat, tail: Bytes)
    requires items != [] && Valid(Array(items)) && depth <= NESTING_LIMIT < depth + ItemsNesting(items)
    requires tail != [] && tail[0] == RBRACKET
    ensures ParseItems(RenderItems(items, format, indent) + tail, depth) == Rejected
    decreases items, 0
  {
    hide ParseValue, ParseItems, Render, RenderItems, Nesting, Skip, AfterItem;
    var s := RenderItems(items, format, indent) + tail;
    var next := RenderItems(items[1..], format, indent) + tail;
    var after := if |items| == 1 then tail else AfterItem(items[1..], format, indent, tail);
    ItemsText(items, format, indent, tail);
    if depth + Nesting(items[0]) > NESTING_LIMIT {
      ValueRefused(items[0], format, indent, depth, after);
    } else {
      AfterItemSkips(items[1..], format, indent, tail);
      ValueRoundTrip(items[0], format, indent, depth, after);
      ItemsRefused(items[1..], format, indent, depth, tail);
    }
    ItemsRejected(s, depth, items[0], after, next);
  }

  lemma {:induction false} MembersRefused(members: seq<Member>, format: bool, indent: nat, close: nat, depth: nat, rest: Bytes)
    requires members != [] && Valid(Object(members)) && depth <= NESTING_LIMIT < depth + MembersNesting(members)
    ensures ParseMembers(FromQuote(members, format, indent, ObjectClose(format, close) + rest), depth) == Rejected
    decreases members, 0
  {
    hide ParseMembers, MemberAt, BadMemberAt, Nesting, Skip, AfterValue, FromQuote;
    var tail := ObjectClose(format, close) + rest;
    var s := FromQuote(members, format, indent, tail);
    var after := AfterValue(members, format, indent, tail);
    FollowsValue(members, format, indent, close, rest);
    if depth + Nesting(members[0].value) > NESTING_LIMIT {
      MemberRefused(members, format, indent, depth, tail);
      MembersRejected(s, depth, members[0], after, []);
    } else {
      MemberRoundTrip(members, format, indent, depth, tail);
      var next := FromQuote(members[1..], format, indent, tail);
      MembersRefused(members[1..], format, indent, close, depth, rest);
      MembersRejected(s, depth, members[0], after, next);
    }
  }

  lemma {:induction false} MemberRefused(members: seq<Member>, format: bool, indent: nat, depth: nat, tail: Bytes)
    requires members != [] && Valid(members[0].value) && NUL !in members[0].key
    requires depth <= NESTING_LIMIT < depth + Nesting(members[0].value)
    ensures BadMemberAt(FromQuote(members, format, indent, tail), depth)
    decreases members, 0, 0
  {
    hide ParseValue, ParseText, Render, Skip, AfterValue, Quoted;
    var key, value := members[0].key, members[0].value;
    var afterValue := AfterValue(members, format, indent, tail);
    var text := Render(value, format, indent) + afterValue;
    var afterKey := [COLON] + (ColonGap(format) + text);
    TextRoundTrip(key, afterKey);
    SkipNone(afterKey);
    RenderHead(value, format, indent);
    SkipTo(ColonGap(format), text);
    assert afterKey[1..] == ColonGap(format) + text;
    ValueRefused(value, format, indent, depth, afterValue);
  }

  // ----- Documents -----

  /**
    A printed document parses back to its tree, and the text of a tree that the printer refuses is
    refused by the parser.
   */
  lemma DocumentRoundTrip(t: Json, format: bool, requireNullTerminated: bool)
    requires Valid(t)
    ensures ParseDocument(Render(t, format, 0) + [NUL], requireNullTerminated) ==
      if Nesting(t) <= NESTING_LIMIT then Ok(t, [NUL]) else Rejected
  {
    hide ParseValue, Render, Nesting, Skip;
    var s := Render(t, format, 0) + [NUL];
    RenderHead(t, format, 0);
    NoBom(s);
    SkipNone(s);
    if Nesting(t) <= NESTING_LIMIT {
      ValueRoundTrip(t, format, 0, 0, [NUL]);
      SkipNul();
    } else {
      ValueRefused(t, format, 0, 0, [NUL]);
    }
  }

  lemma NoBom(s: Bytes)
    requires s != [] && s[0] != 0xEF
    ensures SkipBom(s) == s
  {
    assert |s| > 4 ==> s[..3][0] == s[0];
  }

  lemma SkipNul()
    ensures Skip([NUL]) == [NUL]
  {
    assert DropSpace([]) == [];
  }
}
