/** What the parser must reject: texts that start no value, and printed arrays and objects that were cut short. */
module JsonTruncation {
  import opened JsonText
  import opened JsonString
  import opened JsonTree
  import opened JsonParser
  import opened JsonRoundTrip
  import opened Wrappers
  import G = JsonGrammar

  // ----- No value -----

  /** The bytes with which a value can start. */
  predicate StartsValue(b: byte) {
    b == QUOTE || b == MINUS || IsDigit(b) || b == LBRACKET || b == LBRACE || b == LETTER_n || b == LETTER_f || b == LETTER_t
  }

  lemma NothingStarts(s: Bytes, depth: nat)
    requires s == [] || !StartsValue(s[0])
    ensures ParseValue(s, depth) == Rejected
  {}

  /** A document whose first visible byte starts no value is rejected; an empty one, too. */
  lemma DocumentRefused(s: Bytes, requireNullTerminated: bool)
    requires var from := Skip(SkipBom(s)); from == [] || !StartsValue(from[0])
    ensures ParseDocument(s, requireNullTerminated) == Rejected
  {
    hide ParseValue, Skip, SkipBom;
    NothingStarts(Skip(SkipBom(s)), 0);
  }

  // ----- White space at the end -----

  /** Nothing visible is left. */
  predicate Blank(s: Bytes) {
    s == [] || s[0] <= SPACE
  }

  lemma WhiteSkipped(w: Bytes)
    requires G.White(w)
    ensures Blank(Skip(w)) && Follows(w)
  {
    G.NoneLeft(w);
  }

  lemma BlankRefused(s: Bytes, depth: nat)
    requires Blank(s)
    ensures ParseValue(s, depth) == Rejected && ParseItems(s, depth) == Rejected && ParseMembers(s, depth) == Rejected
  {
    hide Skip, Token, Decode, FindEnd;
  }

  lemma WhiteJoin(a: Bytes, b: Bytes)
    requires G.White(a) && G.White(b)
    ensures G.White(a + b)
  {}

  // ----- Prefixes -----

  /** A prefix ends within the first part or reaches into the second. */
  lemma PrefixSplit(p: Bytes, a: Bytes, b: Bytes)
    requires p <= a + b
    ensures |p| < |a| ==> p < a
    ensures |p| >= |a| ==> p == a + p[|a|..] && p[|a|..] <= b && (p < a + b ==> p[|a|..] < b)
  {
    if |p| >= |a| {
      assert p[..|a|] == a;
    } else {
      assert forall i :: 0 <= i < |p| ==> p[i] == (a + b)[i];
    }
  }

  lemma PrefixWhite(p: Bytes, w: Bytes)
    requires p <= w && G.White(w)
    ensures G.White(p)
  {}

  // ----- Words and numbers -----

  /** The value is rejected, or was a number and is now a shorter one. */
  ghost predicate Cut(t: Json, s: Bytes, depth: nat, tail: Bytes) {
    ParseValue(s, depth) == Rejected
    || (t.Number? && exists n :: ParseValue(s, depth) == Ok(Number(n), tail))
  }

  lemma WordCut(word: Bytes, p: Bytes, tail: Bytes, depth: nat)
    requires word == NULL_TEXT || word == FALSE_TEXT || word == TRUE_TEXT
    requires p < word && G.White(tail)
    ensures ParseValue(p + tail, depth) == Rejected
  {
    hide ParseItems, ParseMembers, ParseText, ParseNumber, Skip;
    var s := p + tail;
    assert word[|p|] > SPACE && (|s| > |p| ==> s[|p|] == tail[0] <= SPACE);
    if p == [] {
      assert s == tail;
    } else {
      assert s[0] == word[0];
    }
  }

  lemma {:induction false} ShorterValue(digits: Bytes, k: nat)
    requires k <= |digits|
    ensures DigitsValue(digits[..k]) <= DigitsValue(digits)
    decreases |digits|
  {
    if k < |digits| {
      var front := digits[..|digits| - 1];
      ShorterValue(front, k);
      assert front[..k] == digits[..k];
    } else {
      assert digits[..k] == digits;
    }
  }

  lemma NumberCut(n: int, p: Bytes, tail: Bytes, depth: nat)
    requires IsInt(n) && p < NumberText(n) && G.White(tail)
    ensures Cut(Number(n), p + tail, depth, tail)
  {
    hide Digits, DigitsValue, ParseValue, ReadNumber;
    var m: nat := if n < 0 then -n else n;
    var sign := if n < 0 then 1 else 0;
    SignFirst(n, m, sign);
    DigitsRead(m);
    var digits := NumberText(n)[sign..];
    assert digits == Digits(m);
    if p == [] {
      assert p + tail == tail;
      BlankRefused(tail, depth);
    } else if |p| == sign {
      assert p == [MINUS];
      SignAlone(tail, depth);
    } else {
      var k := |p| - sign;
      ShorterValue(digits, k);
      var c := G.Numeral(n < 0, digits[..k]);
      G.Words();
      assert p == G.Text(c);
      WhiteSkipped(tail);
      G.NumeralIsParsed(n < 0, digits[..k], depth, tail);
    }
  }

  lemma SignAlone(tail: Bytes, depth: nat)
    requires G.White(tail)
    ensures ParseValue([MINUS] + tail, depth) == Rejected
  {
    hide ParseItems, ParseMembers, ParseText, Skip, Token;
    TokenOf([MINUS], tail);
    assert ([MINUS] + tail)[0] == MINUS;
  }

  // ----- Strings -----

  /** One step of the scan. */
  lemma ScanStep(s: Bytes, i: nat)
    requires i < |s| && s[i] != QUOTE
    ensures s[i] != BACKSLASH ==> FindEnd(s, i) == FindEnd(s, i + 1)
    ensures s[i] == BACKSLASH && i + 1 < |s| ==> FindEnd(s, i) == FindEnd(s, i + 2)
    ensures s[i] == BACKSLASH && i + 1 == |s| ==> FindEnd(s, i) == None
  {}

  lemma ScanEnds(s: Bytes)
    ensures FindEnd(s, |s|) == None
  {}

  /** The bytes of a piece that the scan can meet. */
  lemma PieceBytes(piece: Piece)
    requires piece.Valid() && !piece.Pair?
    ensures var t := piece.Text();
      t != [] && t[0] != QUOTE && (piece.Raw? <==> |t| == 1) && (t[0] == BACKSLASH <==> !piece.Raw?)
      && (piece.Unit? <==> |t| == 6) && (piece.Short? <==> |t| == 2)
      && forall k :: 2 <= k < |t| ==> t[k] != QUOTE && t[k] != BACKSLASH
  {
    hide Hex4, ShortEscape;
    if piece.Unit? {
      assert forall k :: 2 <= k < 6 ==> piece.Text()[k] == piece.hex[k - 2];
    }
  }

  lemma PieceScanned(s: Bytes, i: nat, piece: Piece)
    requires piece.Valid() && !piece.Pair? && i + |piece.Text()| <= |s| && s[i..i + |piece.Text()|] == piece.Text()
    ensures FindEnd(s, i) == FindEnd(s, i + |piece.Text()|)
  {
    hide FindEnd, Piece.Valid, Piece.Text;
    PieceBytes(piece);
    var t := piece.Text();
    var u := s[i..i + |t|];
    assert u == t && s[i] == u[0];
    ScanStep(s, i);
    if piece.Unit? {
      forall k | i + 2 <= k < i + 6 ensures s[k] != QUOTE && s[k] != BACKSLASH {
        assert s[k] == u[k - i];
      }
      FindEndOver(s, i + 2, 4);
    }
  }

  /** Scanning from the middle of a piece, with nothing but white space behind it, finds no quote. */
  lemma PieceCut(s: Bytes, i: nat, piece: Piece, q: Bytes, tail: Bytes)
    requires piece.Valid() && !piece.Pair? && q < piece.Text() && G.White(tail) && i <= |s| && s[i..] == q + tail
    ensures FindEnd(s, i) == None
  {
    hide FindEnd, Piece.Valid, Piece.Text;
    PieceBytes(piece);
    var t, n := piece.Text(), |q|;
    forall k | i + n <= k < |s| ensures s[k] <= SPACE && s[k] != QUOTE && s[k] != BACKSLASH {
      assert s[k] == s[i..][k - i] == tail[k - i - n];
    }
    ScanEnds(s);
    if n == 0 {
      FindEndOver(s, i, |s| - i);
    } else {
      assert s[i] == s[i..][0] == q[0] == t[0];
      ScanStep(s, i);
      if i + 2 <= |s| {
        forall k | i + 2 <= k < |s| ensures s[k] != QUOTE && s[k] != BACKSLASH {
          if k < i + n {
            assert s[k] == s[i..][k - i] == q[k - i] == t[k - i];
          }
        }
        FindEndOver(s, i + 2, |s| - i - 2);
      }
    }
  }

  lemma {:induction false} LiteralCut(s: Bytes, i: nat, pieces: seq<Piece>, q: Bytes, tail: Bytes)
    requires WellFormed(pieces) && (forall k :: 0 <= k < |pieces| ==> !pieces[k].Pair?)
    requires q <= LiteralText(pieces) && G.White(tail) && i <= |s| && s[i..] == q + tail
    ensures FindEnd(s, i) == None
    decreases |pieces|
  {
    hide FindEnd, Piece.Text, Piece.Valid;
    if pieces == [] {
      BlankScanned(s, i, tail);
    } else {
      var t := pieces[0].Text();
      PrefixSplit(q, t, LiteralText(pieces[1..]));
      if |q| < |t| {
        PieceCut(s, i, pieces[0], q, tail);
      } else {
        var q' := q[|t|..];
        SplitAt(s, i, t, q' + tail);
        PieceScanned(s, i, pieces[0]);
        LiteralCut(s, i + |t|, pieces[1..], q', tail);
      }
    }
  }

  lemma BlankScanned(s: Bytes, i: nat, tail: Bytes)
    requires i <= |s| && s[i..] == tail && G.White(tail)
    ensures FindEnd(s, i) == None
  {
    assert forall k :: i <= k < |s| ==> s[k] == tail[k - i];
    FindEndOver(s, i, |tail|);
  }

  lemma {:induction false} NoPairs(text: Bytes)
    ensures forall k :: 0 <= k < |EscapePieces(text)| ==> !EscapePieces(text)[k].Pair?
  {}

  /** A printed string without its end is no string. */
  lemma TextCut(text: Bytes, p: Bytes, tail: Bytes)
    requires p < Quoted(text) && G.White(tail)
    ensures ParseText(p + tail) == Rejected
  {
    hide FindEnd, Decode, EscapePieces, LiteralText;
    var s := p + tail;
    if p == [] {
      assert s == tail;
    } else {
      var pieces := EscapePieces(text);
      EscapesMean(text);
      NoPairs(text);
      PrefixSplit(p, [QUOTE] + LiteralText(pieces), [QUOTE]);
      var q := p[1..];
      assert q <= LiteralText(pieces) by {
        if |p| < 1 + |LiteralText(pieces)| {
          assert q < ([QUOTE] + LiteralText(pieces))[1..];
        } else {
          assert p == [QUOTE] + LiteralText(pieces);
        }
      }
      assert s[1..] == q + tail;
      LiteralCut(s, 1, pieces, q, tail);
    }
  }

  lemma StringCut(text: Bytes, p: Bytes, tail: Bytes, depth: nat)
    requires p < Quoted(text) && G.White(tail)
    ensures ParseValue(p + tail, depth) == Rejected
  {
    hide ParseText, ParseItems, ParseMembers, ParseNumber, Skip, LiteralText;
    TextCut(text, p, tail);
    if p == [] {
      assert p + tail == tail;
      BlankRefused(tail, depth);
    } else {
      assert (p + tail)[0] == QUOTE;
    }
  }

  // ----- Arrays -----

  lemma ItemsStop(s: Bytes, depth: nat, item: Json, after: Bytes)
    requires ParseValue(s, depth) == Rejected || (ParseValue(s, depth) == Ok(item, after) && Blank(Skip(after)))
    ensures ParseItems(s, depth) == Rejected
  {
    hide ParseValue, Skip;
  }

  /** The first element was cut short. */
  lemma ItemCut(t: Json, s: Bytes, depth: nat, tail: Bytes)
    requires Cut(t, s, depth, tail) && G.White(tail)
    ensures ParseItems(s, depth) == Rejected
  {
    hide ParseValue, ParseItems, Skip;
    WhiteSkipped(tail);
    if ParseValue(s, depth) != Rejected {
      var n :| ParseValue(s, depth) == Ok(Number(n), tail);
      ItemsStop(s, depth, Number(n), tail);
    } else {
      ItemsStop(s, depth, t, tail);
    }
  }

  /** What is left of some items and of the white space in front of them. */
  lemma {:induction false} ItemsCutAfter(gap: Bytes, items: seq<Json>, format: bool, indent: nat, depth: nat, p: Bytes, tail: Bytes)
    requires items != [] && Valid(Array(items)) && depth + ItemsNesting(items) <= NESTING_LIMIT
    requires G.White(gap) && p <= gap + RenderItems(items, format, indent) && G.White(tail)
    ensures ParseItems(Skip(p + tail), depth) == Rejected
    ensures Blank(Skip(p + tail)) || Skip(p + tail)[0] != RBRACKET
    decreases items, 1
  {
    hide ParseItems, Skip, RenderItems, ItemsNesting, Valid;
    PrefixSplit(p, gap, RenderItems(items, format, indent));
    if |p| <= |gap| {
      PrefixWhite(p, gap);
      WhiteJoin(p, tail);
      WhiteSkipped(p + tail);
      BlankRefused(Skip(p + tail), depth);
    } else {
      var q := p[|gap|..];
      ItemsHead(items, format, indent, []);
      assert RenderItems(items, format, indent) + [] == RenderItems(items, format, indent);
      assert (q + tail)[0] == RenderItems(items, format, indent)[0];
      assert p + tail == gap + (q + tail);
      SkipTo(gap, q + tail);
      ItemsCut(items, format, indent, depth, q, tail);
    }
  }

  /** What comes behind the first element. */
  function AfterFirst(items: seq<Json>, format: bool, indent: nat): Bytes
    requires items != []
  {
    if |items| == 1 then [] else [COMMA] + (ItemGap(format) + RenderItems(items[1..], format, indent))
  }

  lemma ItemsCons(items: seq<Json>, format: bool, indent: nat)
    requires items != []
    ensures RenderItems(items, format, indent) == Render(items[0], format, indent) + AfterFirst(items, format, indent)
  {
    hide Render;
    SeparatorGap(format);
  }

  /** Elements without their end are rejected. */
  lemma {:induction false} ItemsCut(items: seq<Json>, format: bool, indent: nat, depth: nat, p: Bytes, tail: Bytes)
    requires items != [] && Valid(Array(items)) && depth + ItemsNesting(items) <= NESTING_LIMIT
    requires p <= RenderItems(items, format, indent) && G.White(tail)
    ensures ParseItems(p + tail, depth) == Rejected
    decreases items, 0
  {
    hide ParseValue, ParseItems, Render, RenderItems, AfterFirst, Nesting, ItemsNesting, Skip, Valid, Cut;
    ItemsValid(items);
    ItemsCons(items, format, indent);
    var text := Render(items[0], format, indent);
    PrefixSplit(p, text, AfterFirst(items, format, indent));
    if |p| < |text| {
      ValueCut(items[0], format, indent, depth, p, tail);
      ItemCut(items[0], p + tail, depth, tail);
    } else {
      var q := p[|text|..];
      assert p + tail == text + (q + tail);
      AfterItemCut(items, format, indent, depth, q, tail);
    }
  }

  /** Behind an element, the text ends before the comma, before the next elements, or in them. */
  lemma {:induction false} AfterItemCut(items: seq<Json>, format: bool, indent: nat, depth: nat, q: Bytes, tail: Bytes)
    requires items != [] && Valid(Array(items)) && depth + ItemsNesting(items) <= NESTING_LIMIT
    requires q <= AfterFirst(items, format, indent) && G.White(tail)
    ensures ParseItems(Render(items[0], format, indent) + (q + tail), depth) == Rejected
    decreases items, 0, 0
  {
    hide ParseValue, ParseItems, Render, RenderItems, Nesting, ItemsNesting, Skip, Valid;
    ItemsValid(items);
    var after := q + tail;
    var s := Render(items[0], format, indent) + after;
    if q == [] {
      assert after == tail;
      WhiteSkipped(tail);
      ValueRoundTrip(items[0], format, indent, depth, after);
      ItemsStop(s, depth, items[0], after);
    } else {
      var more := ItemGap(format) + RenderItems(items[1..], format, indent);
      assert after[0] == COMMA && after[1..] == q[1..] + tail;
      ValueRoundTrip(items[0], format, indent, depth, after);
      SkipNone(after);
      assert q[1..] <= more by {
        assert ([COMMA] + more)[1..] == more;
      }
      ItemsCutAfter(ItemGap(format), items[1..], format, indent, depth, q[1..], tail);
      ItemsRejected(s, depth, items[0], after, Skip(after[1..]));
    }
  }

  lemma {:induction false} ArrayCut(items: seq<Json>, format: bool, indent: nat, depth: nat, p: Bytes, tail: Bytes)
    requires Valid(Array(items)) && depth + Nesting(Array(items)) <= NESTING_LIMIT
    requires p < Render(Array(items), format, indent) && G.White(tail)
    ensures ParseValue(p + tail, depth) == Rejected
    decreases items, 2
  {
    hide ParseItems, ParseValue, RenderItems, Skip, Valid, Nesting, ItemsNesting;
    G.ArrayNesting(items);
    if p == [] {
      assert p + tail == tail;
      BlankRefused(tail, depth);
    } else {
      var body := RenderItems(items, format, indent + 1);
      assert Render(Array(items), format, indent) == [LBRACKET] + (body + [RBRACKET]);
      var q := p[1..];
      assert p[0] == LBRACKET;
      assert q < body + [RBRACKET];
      PrefixSplit(q, body, [RBRACKET]);
      assert q <= body;
      var s := p + tail;
      assert s[1..] == q + tail;
      if items == [] {
        NoItems(format, indent + 1);
        assert q + tail == tail;
        WhiteSkipped(tail);
        BlankRefused(Skip(tail), depth + 1);
      } else {
        assert [] + body == body;
        ItemsCutAfter([], items, format, indent + 1, depth + 1, q, tail);
      }
      ArrayStops(s, depth);
    }
  }

  lemma ArrayStops(s: Bytes, depth: nat)
    requires s != [] && s[0] == LBRACKET && ParseItems(Skip(s[1..]), depth + 1) == Rejected
    requires Blank(Skip(s[1..])) || Skip(s[1..])[0] != RBRACKET
    ensures ParseValue(s, depth) == Rejected
  {
    hide ParseItems, ParseMembers, Skip;
  }

  /** A printed value without its end is rejected, unless what is left is a shorter number. */
  lemma {:induction false} ValueCut(t: Json, format: bool, indent: nat, depth: nat, p: Bytes, tail: Bytes)
    requires Valid(t) && depth + Nesting(t) <= NESTING_LIMIT
    requires p < Render(t, format, indent) && G.White(tail)
    ensures Cut(t, p + tail, depth, tail)
    decreases t, 0
  {
    hide Nesting, RenderItems, RenderMembers, ParseValue, NumberText, Quoted;
    match t
    case Null => WordCut(NULL_TEXT, p, tail, depth);
    case False => WordCut(FALSE_TEXT, p, tail, depth);
    case True => WordCut(TRUE_TEXT, p, tail, depth);
    case Number(n) => NumberCut(n, p, tail, depth);
    case String(text) => StringCut(text, p, tail, depth);
    case Array(items) => ArrayCut(items, format, indent, depth, p, tail);
    case Object(members) => ObjectCut(members, format, indent, depth, p, tail);
  }

  // ----- Objects -----

  /** A key without its end, a key without its colon, or a value that is rejected. */
  lemma MembersStop(s: Bytes, depth: nat)
    requires ParseText(s) == Rejected || BadMemberAt(s, depth)
      || (ParseText(s).Ok? && Blank(Skip(ParseText(s).rest)))
    ensures ParseMembers(s, depth) == Rejected
  {
    hide ParseValue, ParseText, Skip;
  }

  lemma MemberStops(s: Bytes, depth: nat, member: Member, after: Bytes)
    requires MemberAt(s, depth, member, after) && Blank(Skip(after))
    ensures ParseMembers(s, depth) == Rejected
  {
    hide ParseValue, ParseText, Skip;
  }

  /** What is left of some members and of the white space in front of them. */
  lemma {:induction false} MembersCutAfter(gap: Bytes, members: seq<Member>, format: bool, indent: nat, close: nat, depth: nat,
                                           p: Bytes, tail: Bytes)
    requires members != [] && Valid(Object(members)) && depth + MembersNesting(members) <= NESTING_LIMIT
    requires G.White(gap) && p < gap + FromQuote(members, format, indent, ObjectClose(format, close)) && G.White(tail)
    ensures ParseMembers(Skip(p + tail), depth) == Rejected
    ensures Blank(Skip(p + tail)) || Skip(p + tail)[0] != RBRACE
    decreases members, 2
  {
    hide ParseMembers, Skip, FromQuote, MembersNesting, Valid, ObjectClose;
    var text := FromQuote(members, format, indent, ObjectClose(format, close));
    PrefixSplit(p, gap, text);
    if |p| <= |gap| {
      PrefixWhite(p, gap);
      WhiteJoin(p, tail);
      WhiteSkipped(p + tail);
      BlankRefused(Skip(p + tail), depth);
    } else {
      var q := p[|gap|..];
      QuoteFirst(members, format, indent, ObjectClose(format, close));
      assert (q + tail)[0] == text[0];
      assert p + tail == gap + (q + tail);
      SkipTo(gap, q + tail);
      MembersCut(members, format, indent, close, depth, q, tail);
    }
  }

  /** Members without their end are rejected. */
  lemma {:induction false} MembersCut(members: seq<Member>, format: bool, indent: nat, close: nat, depth: nat, p: Bytes, tail: Bytes)
    requires members != [] && Valid(Object(members)) && depth + MembersNesting(members) <= NESTING_LIMIT
    requires p < FromQuote(members, format, indent, ObjectClose(format, close)) && G.White(tail)
    ensures ParseMembers(p + tail, depth) == Rejected
    decreases members, 1
  {
    hide ParseMembers, ParseText, Skip, Valid, Quoted, FromQuote, AfterValue, Render, MembersNesting, Nesting, ParseValue;
    var key, value := members[0].key, members[0].value;
    MembersValid(members);
    var rest := FromValue(members, format, indent, close);
    FromQuoteIs(members, format, indent, close);
    PrefixSplit(p, Quoted(key), [COLON] + (ColonGap(format) + rest));
    if |p| < |Quoted(key)| {
      TextCut(key, p, tail);
      MembersStop(p + tail, depth);
    } else {
      var q := p[|Quoted(key)|..];
      assert p + tail == Quoted(key) + (q + tail);
      TextRoundTrip(key, q + tail);
      if q == [] {
        WhiteSkipped(tail);
        assert q + tail == tail;
        MembersStop(p + tail, depth);
      } else {
        var from := q[1..] + tail;
        assert q + tail == [COLON] + from;
        SkipNone(q + tail);
        assert q[1..] < ColonGap(format) + rest by {
          assert ([COLON] + (ColonGap(format) + rest))[1..] == ColonGap(format) + rest;
        }
        AfterColonCut(members, format, indent, close, depth, p + tail, q[1..], tail);
      }
    }
  }

  /** The value of the first member and what follows it. */
  function FromValue(members: seq<Member>, format: bool, indent: nat, close: nat): Bytes
    requires members != []
  {
    Render(members[0].value, format, indent) + AfterValue(members, format, indent, ObjectClose(format, close))
  }

  lemma FromQuoteIs(members: seq<Member>, format: bool, indent: nat, close: nat)
    requires members != []
    ensures FromQuote(members, format, indent, ObjectClose(format, close)) ==
      Quoted(members[0].key) + ([COLON] + (ColonGap(format) + FromValue(members, format, indent, close)))
  {
    hide Quoted, Render, AfterValue;
  }

  lemma MembersValid(members: seq<Member>)
    requires members != [] && Valid(Object(members))
    ensures NUL !in members[0].key && Valid(members[0].value) && Valid(Object(members[1..]))
    ensures MembersNesting(members) == JsonTree.Max(Nesting(members[0].value), MembersNesting(members[1..]))
  {
    hide Nesting;
  }

  /** Behind the colon, the text ends in the white space, in the value, or behind it. */
  lemma {:induction false} AfterColonCut(members: seq<Member>, format: bool, indent: nat, close: nat, depth: nat, s: Bytes, q: Bytes,
                                         tail: Bytes)
    requires members != [] && Valid(Object(members)) && depth + MembersNesting(members) <= NESTING_LIMIT
    requires G.White(tail) && q < ColonGap(format) + FromValue(members, format, indent, close)
    requires ParseText(s).Ok? && ParseText(s).value == members[0].key && Skip(ParseText(s).rest) == [COLON] + (q + tail)
    ensures ParseMembers(s, depth) == Rejected
    decreases members, 0, 2
  {
    hide ParseMembers, ParseText, Skip, Valid, AfterValue, Render, MembersNesting, Nesting, ParseValue;
    MembersValid(members);
    var value, gap := members[0].value, ColonGap(format);
    var text, after := Render(value, format, indent), AfterValue(members, format, indent, ObjectClose(format, close));
    assert Skip(ParseText(s).rest)[1..] == q + tail;
    PrefixSplit(q, gap, text + after);
    if |q| <= |gap| {
      PrefixWhite(q, gap);
      WhiteJoin(q, tail);
      WhiteSkipped(q + tail);
      BlankRefused(Skip(q + tail), depth);
      MembersStop(s, depth);
    } else {
      var v := q[|gap|..];
      RenderHead(value, format, indent);
      assert (v + tail)[0] == text[0];
      assert q + tail == gap + (v + tail);
      SkipTo(gap, v + tail);
      InValueCut(members, format, indent, close, depth, s, v, tail);
    }
  }

  lemma {:induction false} InValueCut(members: seq<Member>, format: bool, indent: nat, close: nat, depth: nat, s: Bytes, v: Bytes,
                                      tail: Bytes)
    requires members != [] && Valid(Object(members)) && depth + MembersNesting(members) <= NESTING_LIMIT
    requires G.White(tail) && v < FromValue(members, format, indent, close)
    requires ParseText(s).Ok? && ParseText(s).value == members[0].key && Skip(ParseText(s).rest) != []
    requires Skip(ParseText(s).rest)[0] == COLON && Skip(Skip(ParseText(s).rest)[1..]) == v + tail
    ensures ParseMembers(s, depth) == Rejected
    decreases members, 0, 1
  {
    hide ParseMembers, ParseText, Skip, Valid, AfterValue, Render, MembersNesting, Nesting, ParseValue, Cut;
    MembersValid(members);
    var value := members[0].value;
    var text := Render(value, format, indent);
    PrefixSplit(v, text, AfterValue(members, format, indent, ObjectClose(format, close)));
    if |v| < |text| {
      ValueCut(value, format, indent, depth, v, tail);
      MemberCut(s, depth, members[0].key, value, v + tail, tail);
    } else {
      var a := v[|text|..];
      assert v + tail == text + (a + tail);
      AfterValueCut(members, format, indent, close, depth, s, a, tail);
    }
  }

  /** The value of a member was cut short. */
  lemma MemberCut(s: Bytes, depth: nat, key: Bytes, t: Json, from: Bytes, tail: Bytes)
    requires ParseText(s).Ok? && ParseText(s).value == key && Skip(ParseText(s).rest) != []
    requires Skip(ParseText(s).rest)[0] == COLON && Skip(Skip(ParseText(s).rest)[1..]) == from
    requires Cut(t, from, depth, tail) && G.White(tail)
    ensures ParseMembers(s, depth) == Rejected
  {
    hide ParseMembers, ParseText, Skip, ParseValue;
    if ParseValue(from, depth) == Rejected {
      MembersStop(s, depth);
    } else {
      var n :| ParseValue(from, depth) == Ok(Number(n), tail);
      WhiteSkipped(tail);
      MemberStops(s, depth, Member(key, Number(n)), tail);
    }
  }

  /** Behind the value, the text ends before the comma, before the next members, in them, or before the closing brace. */
  lemma {:induction false} AfterValueCut(members: seq<Member>, format: bool, indent: nat, close: nat, depth: nat, s: Bytes, a: Bytes,
                                         tail: Bytes)
    requires members != [] && Valid(Object(members)) && depth + MembersNesting(members) <= NESTING_LIMIT
    requires G.White(tail) && a < AfterValue(members, format, indent, ObjectClose(format, close))
    requires ParseText(s).Ok? && ParseText(s).value == members[0].key && Skip(ParseText(s).rest) != []
    requires Skip(ParseText(s).rest)[0] == COLON
    requires Skip(Skip(ParseText(s).rest)[1..]) == Render(members[0].value, format, indent) + (a + tail)
    ensures ParseMembers(s, depth) == Rejected
    decreases members, 0, 0
  {
    hide ParseMembers, ParseText, Skip, Valid, Render, MembersNesting, Nesting, ParseValue, FromQuote;
    MembersValid(members);
    var value, after := members[0].value, a + tail;
    if a == [] || |members| == 1 {
      assert G.White(a) by {
        if |members| == 1 {
          LastGap(members, format, indent, close, a);
        }
      }
      WhiteJoin(a, tail);
      WhiteSkipped(after);
      ValueRoundTrip(value, format, indent, depth, after);
      MemberStops(s, depth, members[0], after);
    } else {
      var more := KeyGap(format, indent) + FromQuote(members[1..], format, indent, ObjectClose(format, close));
      assert AfterValue(members, format, indent, ObjectClose(format, close)) == [COMMA] + more;
      assert a[0] == COMMA && after[0] == COMMA && after[1..] == a[1..] + tail;
      assert a[1..] < more by {
        assert ([COMMA] + more)[1..] == more;
      }
      ValueRoundTrip(value, format, indent, depth, after);
      SkipNone(after);
      MembersCutAfter(KeyGap(format, indent), members[1..], format, indent, close, depth, a[1..], tail);
      MembersRejected(s, depth, members[0], after, Skip(after[1..]));
    }
  }

  /** In front of the closing brace there is white space only. */
  lemma LastGap(members: seq<Member>, format: bool, indent: nat, close: nat, a: Bytes)
    requires |members| == 1 && a < AfterValue(members, format, indent, ObjectClose(format, close))
    ensures G.White(a)
  {
    var gap := if format then [NEWLINE] + Tabs(close) else [];
    assert AfterValue(members, format, indent, ObjectClose(format, close)) == gap + [RBRACE];
    PrefixSplit(a, gap, [RBRACE]);
    assert a <= gap;
  }

  lemma {:induction false} ObjectCut(members: seq<Member>, format: bool, indent: nat, depth: nat, p: Bytes, tail: Bytes)
    requires Valid(Object(members)) && depth + Nesting(Object(members)) <= NESTING_LIMIT
    requires p < Render(Object(members), format, indent) && G.White(tail)
    ensures ParseValue(p + tail, depth) == Rejected
    decreases members, 3
  {
    hide ParseMembers, ParseValue, RenderMembers, Render, Skip, Valid, Nesting, MembersNesting, FromQuote, ObjectClose;
    ObjectNesting(members);
    if p == [] {
      assert p + tail == tail;
      BlankRefused(tail, depth);
    } else {
      var text, s := Render(Object(members), format, indent), p + tail;
      ObjectText(members, format, indent, []);
      assert text + [] == text && ObjectClose(format, indent) + [] == ObjectClose(format, indent);
      var body := AfterBrace(members, format, indent + 1, ObjectClose(format, indent));
      assert p[0] == LBRACE && p[1..] < body by {
        assert text[1..] == body;
      }
      assert s[1..] == p[1..] + tail;
      if members == [] {
        NoMembers(format, indent, p[1..]);
        WhiteJoin(p[1..], tail);
        WhiteSkipped(s[1..]);
        BlankRefused(Skip(s[1..]), depth + 1);
      } else {
        MembersText(members, format, indent + 1, ObjectClose(format, indent));
        MembersCutAfter(KeyGap(format, indent + 1), members, format, indent + 1, indent, depth + 1, p[1..], tail);
      }
      ObjectStops(s, depth);
    }
  }

  lemma NoMembers(format: bool, indent: nat, p: Bytes)
    requires p < AfterBrace([], format, indent + 1, ObjectClose(format, indent))
    ensures G.White(p)
  {
    NoItems(format, indent + 1);
    var gap := if format then [NEWLINE] + Tabs(indent) else [];
    assert AfterBrace([], format, indent + 1, ObjectClose(format, indent)) == gap + [RBRACE];
    PrefixSplit(p, gap, [RBRACE]);
    assert p <= gap;
  }

  lemma ObjectStops(s: Bytes, depth: nat)
    requires s != [] && s[0] == LBRACE && ParseMembers(Skip(s[1..]), depth + 1) == Rejected
    requires Blank(Skip(s[1..])) || Skip(s[1..])[0] != RBRACE
    ensures ParseValue(s, depth) == Rejected
  {
    hide ParseItems, ParseMembers, Skip;
  }

  // ----- Documents -----

  /** A printed array or object that was cut short is rejected, whatever white space follows (the NUL at least). */
  lemma TruncatedDocument(t: Json, format: bool, p: Bytes, tail: Bytes, requireNullTerminated: bool)
    requires Valid(t) && Nesting(t) <= NESTING_LIMIT && (t.Array? || t.Object?)
    requires p < Render(t, format, 0) && G.White(tail)
    ensures ParseDocument(p + tail, requireNullTerminated) == Rejected
  {
    hide ParseValue, Render, Nesting, Skip, Valid;
    var s := p + tail;
    ValueCut(t, format, 0, 0, p, tail);
    if p == [] {
      assert s == tail;
      NoBomIn(s);
      WhiteSkipped(s);
      BlankRefused(Skip(s), 0);
    } else {
      RenderHead(t, format, 0);
      assert s[0] == Render(t, format, 0)[0];
      NoBom(s);
      SkipNone(s);
    }
  }

  lemma NoBomIn(s: Bytes)
    requires G.White(s)
    ensures SkipBom(s) == s
  {
    assert |s| > 4 ==> s[..3][0] == s[0];
  }
}
