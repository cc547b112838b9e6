/**
  The printer as the program runs it: a buffer that grows on demand, an offset that sometimes lags
  behind what has been written, and a nesting depth.  Its output is the pure rendering, whatever the
  size of the buffer; it succeeds exactly when the nesting limit and the available room allow it.
 */
module JsonPrintBuffer {
  import opened Wrappers
  import opened JsonText
  import opened JsonString
  import opened JsonList
  import opened JsonNodes
  import opened JsonTree

  // ----- Texts contain no NUL -----

  lemma {:induction false} NoNulDigits(n: nat)
    ensures NUL !in Digits(n)
  {
    if n >= 10 {
      NoNulDigits(n / 10);
    }
  }

  lemma NoNulQuoted(text: Bytes)
    ensures NUL !in Quoted(text)
  {
    NoNulEscaped(text);
  }

  lemma {:induction false} NoNulRender(t: Json, format: bool, depth: nat)
    ensures NUL !in Render(t, format, depth)
    decreases t, 0
  {
    hide RenderItems, RenderMembers, Quoted, Digits;
    match t
    case Number(n) => NoNulDigits(if n < 0 then -n else n);
    case String(text) => NoNulQuoted(text);
    case Array(items) => NoNulItems(items, format, depth + 1);
    case Object(members) => NoNulMembers(members, format, depth + 1);
    case _ =>
  }

  lemma {:induction false} NoNulItems(items: seq<Json>, format: bool, depth: nat)
    ensures NUL !in RenderItems(items, format, depth)
    decreases items, 1
  {
    hide Render;
    if items != [] {
      NoNulRender(items[0], format, depth);
      NoNulItems(items[1..], format, depth);
    }
  }

  lemma {:induction false} NoNulMembers(members: seq<Member>, format: bool, depth: nat)
    ensures NUL !in RenderMembers(members, format, depth)
    decreases members, 1
  {
    hide Render, Quoted;
    if members != [] {
      NoNulQuoted(members[0].key);
      NoNulRender(members[0].value, format, depth);
      NoNulMembers(members[1..], format, depth);
    }
  }

  // ----- The size pass of strings -----

  /** The number of additional bytes that escaping b needs. */
  function EscapeExtra(b: byte): nat {
    if EscapeLetter(b).Some? then 1 else if b < 32 then 5 else 0
  }

  function EscapeTotal(text: Bytes): nat {
    if text == [] then 0 else EscapeTotal(text[..|text| - 1]) + EscapeExtra(text[|text| - 1])
  }

  lemma {:induction false} EscapesAppend(text: Bytes, b: byte)
    ensures LiteralText(EscapePieces(text + [b])) == LiteralText(EscapePieces(text)) + EscapePiece(b).Text()
  {
    hide EscapePiece;
    if text == [] {
      assert EscapePieces([b])[1..] == [];
    } else {
      EscapesAppend(text[1..], b);
      assert (text + [b])[1..] == text[1..] + [b];
      assert EscapePieces(text + [b])[1..] == EscapePieces(text[1..] + [b]);
      assert EscapePieces(text)[1..] == EscapePieces(text[1..]);
    }
  }

  /** The size pass is exact. */
  lemma {:induction false} EscapedLength(text: Bytes)
    ensures |LiteralText(EscapePieces(text))| == |text| + EscapeTotal(text)
  {
    hide EscapePieces, LiteralText;
    if text == [] {
      assert LiteralText(EscapePieces([])) == [] by { NoEscapes(); }
    } else {
      var k := |text| - 1;
      EscapedLength(text[..k]);
      EscapesAppend(text[..k], text[k]);
      assert text == text[..k] + [text[k]];
    }
  }

  lemma NoEscapes()
    ensures LiteralText(EscapePieces([])) == []
  {}

  // ----- The buffer -----

  class PrintBuffer {
    var buffer: array<byte>
    var offset: nat
    var depth: nat
    const noalloc: bool
    const format: bool

    constructor (buffer: array<byte>, noalloc: bool, format: bool)
      requires buffer.Length <= INT_MAX
      ensures Valid() && this.buffer == buffer && offset == 0 && depth == 0
      ensures this.noalloc == noalloc && this.format == format
    {
      this.buffer := buffer;
      offset := 0;
      depth := 0;
      this.noalloc := noalloc;
      this.format := format;
    }

    /** The offset lies within the buffer, except before anything has been written. */
    ghost predicate Valid()
      reads this
    {
      buffer.Length <= INT_MAX && depth <= NESTING_LIMIT && (offset < buffer.Length || (offset == 0 && buffer.Length == 0))
    }

    /** How far the buffer reaches or can be made to reach. */
    function Limit(): int
      reads this
    {
      if noalloc then buffer.Length else INT_MAX
    }

    /** Makes room for `needed` more bytes and one to spare; what has been written is kept. */
    method Ensure(needed: nat) returns (ok: bool)
      requires Valid()
      modifies this`buffer
      ensures Valid() && Limit() == old(Limit())
      ensures ok <==> offset + needed + 1 <= Limit()
      ensures ok ==> offset + needed + 1 <= buffer.Length
      ensures buffer.Length >= old(buffer.Length) && buffer[..old(buffer.Length)] == old(buffer[..])
      ensures buffer == old(buffer) || (!noalloc && fresh(buffer))
    {
      var previous := buffer;
      assert buffer[..buffer.Length] == buffer[..];
      if buffer.Length > 0 && offset >= buffer.Length {
        return false;
      }
      if needed > INT_MAX {
        return false;
      }
      var total := needed + offset + 1;
      if total <= buffer.Length {
        return true;
      }
      if noalloc {
        return false;
      }
      var newsize := total * 2;
      if total > INT_MAX / 2 {
        if total > INT_MAX {
          return false;
        }
        newsize := INT_MAX;
      }
      var newbuffer := new byte[newsize](_ => 0);
      for i := 0 to previous.Length
        invariant buffer == previous && newbuffer[..i] == previous[..i]
      {
        newbuffer[i] := previous[i];
      }
      buffer := newbuffer;
      ok := true;
    }

    /** Copies bytes to the buffer at the offset. */
    method Store(bytes: Bytes)
      requires Valid() && offset + |bytes| <= buffer.Length
      modifies buffer
      ensures buffer[..offset + |bytes|] == old(buffer[..offset]) + bytes
    {
      for i := 0 to |bytes|
        invariant buffer[..offset + i] == old(buffer[..offset]) + bytes[..i]
      {
        buffer[offset + i] := bytes[i];
        assert buffer[..offset + i + 1] == buffer[..offset + i] + [bytes[i]];
      }
    }

    /** After the prefix the buffer holds the text and a NUL; the offset is somewhere in the text. */
    ghost predicate Holds(prefix: Bytes, text: Bytes)
      reads this, buffer
    {
      Valid() && |prefix| <= offset <= |prefix| + |text|
      && |prefix| + |text| + 2 <= buffer.Length
      && buffer[..|prefix| + |text| + 1] == prefix + text + [NUL]
    }

    /** Moves the offset to the end of the text by looking for the NUL. */
    method UpdateOffset(ghost prefix: Bytes, ghost text: Bytes)
      requires Holds(prefix, text) && NUL !in text
      modifies this`offset
      ensures Holds(prefix, text) && offset == |prefix| + |text|
      ensures buffer[..offset] == prefix + text
    {
      ghost var all := buffer[..|prefix| + |text| + 1];
      forall i | |prefix| <= i < |prefix| + |text|
        ensures buffer[i] != NUL
      {
        assert buffer[i] == all[i] == text[i - |prefix|];
      }
      while buffer[offset] != NUL
        invariant Holds(prefix, text)
        decreases |prefix| + |text| - offset
      {
        assert offset < |prefix| + |text| by {
          assert all[|prefix| + |text|] == NUL;
        }
        offset := offset + 1;
      }
      assert all[..|prefix| + |text|] == prefix + text;
    }

    /** What every printing method promises: its text, exactly when depth and room allow it. */
    twostate predicate Printed(ok: bool, text: Bytes, nesting: nat)
      requires old(Valid())
      reads this, buffer
    {
      Limit() == old(Limit()) && (buffer == old(buffer) || (!noalloc && fresh(buffer))) &&
      (ok <==> old(depth) + nesting <= NESTING_LIMIT && old(offset) + |text| + 2 <= Limit()) &&
      (ok ==> Holds(old(buffer[..offset]), text) && depth == old(depth))
    }

    /** null, false and true. */
    method PrintLiteral(text: Bytes) returns (ok: bool)
      requires Valid()
      modifies this, buffer
      ensures Printed(ok, text, 0)
    {
      ghost var prefix := buffer[..offset];
      ok := Ensure(|text| + 1);
      if ok {
        Store(text + [NUL]);
        assert buffer[..offset + |text| + 1] == prefix + text + [NUL];
      }
    }

    /** The offset stands behind the prefix and the text. */
    ghost predicate Wrote(prefix: Bytes, text: Bytes)
      reads this, buffer
    {
      Valid() && offset == |prefix| + |text| && buffer[..offset] == prefix + text
    }

    /** Appends bytes and a NUL and moves the offset behind the bytes. */
    method Emit(ghost prefix: Bytes, ghost text: Bytes, bytes: Bytes, needed: nat, terminate: bool) returns (ok: bool)
      requires Wrote(prefix, text) && |bytes| + (if terminate then 1 else 0) <= needed
      modifies this`buffer, this`offset, buffer
      ensures Limit() == old(Limit()) && (buffer == old(buffer) || (!noalloc && fresh(buffer)))
      ensures ok <==> old(offset) + needed + 1 <= Limit()
      ensures ok ==> Wrote(prefix, text + bytes)
    {
      ok := Ensure(needed);
      if ok {
        assert buffer[..offset] == prefix + text;
        Store(if terminate then bytes + [NUL] else bytes);
        assert buffer[..offset + |bytes|] == prefix + text + bytes;
        assert prefix + text + bytes == prefix + (text + bytes);
        offset := offset + |bytes|;
      }
    }

    /** Appends bytes and a NUL but leaves the offset in front of them. */
    method EmitLast(ghost prefix: Bytes, ghost text: Bytes, bytes: Bytes) returns (ok: bool)
      requires Wrote(prefix, text)
      modifies this`buffer, buffer
      ensures Limit() == old(Limit()) && (buffer == old(buffer) || (!noalloc && fresh(buffer)))
      ensures ok <==> offset + |bytes| + 2 <= Limit()
      ensures ok ==> Holds(prefix, text + bytes)
    {
      ok := Ensure(|bytes| + 1);
      if ok {
        assert buffer[..offset] == prefix + text;
        Store(bytes + [NUL]);
        assert prefix + text + (bytes + [NUL]) == prefix + (text + bytes) + [NUL];
      }
    }

    method PrintNumber(n: int) returns (ok: bool)
      requires Valid()
      modifies this, buffer
      ensures Printed(ok, NumberText(n), 0)
    {
      hide NumberText;
      ghost var prefix := buffer[..offset];
      var number := NumberText(n);
      ok := Ensure(|number| + 1);
      if ok {
        Store(number + [NUL]);
        assert buffer[..offset + |number| + 1] == prefix + number + [NUL];
        offset := offset + |number|;
      }
    }

    /** Stores a text and its NUL at the offset. */
    method StoreText(ghost prefix: Bytes, text: Bytes)
      requires Valid() && prefix == buffer[..offset] && offset + |text| + 2 <= buffer.Length
      modifies buffer
      ensures Holds(prefix, text)
    {
      Store(text + [NUL]);
      assert prefix + (text + [NUL]) == prefix + text + [NUL];
    }

    /** A string in quotes: a size pass, then either a plain copy or the escapes. */
    method PrintStringPtr(text: Bytes) returns (ok: bool)
      requires Valid()
      modifies this, buffer
      ensures Printed(ok, Quoted(text), 0)
    {
      hide Quoted, Holds;
      ghost var prefix := buffer[..offset];
      var escapeCharacters := CountEscapes(text);
      QuotedLength(text);
      var outputLength := |text| + escapeCharacters;
      ok := Ensure(outputLength + 3);
      if ok {
        var quoted := QuoteText(text, escapeCharacters);
        assert buffer[..offset] == prefix;
        StoreText(prefix, quoted);
      }
    }

    method PrintValue(item: Node, ghost p: Place, ghost t: Json) returns (ok: bool)
      requires Valid() && p.node == item && Shows(p, t)
      modifies this, buffer
      ensures Printed(ok, Render(t, format, old(depth)), Nesting(t))
      decreases t, 2
    {
      hide RenderItems, RenderMembers, ItemsNesting, MembersNesting, Quoted, Digits, Holds, Shows;
      NodeShows(p, t);
      ShowsValid(p, t);
      match item.kind
      case NullKind => ok := PrintLiteral(NULL_TEXT);
      case FalseKind => ok := PrintLiteral(FALSE_TEXT);
      case TrueKind => ok := PrintLiteral(TRUE_TEXT);
      case NumberKind => ok := PrintNumber(item.valueint);
      case StringKind => ok := PrintStringPtr(item.valuestring.value);
      case ArrayKind => ok := PrintArray(item, p, t);
      case ObjectKind => ok := PrintObject(item, p, t);
      case Invalid => ok := false;
    }

    /** Prints a value behind what has been written and moves the offset behind it. */
    method EmitValue(ghost prefix: Bytes, ghost text: Bytes, item: Node, ghost p: Place, ghost t: Json) returns (ok: bool)
      requires Wrote(prefix, text) && p.node == item && Shows(p, t)
      modifies this, buffer
      ensures Limit() == old(Limit()) && (buffer == old(buffer) || (!noalloc && fresh(buffer)))
      ensures ok <==> old(depth) + Nesting(t) <= NESTING_LIMIT && old(offset) + |Render(t, format, old(depth))| + 2 <= Limit()
      ensures ok ==> Wrote(prefix, text + Render(t, format, old(depth))) && depth == old(depth)
      decreases t, 3
    {
      hide Render, Nesting, Shows;
      ghost var r := Render(t, format, depth);
      ShowsValid(p, t);
      ok := PrintValue(item, p, t);
      if ok {
        NoNulRender(t, format, depth);
        UpdateOffset(prefix + text, r);
        assert prefix + text + r == prefix + (text + r);
      }
    }

    /** Prints a key behind what has been written and moves the offset behind it. */
    method EmitKey(ghost prefix: Bytes, ghost text: Bytes, key: Bytes) returns (ok: bool)
      requires Wrote(prefix, text)
      modifies this, buffer
      ensures Limit() == old(Limit()) && (buffer == old(buffer) || (!noalloc && fresh(buffer)))
      ensures ok <==> old(offset) + |Quoted(key)| + 2 <= Limit()
      ensures ok ==> Wrote(prefix, text + Quoted(key)) && depth == old(depth)
    {
      hide Quoted;
      ok := PrintStringPtr(key);
      if ok {
        NoNulQuoted(key);
        UpdateOffset(prefix + text, Quoted(key));
        assert prefix + text + Quoted(key) == prefix + (text + Quoted(key));
      }
    }

    ghost method StartWriting(prefix: Bytes)
      requires Valid() && prefix == buffer[..offset]
      ensures Wrote(prefix, [])
    {
      assert prefix + [] == prefix;
    }

    /** The opening bracket, one level deeper. */
    method Open(ghost prefix: Bytes, bracket: Bytes, needed: nat) returns (ok: bool)
      requires Valid() && prefix == buffer[..offset] && depth < NESTING_LIMIT && |bracket| <= needed
      modifies this`buffer, this`offset, this`depth, buffer
      ensures Limit() == old(Limit()) && (buffer == old(buffer) || (!noalloc && fresh(buffer)))
      ensures ok <==> old(offset) + needed + 1 <= Limit()
      ensures ok ==> Wrote(prefix, bracket) && depth == old(depth) + 1
    {
      StartWriting(prefix);
      ok := Emit(prefix, [], bracket, needed, false);
      if ok {
        assert [] + bracket == bracket;
        depth := depth + 1;
      }
    }

    method Leave(ghost prefix: Bytes, ghost text: Bytes)
      requires Holds(prefix, text) && depth > 0
      modifies this`depth
      ensures Holds(prefix, text) && depth == old(depth) - 1
    {
      depth := depth - 1;
    }

    method PrintArray(item: Node, ghost p: Place, ghost t: Json) returns (ok: bool)
      requires Valid() && p.node == item && Shows(p, t) && t.Array?
      modifies this, buffer
      ensures Printed(ok, Render(t, format, old(depth)), Nesting(t))
      decreases t, 1
    {
      hide Render, RenderItems, Nesting, ItemsNesting, Wrote, Holds, JsonTree.Valid, Shows;
      ghost var prefix, d, items := buffer[..offset], depth, t.items;
      ghost var r := RenderItems(items, format, d + 1);
      ArrayParts(items, format, d);
      NothingLeft([], format, d + 1);
      if depth >= NESTING_LIMIT {
        return false;
      }
      ok := Open(prefix, [LBRACKET], 1);
      if !ok {
        return;
      }
      WroteOffset(prefix, [LBRACKET]);
      ok := PrintItems(prefix, [LBRACKET], item, p, items);
      if !ok {
        return;
      }
      WroteOffset(prefix, [LBRACKET] + r);
      ok := EmitLast(prefix, [LBRACKET] + r, [RBRACKET]);
      if ok {
        Leave(prefix, [LBRACKET] + r + [RBRACKET]);
      }
    }

    /** The loop over the elements. */
    method PrintItems(ghost prefix: Bytes, ghost front: Bytes, item: Node, ghost p: Place, ghost items: seq<Json>)
      returns (ok: bool)
      requires Wrote(prefix, front) && p.node == item && Shows(p, Array(items))
      modifies this, buffer
      ensures Limit() == old(Limit()) && (buffer == old(buffer) || (!noalloc && fresh(buffer)))
      ensures ok <==> Fits(old(depth) + ItemsNesting(items), old(offset), RenderItems(items, format, old(depth)), items == [])
      ensures ok ==> Wrote(prefix, front + RenderItems(items, format, old(depth))) && depth == old(depth)
      decreases items, 1
    {
      hide ItemText, RenderItems, ItemsNesting, Nesting, Wrote, JsonTree.Valid, Shows;
      ghost var d, all := depth, front + RenderItems(items, format, depth);
      ghost var text, i := front, 0;
      WroteOffset(prefix, text);
      assert items[0..] == items;
      ShowsValid(p, Array(items));
      ElementAt(p, items, 0);
      var element := item.child;
      while element != null
        invariant i <= |items| && element == if i < |items| then p.kids[i].node else null
        invariant |p.kids| == |items| && Shows(p, Array(items))
        invariant Wrote(prefix, text) && depth == d && Limit() == old(Limit()) && offset == |prefix| + |text|
        invariant buffer == old(buffer) || (!noalloc && fresh(buffer))
        invariant all == text + RenderItems(items[i..], format, d)
        invariant d + ItemsNesting(items) <= NESTING_LIMIT <==> d + ItemsNesting(items[i..]) <= NESTING_LIMIT
        invariant i == 0 || offset + 2 <= Limit()
        decreases |items| - i
      {
        ItemParts(items, i, format, d);
        ElementAt(p, items, i);
        ok := EmitItem(prefix, text, element, p, items, i);
        if !ok {
          return;
        }
        text := text + ItemText(items, i, format, d);
        WroteOffset(prefix, text);
        ElementAt(p, items, i);
        element := element.next;
        i := i + 1;
      }
      NothingLeft(items[|items|..], format, d);
      assert all == text;
      ok := true;
    }

    /** One element and the separator behind it. */
    method EmitItem(ghost prefix: Bytes, ghost text: Bytes, element: Node, ghost p: Place, ghost items: seq<Json>, ghost i: nat)
      returns (ok: bool)
      requires Wrote(prefix, text) && i < |items| && Shows(p, Array(items)) && |p.kids| == |items| && element == p.kids[i].node
      modifies this, buffer
      ensures Limit() == old(Limit()) && (buffer == old(buffer) || (!noalloc && fresh(buffer)))
      ensures ok <==> Fits(old(depth) + Nesting(items[i]), old(offset), ItemText(items, i, format, old(depth)), false)
      ensures ok ==> Wrote(prefix, text + ItemText(items, i, format, old(depth))) && depth == old(depth)
      decreases items, 0
    {
      hide Render, Nesting, Wrote, Shows;
      ghost var r := Render(items[i], format, depth);
      WroteOffset(prefix, text);
      ElementAt(p, items, i);
      ok := EmitValue(prefix, text, element, p.kids[i], items[i]);
      if ok {
        WroteOffset(prefix, text + r);
        ElementAt(p, items, i);
        if element.next != null {
          var separator := ArraySeparator(format);
          ok := Emit(prefix, text + r, separator, |separator| + 1, true);
          assert text + r + separator == text + (r + separator);
        } else {
          assert r + [] == r;
        }
      }
    }

    /** The nesting is allowed and there is room for the text; nothing at all always fits. */
    predicate Fits(nesting: nat, start: nat, text: Bytes, nothing: bool)
      reads this
    {
      nesting <= NESTING_LIMIT && (nothing || start + |text| + 2 <= Limit())
    }

    method PrintObject(item: Node, ghost p: Place, ghost t: Json) returns (ok: bool)
      requires Valid() && p.node == item && Shows(p, t) && t.Object?
      modifies this, buffer
      ensures Printed(ok, Render(t, format, old(depth)), Nesting(t))
      decreases t, 1
    {
      hide Render, RenderMembers, Nesting, MembersNesting, Wrote, Holds, JsonTree.Valid, ObjectClose, Shows;
      ghost var prefix, d, members := buffer[..offset], depth, t.members;
      ghost var r := RenderMembers(members, format, d + 1);
      ObjectParts(members, format, d);
      if depth >= NESTING_LIMIT {
        return false;
      }
      var open := ObjectOpen(format);
      ok := Open(prefix, open, |open| + 1);
      if !ok {
        return;
      }
      WroteOffset(prefix, open);
      ok := PrintMembers(prefix, open, item, p, members);
      if !ok {
        return;
      }
      WroteOffset(prefix, open + r);
      var close := ObjectClose(format, depth - 1);
      ok := EmitLast(prefix, open + r, close);
      if ok {
        Leave(prefix, open + r + close);
      }
    }

    /** The loop over the members. */
    method PrintMembers(ghost prefix: Bytes, ghost front: Bytes, item: Node, ghost p: Place, ghost members: seq<Member>)
      returns (ok: bool)
      requires Wrote(prefix, front) && p.node == item && Shows(p, Object(members))
      modifies this, buffer
      ensures Limit() == old(Limit()) && (buffer == old(buffer) || (!noalloc && fresh(buffer)))
      ensures ok <==> Fits(old(depth) + MembersNesting(members), old(offset), RenderMembers(members, format, old(depth)), members == [])
      ensures ok ==> Wrote(prefix, front + RenderMembers(members, format, old(depth))) && depth == old(depth)
      decreases members, 1
    {
      hide MemberText, RenderMembers, MembersNesting, Nesting, Wrote, JsonTree.Valid, Shows;
      ghost var d, all := depth, front + RenderMembers(members, format, depth);
      ghost var text, i := front, 0;
      WroteOffset(prefix, text);
      assert members[0..] == members;
      ShowsValid(p, Object(members));
      MemberAt(p, members, 0);
      var element := item.child;
      while element != null
        invariant i <= |members| && element == if i < |members| then p.kids[i].node else null
        invariant |p.kids| == |members| && Shows(p, Object(members))
        invariant Wrote(prefix, text) && depth == d && Limit() == old(Limit()) && offset == |prefix| + |text|
        invariant buffer == old(buffer) || (!noalloc && fresh(buffer))
        invariant all == text + RenderMembers(members[i..], format, d)
        invariant d + MembersNesting(members) <= NESTING_LIMIT <==> d + MembersNesting(members[i..]) <= NESTING_LIMIT
        invariant i == 0 || offset + 2 <= Limit()
        decreases |members| - i
      {
        MemberParts(members, i, format, d);
        MemberAt(p, members, i);
        ok := EmitMember(prefix, text, element, p, members, i);
        if !ok {
          return;
        }
        text := text + MemberText(members, i, format, d);
        WroteOffset(prefix, text);
        MemberAt(p, members, i);
        element := element.next;
        i := i + 1;
      }
      NoMembersLeft(members[|members|..], format, d);
      assert all == text;
      ok := true;
    }

    /** Indentation, key, colon, value, comma and line end. */
    method EmitMember(ghost prefix: Bytes, ghost text: Bytes, element: Node, ghost p: Place, ghost members: seq<Member>,
                      ghost i: nat) returns (ok: bool)
      requires Wrote(prefix, text) && i < |members| && Shows(p, Object(members)) && |p.kids| == |members|
      requires element == p.kids[i].node
      modifies this, buffer
      ensures Limit() == old(Limit()) && (buffer == old(buffer) || (!noalloc && fresh(buffer)))
      ensures ok <==> Fits(old(depth) + Nesting(members[i].value), old(offset), MemberText(members, i, format, old(depth)), false)
      ensures ok ==> Wrote(prefix, text + MemberText(members, i, format, old(depth))) && depth == old(depth)
      decreases members, 0
    {
      hide Render, Nesting, Wrote, KeyText, MemberEnd, Shows;
      ghost var key, value := KeyText(members[i].key, format, depth), Render(members[i].value, format, depth);
      MemberAt(p, members, i);
      var end := MemberEnd(format, element.next != null);
      WroteOffset(prefix, text);
      ok := EmitKeyAndColon(prefix, text, element.name.value);
      if !ok {
        return;
      }
      MemberAt(p, members, i);
      WroteOffset(prefix, text + key);
      ok := EmitValue(prefix, text + key, element, p.kids[i], members[i].value);
      if !ok {
        return;
      }
      WroteOffset(prefix, text + key + value);
      ok := Emit(prefix, text + key + value, end, |end| + 1, true);
      assert text + key + value + end == text + (key + value + end);
    }

    /** Indentation, key and colon. */
    method EmitKeyAndColon(ghost prefix: Bytes, ghost text: Bytes, key: Bytes) returns (ok: bool)
      requires Wrote(prefix, text)
      modifies this, buffer
      ensures Limit() == old(Limit()) && (buffer == old(buffer) || (!noalloc && fresh(buffer)))
      ensures old(offset) + |KeyText(key, format, old(depth))| + 2 <= Limit() ==> ok
      ensures ok ==> old(offset) + |KeyText(key, format, old(depth))| + 1 <= Limit()
      ensures ok ==> Wrote(prefix, text + KeyText(key, format, old(depth))) && depth == old(depth)
    {
      hide Wrote, Quoted, Tabs;
      ghost var d := depth;
      ghost var t := text;
      ghost var tabs := if format then Tabs(depth) else [];
      WroteOffset(prefix, t);
      if format {
        TabCount(depth);
        ok := Emit(prefix, t, Tabs(depth), depth, false);
        if !ok {
          return;
        }
        t := t + tabs;
      }
      assert t == text + tabs;
      WroteOffset(prefix, t);
      ok := EmitKey(prefix, t, key);
      if !ok {
        return;
      }
      t := t + Quoted(key);
      WroteOffset(prefix, t);
      var colon := if format then [COLON, TAB] else [COLON];
      ok := Emit(prefix, t, colon, |colon|, false);
      KeyParts(key, format, d);
      assert t + colon == text + (tabs + Quoted(key) + colon);
    }

    lemma WroteOffset(prefix: Bytes, text: Bytes)
      requires Wrote(prefix, text)
      ensures offset == |prefix| + |text| && depth <= NESTING_LIMIT
    {}
  }

  // ----- The three ways to print -----

  /** A value can be printed when it is not nested too deep and its text fits an int. */
  predicate Printable(t: Json, format: bool) {
    Nesting(t) <= NESTING_LIMIT && |Render(t, format, 0)| + 2 <= INT_MAX
  }

  /** cJSON_Print and cJSON_PrintUnformatted: a buffer of 256 bytes that grows, cut to the text at the end. */
  method Print(item: Node, format: bool, ghost p: Place, ghost t: Json) returns (printed: Option<Bytes>)
    requires p.node == item && Shows(p, t)
    ensures printed == if Printable(t, format) then Some(Render(t, format, 0) + [NUL]) else None
  {
    hide Render, Nesting, Valid, Shows;
    ShowsValid(p, t);
    var buffer := new byte[256](_ => 0);
    var b := new PrintBuffer(buffer, false, format);
    var ok := b.PrintValue(item, p, t);
    if !ok {
      return None;
    }
    ghost var r := Render(t, format, 0);
    NoNulRender(t, format, 0);
    assert b.Holds([], r);
    b.UpdateOffset([], r);
    assert [] + r == r;
    assert b.buffer[..b.offset + 1] == [] + r + [NUL];
    return Some(b.buffer[..b.offset + 1]);
  }

  /** cJSON_PrintBuffered: the caller chooses how large the growing buffer is at first, and gets it back whole. */
  method PrintBuffered(item: Node, prebuffer: int, format: bool, ghost p: Place, ghost t: Json)
    returns (printed: Option<array<byte>>)
    requires p.node == item && Shows(p, t) && prebuffer <= INT_MAX
    ensures printed.Some? <==> prebuffer >= 0 && Printable(t, format)
    ensures printed.Some? ==> ReadsAs(printed.value, Render(t, format, 0))
  {
    hide Render, Nesting, Valid, Shows;
    ShowsValid(p, t);
    if prebuffer < 0 {
      return None;
    }
    var buffer := new byte[prebuffer](_ => 0);
    var b := new PrintBuffer(buffer, false, format);
    var ok := b.PrintValue(item, p, t);
    if !ok {
      return None;
    }
    NoNulRender(t, format, 0);
    assert b.Holds([], Render(t, format, 0));
    assert [] + Render(t, format, 0) == Render(t, format, 0);
    return Some(b.buffer);
  }

  /** cJSON_PrintPreallocated: the caller's buffer is never replaced. */
  method PrintPreallocated(item: Node, buffer: array<byte>, length: int, format: bool, ghost p: Place, ghost t: Json)
    returns (ok: bool)
    requires p.node == item && Shows(p, t) && length <= INT_MAX && (length >= 0 ==> buffer.Length == length)
    modifies buffer
    ensures ok <==> length >= 0 && Nesting(t) <= NESTING_LIMIT && |Render(t, format, 0)| + 2 <= length
    ensures ok ==> ReadsAs(buffer, Render(t, format, 0))
  {
    hide Render, Nesting, Valid, Shows;
    ShowsValid(p, t);
    if length < 0 {
      return false;
    }
    var b := new PrintBuffer(buffer, true, format);
    ok := b.PrintValue(item, p, t);
    if ok {
      NoNulRender(t, format, 0);
      assert b.Holds([], Render(t, format, 0));
      assert [] + Render(t, format, 0) == Render(t, format, 0);
    }
  }

  /** What a C reader of the buffer sees: the text up to the first NUL. */
  ghost predicate ReadsAs(buffer: array<byte>, text: Bytes)
    reads buffer
  {
    |text| < buffer.Length && buffer[..|text| + 1] == text + [NUL] && NUL !in text
  }

  /** A child of an array, and the one behind it. */
  lemma ElementAt(p: Place, items: seq<Json>, i: nat)
    requires Shows(p, Array(items)) && i <= |items|
    ensures |p.kids| == |items| && p.node.child == if items == [] then null else p.kids[0].node
    ensures i < |items| ==>
      Shows(p.kids[i], items[i]) && p.kids[i].node.next == if i + 1 < |items| then p.kids[i + 1].node else null
  {
    hide Shows;
    KidsShow(p, Array(items));
    if i < |items| {
      NextKid(p, Array(items), i);
    }
  }

  /** A child of an object, with its name. */
  lemma MemberAt(p: Place, members: seq<Member>, i: nat)
    requires Shows(p, Object(members)) && i <= |members|
    ensures |p.kids| == |members| && p.node.child == if members == [] then null else p.kids[0].node
    ensures i < |members| ==>
      Shows(p.kids[i], members[i].value) && p.kids[i].node.name == Some(members[i].key)
      && p.kids[i].node.next == if i + 1 < |members| then p.kids[i + 1].node else null
  {
    hide Shows;
    KidsShow(p, Object(members));
    if i < |members| {
      NextKid(p, Object(members), i);
    }
  }

  lemma ArrayParts(items: seq<Json>, format: bool, depth: nat)
    ensures Render(Array(items), format, depth) == [LBRACKET] + RenderItems(items, format, depth + 1) + [RBRACKET]
    ensures Nesting(Array(items)) == 1 + ItemsNesting(items)
    ensures Valid(Array(items)) ==> forall i :: 0 <= i < |items| ==> Valid(items[i])
  {}

  lemma NothingLeft(items: seq<Json>, format: bool, depth: nat)
    requires items == []
    ensures RenderItems(items, format, depth) == [] && ItemsNesting(items) == 0
  {}

  /** An element and what separates it from the next one. */
  function ItemText(items: seq<Json>, i: nat, format: bool, depth: nat): Bytes
    requires i < |items|
  {
    Render(items[i], format, depth) + (if i + 1 < |items| then ArraySeparator(format) else [])
  }

  lemma ItemParts(items: seq<Json>, i: nat, format: bool, depth: nat)
    requires i < |items| && Valid(Array(items))
    ensures Valid(items[i])
    ensures ItemsNesting(items[i..]) == Max(Nesting(items[i]), ItemsNesting(items[i + 1..]))
    ensures RenderItems(items[i..], format, depth) == ItemText(items, i, format, depth) + RenderItems(items[i + 1..], format, depth)
  {
    hide Render;
    assert items[i..][1..] == items[i + 1..];
  }

  lemma ObjectParts(members: seq<Member>, format: bool, depth: nat)
    ensures Render(Object(members), format, depth)
      == ObjectOpen(format) + RenderMembers(members, format, depth + 1) + ObjectClose(format, depth)
    ensures |ObjectClose(format, depth)| >= 1
    ensures Nesting(Object(members)) == 1 + MembersNesting(members)
  {}

  lemma NoMembersLeft(members: seq<Member>, format: bool, depth: nat)
    requires members == []
    ensures RenderMembers(members, format, depth) == [] && MembersNesting(members) == 0
  {}

  lemma TabCount(n: nat)
    ensures |Tabs(n)| == n
  {}

  lemma KeyParts(key: Bytes, format: bool, depth: nat)
    ensures KeyText(key, format, depth)
      == (if format then Tabs(depth) else []) + Quoted(key) + (if format then [COLON, TAB] else [COLON])
  {
    hide Quoted, Tabs;
  }

  /** A member with its indentation and what separates it from the next one. */
  function MemberText(members: seq<Member>, i: nat, format: bool, depth: nat): Bytes
    requires i < |members|
  {
    KeyText(members[i].key, format, depth) + Render(members[i].value, format, depth) + MemberEnd(format, i + 1 < |members|)
  }

  lemma MemberParts(members: seq<Member>, i: nat, format: bool, depth: nat)
    requires i < |members| && Valid(Object(members))
    ensures Valid(members[i].value)
    ensures MembersNesting(members[i..]) == Max(Nesting(members[i].value), MembersNesting(members[i + 1..]))
    ensures RenderMembers(members[i..], format, depth)
      == MemberText(members, i, format, depth) + RenderMembers(members[i + 1..], format, depth)
  {
    hide Render, Quoted;
    assert members[i..][1..] == members[i + 1..];
  }

  lemma QuotedLength(text: Bytes)
    ensures |Quoted(text)| == |text| + EscapeTotal(text) + 2
  {
    EscapedLength(text);
  }

  method QuoteText(text: Bytes, escapeCharacters: nat) returns (quoted: Bytes)
    requires escapeCharacters == EscapeTotal(text)
    ensures quoted == Quoted(text)
  {
    hide EscapePieces, LiteralText;
    var escaped := text;
    if escapeCharacters == 0 {
      PlainText(text);
    } else {
      escaped := EscapeText(text);
    }
    quoted := [QUOTE] + escaped + [QUOTE];
  }

  /** The size pass over a string. */
  method CountEscapes(text: Bytes) returns (count: nat)
    ensures count == EscapeTotal(text)
  {
    count := 0;
    for i := 0 to |text|
      invariant count == EscapeTotal(text[..i])
    {
      assert text[..i + 1][..i] == text[..i];
      count := count + EscapeExtra(text[i]);
    }
    assert text[..|text|] == text;
  }

  /** The copying pass with escapes. */
  method EscapeText(text: Bytes) returns (escaped: Bytes)
    ensures escaped == LiteralText(EscapePieces(text))
  {
    hide EscapePieces, LiteralText;
    escaped := [];
    NoEscapes();
    for i := 0 to |text|
      invariant escaped == LiteralText(EscapePieces(text[..i]))
    {
      EscapesAppend(text[..i], text[i]);
      assert text[..i + 1] == text[..i] + [text[i]];
      escaped := escaped + EscapePiece(text[i]).Text();
    }
    assert text[..|text|] == text;
  }

  /** A text that needs no escapes is copied as it is. */
  lemma {:induction false} PlainText(text: Bytes)
    requires EscapeTotal(text) == 0
    ensures LiteralText(EscapePieces(text)) == text
  {
    hide EscapePieces, LiteralText;
    if text == [] {
      NoEscapes();
    } else {
      var k := |text| - 1;
      PlainText(text[..k]);
      EscapesAppend(text[..k], text[k]);
      assert text == text[..k] + [text[k]];
      assert EscapePiece(text[k]).Text() == [text[k]];
    }
  }
}
