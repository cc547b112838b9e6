/**
  String literals: scanning, decoding of escapes (section 7 of RFC 8259) and escaping for output.

  A literal is given as a byte sequence s that begins with a quote; positions are indices into s.
 */
module JsonString {
  import opened JsonText
  import opened Wrappers

  // ----- Scanning -----

  /** The index of the closing quote, looking from index i; a backslash hides the next byte. */
  function FindEnd(s: Bytes, i: nat): (r: Option<nat>)
    ensures r.Some? ==> i <= r.value < |s| && s[r.value] == QUOTE
    decreases |s| - i
  {
    if i >= |s| then None
    else if s[i] == QUOTE then Some(i)
    else if s[i] == BACKSLASH then (if i + 1 >= |s| then None else FindEnd(s, i + 2))
    else FindEnd(s, i + 1)
  }

  /** The number of backslashes that hide a byte from index i up to the closing quote. */
  function Skips(s: Bytes, i: nat): nat
    requires FindEnd(s, i).Some?
    decreases |s| - i
  {
    if s[i] == QUOTE then 0
    else if s[i] == BACKSLASH then 1 + Skips(s, i + 2)
    else Skips(s, i + 1)
  }

  // ----- UTF-16 literals -----

  /** Four hexadecimal digits; 0 when one of them is not a digit. */
  function Hex4(s: Bytes, i: nat): (h: nat)
    requires i + 4 <= |s|
    ensures h < 0x10000
    ensures h != 0 ==> forall k :: i <= k < i + 4 ==> IsHex(s[k])
  {
    if IsHex(s[i]) && IsHex(s[i + 1]) && IsHex(s[i + 2]) && IsHex(s[i + 3]) then
      HexValue(s[i]) * 4096 + HexValue(s[i + 1]) * 256 + HexValue(s[i + 2]) * 16 + HexValue(s[i + 3])
    else 0
  }

  method ParseHex4(s: Bytes, i: nat) returns (h: nat)
    requires i + 4 <= |s|
    ensures h == Hex4(s, i)
  {
    h := 0;
    for k := 0 to 4
      invariant forall m :: i <= m < i + k ==> IsHex(s[m])
      invariant k == 0 ==> h == 0
      invariant k == 1 ==> h == HexValue(s[i]) * 16
      invariant k == 2 ==> h == HexValue(s[i]) * 256 + HexValue(s[i + 1]) * 16
      invariant k == 3 ==> h == HexValue(s[i]) * 4096 + HexValue(s[i + 1]) * 256 + HexValue(s[i + 2]) * 16
      invariant k == 4 ==> h == Hex4(s, i)
    {
      if !IsHex(s[i + k]) {
        return 0;
      }
      h := h + HexValue(s[i + k]);
      if k < 3 {
        h := h * 16;
      }
    }
  }

  datatype Literal = Bad | Literal(length: nat, code: CodePoint)

  /** The code point of the literal \uXXXX or \uXXXX\uXXXX at index p; a lone surrogate is an error. */
  function Utf16Literal(s: Bytes, p: nat, end: nat): (l: Literal)
    requires p <= end < |s|
    ensures l.Literal? ==> p + l.length <= end && (l.length == 6 || l.length == 12)
  {
    if end - p < 6 then Bad
    else
      var first := Hex4(s, p + 2);
      if 0xDC00 <= first <= 0xDFFF then Bad
      else if 0xD800 <= first <= 0xDBFF then
        if end - (p + 6) < 6 then Bad
        else if s[p + 6] != BACKSLASH || s[p + 7] != LETTER_u then Bad
        else
          var second := Hex4(s, p + 8);
          if second < 0xDC00 || second > 0xDFFF then Bad
          else Literal(12, 0x10000 + first % 1024 * 1024 + second % 1024)
      else Literal(6, first)
  }

  // ----- Decoding -----

  /** What the escape with letter c stands for, if it is a short one. */
  function ShortEscape(c: byte): Option<byte> {
    if c == LETTER_b then Some(BACKSPACE)
    else if c == LETTER_f then Some(FORMFEED)
    else if c == LETTER_n then Some(NEWLINE)
    else if c == LETTER_r then Some(RETURN)
    else if c == LETTER_t then Some(TAB)
    else if c == QUOTE || c == BACKSLASH || c == SLASH then Some(c)
    else None
  }

  /** One step of decoding at p: the bytes it yields and its length. */
  datatype Step = Fail | Step(length: nat, output: Bytes)

  function DecodeStep(s: Bytes, p: nat, end: nat): (r: Step)
    requires p < end < |s|
    ensures r.Step? ==> 1 <= r.length && p + r.length <= end + 1
  {
    if s[p] != BACKSLASH then Step(1, [s[p]])
    else if s[p + 1] == LETTER_u then
      var l := Utf16Literal(s, p, end);
      if l.Bad? then Fail else Step(l.length, Utf8(l.code))
    else
      match ShortEscape(s[p + 1])
      case Some(b) => Step(2, [b])
      case None => Fail
  }

  /** The bytes of the literal from p up to the closing quote. */
  function Decode(s: Bytes, p: nat, end: nat): Option<Bytes>
    requires end < |s|
    decreases end - p
  {
    if p >= end then Some([])
    else
      match DecodeStep(s, p, end)
      case Fail => None
      case Step(length, output) =>
        match Decode(s, p + length, end)
        case None => None
        case Some(tail) => Some(output + tail)
  }

  /** A string literal at the start of s: its bytes and what follows the closing quote. */
  function ParseLiteral(s: Bytes): (r: Option<(Bytes, Bytes)>)
    ensures r.Some? ==> |r.value.1| < |s|
  {
    if s == [] || s[0] != QUOTE then None
    else
      match FindEnd(s, 1)
      case None => None
      case Some(end) =>
        match Decode(s, 1, end)
        case None => None
        case Some(output) => Some((output, s[end + 1..]))
  }

  // ----- The size pass -----

  /**
    The scan stands at q when the decoder stands at p. After a malformed \u sequence the decoder may
    stand on the second byte of an escape; then q is p + 1.
   */
  ghost predicate InStep(s: Bytes, p: nat, q: nat, end: nat) {
    (q == p || q == p + 1) && FindEnd(s, q) == Some(end)
  }

  /** The room that the size pass has left for the part of the literal from p on. */
  ghost function Room(s: Bytes, p: nat, q: nat, end: nat): int
    requires InStep(s, p, q, end)
  {
    end - p - Skips(s, q)
  }

  /** Scanning from q reaches target or the byte after it, with at most every other byte a skip. */
  lemma {:induction false} Walk(s: Bytes, q: nat, target: nat, end: nat) returns (q': nat)
    requires FindEnd(s, q) == Some(end) && q <= target + 1 && target <= end
    ensures q' == target || q' == target + 1
    ensures FindEnd(s, q') == Some(end) && 2 * (Skips(s, q) - Skips(s, q')) <= target + 1 - q
    ensures (forall k :: q <= k < target ==> s[k] != BACKSLASH) && q <= target ==> q' == target && Skips(s, q) == Skips(s, q')
    decreases target + 1 - q
  {
    if q >= target {
      q' := q;
    } else if s[q] == BACKSLASH {
      q' := Walk(s, q + 2, target, end);
    } else {
      q' := Walk(s, q + 1, target, end);
    }
  }

  /** Every decoding step, also of a malformed literal, stays within the room of the size pass. */
  lemma StepRoom(s: Bytes, p: nat, q: nat, end: nat) returns (q': nat)
    requires p < end && InStep(s, p, q, end)
    requires DecodeStep(s, p, end).Step?
    ensures var r := DecodeStep(s, p, end);
      if p + r.length <= end then
        InStep(s, p + r.length, q', end) && |r.output| + Room(s, p + r.length, q', end) <= Room(s, p, q, end)
      else |r.output| <= Room(s, p, q, end)
  {
    hide Utf8;
    var r := DecodeStep(s, p, end);
    if s[p] == BACKSLASH && s[p + 1] == LETTER_u {
      q' := LiteralRoom(s, p, q, end);
    } else if p + r.length <= end {
      q' := Walk(s, q, p + r.length, end);
    } else {
      q' := q;
    }
  }

  lemma LiteralRoom(s: Bytes, p: nat, q: nat, end: nat) returns (q': nat)
    requires p < end && InStep(s, p, q, end) && s[p] == BACKSLASH && s[p + 1] == LETTER_u
    requires Utf16Literal(s, p, end).Literal?
    ensures var l := Utf16Literal(s, p, end);
      InStep(s, p + l.length, q', end) && |Utf8(l.code)| + Room(s, p + l.length, q', end) <= Room(s, p, q, end)
  {
    var l := Utf16Literal(s, p, end);
    if Hex4(s, p + 2) == 0 {
      q' := Walk(s, q, p + 6, end);
    } else {
      q' := Walk(s, if q == p then p + 2 else q, p + 6, end);
      assert q' == p + 6;
      if l.length == 12 {
        q' := Walk(s, p + 8, p + 12, end);
      }
    }
  }

  lemma {:induction false} RoomEnough(s: Bytes, q: nat, end: nat)
    requires FindEnd(s, q) == Some(end)
    ensures 0 <= Room(s, q, q, end)
  {
    var q' := Walk(s, q, end, end);
  }

  // ----- The parser -----

  /** The size pass: the closing quote, and the length of the buffer for the text and its NUL. */
  method ScanLiteral(s: Bytes) returns (end: nat, skipped: nat, ok: bool)
    requires s != []
    ensures ok <==> FindEnd(s, 1).Some?
    ensures ok ==> FindEnd(s, 1) == Some(end) && skipped == Skips(s, 1)
  {
    end, skipped := 1, 0;
    while end < |s| && s[end] != QUOTE
      invariant 1 <= end
      invariant FindEnd(s, 1) == FindEnd(s, end)
      invariant FindEnd(s, end).Some? ==> Skips(s, 1) == skipped + Skips(s, end)
      decreases |s| - end
    {
      if s[end] == BACKSLASH {
        if end + 1 >= |s| {
          return end, skipped, false;
        }
        skipped := skipped + 1;
        end := end + 1;
      }
      end := end + 1;
    }
    ok := end < |s|;
  }

  /** c shifted right by 6 * n bits. */
  function Shift6(c: nat, n: nat): nat {
    if n == 0 then c else Shift6(c / 64, n - 1)
  }

  lemma Shift6Next(c: nat, n: nat)
    ensures Shift6(c, n) / 64 == Shift6(c, n + 1)
  {
    if n > 0 {
      Shift6Next(c / 64, n - 1);
    }
  }

  /** The bytes of a code point, written last byte first. */
  method EncodeUtf8(code: CodePoint, output: array<byte>, o: nat) returns (length: nat)
    requires o + |Utf8(code)| <= output.Length
    modifies output
    ensures length == |Utf8(code)|
    ensures output[..o + length] == old(output[..o]) + Utf8(code)
  {
    hide Utf8, Shift6;
    ghost var u := Utf8(code);
    var mark := 0;
    length, mark := Utf8Header(code);
    var rest: nat := code;
    var k := length - 1;
    ShiftDivides(code);
    while k > 0
      invariant 0 <= k < length && rest == Shift6(code, length - 1 - k)
      invariant forall m :: 0 <= m < o ==> output[m] == old(output[m])
      invariant forall m :: o + k < m < o + length ==> output[m] == u[m - o]
    {
      Utf8At(code, k);
      output[o + k] := 0x80 + rest % 64;
      rest := rest / 64;
      Shift6Next(code, length - 1 - k);
      k := k - 1;
    }
    Utf8At(code, 0);
    output[o] := mark + rest;
    assert output[..o] == old(output[..o]);
    assert output[o..o + length] == u;
    assert output[..o + length] == output[..o] + output[o..o + length];
  }

  /** The length of the encoding and the mark of its first byte. */
  method Utf8Header(code: CodePoint) returns (length: nat, mark: nat)
    ensures length == |Utf8(code)| && mark == FirstByteMark(length)
  {
    if code < 0x80 {
      length, mark := 1, 0;
    } else if code < 0x800 {
      length, mark := 2, 0xC0;
    } else if code < 0x10000 {
      length, mark := 3, 0xE0;
    } else {
      length, mark := 4, 0xF0;
    }
  }

  function FirstByteMark(length: nat): nat {
    if length == 1 then 0 else if length == 2 then 0xC0 else if length == 3 then 0xE0 else 0xF0
  }

  /** Byte k of an encoding: six bits of the code point, or the mark and what is left. */
  lemma Utf8At(code: CodePoint, k: nat)
    requires k < |Utf8(code)|
    ensures var n := |Utf8(code)|;
      Utf8(code)[k] == if k == 0 then FirstByteMark(n) + Shift6(code, n - 1) else 0x80 + Shift6(code, n - 1 - k) % 64
  {
    ShiftDivides(code);
  }

  lemma ShiftDivides(c: nat)
    ensures Shift6(c, 0) == c && Shift6(c, 1) == c / 64 && Shift6(c, 2) == c / 4096 && Shift6(c, 3) == c / 262144
  {
    assert c / 64 / 64 == c / 4096;
    assert c / 4096 / 64 == c / 262144;
    assert Shift6(c, 1) == Shift6(c / 64, 0);
    assert Shift6(c, 2) == Shift6(c / 64, 1);
    assert Shift6(c, 3) == Shift6(c / 64, 2) == Shift6(c / 64 / 64, 1);
  }

  method Utf16LiteralToUtf8(s: Bytes, p: nat, end: nat, output: array<byte>, o: nat) returns (length: nat, written: nat)
    requires p <= end < |s|
    requires var l := Utf16Literal(s, p, end); l.Literal? ==> o + |Utf8(l.code)| <= output.Length
    modifies output
    ensures var l := Utf16Literal(s, p, end);
      if l.Bad? then length == 0
      else length == l.length && written == |Utf8(l.code)| && output[..o + written] == old(output[..o]) + Utf8(l.code)
  {
    hide Utf8;
    if end - p < 6 {
      return 0, 0;
    }
    var first := ParseHex4(s, p + 2);
    var code := first;
    length := 6;
    if 0xDC00 <= first <= 0xDFFF {
      return 0, 0;
    }
    if 0xD800 <= first <= 0xDBFF {
      if end - (p + 6) < 6 {
        return 0, 0;
      }
      if s[p + 6] != BACKSLASH || s[p + 7] != LETTER_u {
        return 0, 0;
      }
      var second := ParseHex4(s, p + 8);
      if second < 0xDC00 || second > 0xDFFF {
        return 0, 0;
      }
      length := 12;
      code := 0x10000 + first % 1024 * 1024 + second % 1024;
    }
    written := EncodeUtf8(code, output, o);
  }

  /** One character or escape; length 0 reports an error. */
  method DecodeAt(s: Bytes, p: nat, end: nat, output: array<byte>, o: nat) returns (length: nat, written: nat)
    requires p < end < |s|
    requires var r := DecodeStep(s, p, end); r.Step? ==> o + |r.output| <= output.Length
    modifies output
    ensures var r := DecodeStep(s, p, end);
      if r.Fail? then length == 0
      else length == r.length && written == |r.output| && output[..o + written] == old(output[..o]) + r.output
  {
    hide Utf16Literal, Utf8;
    var b := s[p];
    length, written := 1, 1;
    if s[p] == BACKSLASH {
      if s[p + 1] == LETTER_u {
        length, written := Utf16LiteralToUtf8(s, p, end, output, o);
        return;
      }
      var escape := ShortEscape(s[p + 1]);
      if escape.None? {
        return 0, 0;
      }
      b := escape.value;
      length := 2;
    }
    output[o] := b;
    assert output[..o + 1] == output[..o] + [b];
  }

  /**
    Decodes the literal at the start of s into a buffer whose size the first pass has computed.
    All writes stay within that buffer, whatever s is.
   */
  method ParseString(s: Bytes) returns (r: Option<(Bytes, Bytes)>)
    requires s != []
    ensures r == ParseLiteral(s)
  {
    hide DecodeStep, Skips;
    if s[0] != QUOTE {
      return None;
    }
    var end, skipped, ok := ScanLiteral(s);
    if !ok {
      return None;
    }
    RoomEnough(s, 1, end);
    var allocationLength := end - skipped;
    var output := new byte[allocationLength + 1](_ => 0);
    var p, o := 1, 0;
    ghost var q := 1;
    PrependNone(output[..o], Decode(s, 1, end));
    while p < end
      invariant 1 <= p <= end + 1 && 0 <= o <= allocationLength - 1
      invariant p <= end ==> InStep(s, p, q, end) && o + Room(s, p, q, end) <= allocationLength - 1
      invariant Decode(s, 1, end) == Prepend(output[..o], Decode(s, p, end))
      decreases end + 1 - p
    {
      ghost var step := DecodeStep(s, p, end);
      if step.Step? {
        q := StepRoom(s, p, q, end);
        if p + step.length <= end {
          RoomLeft(s, p + step.length, q, end);
        }
        PrependMore(output[..o], step.output, Decode(s, p + step.length, end));
      }
      var length, written := DecodeAt(s, p, end, output, o);
      if length == 0 {
        return None;
      }
      o := o + written;
      p := p + length;
    }
    output[o] := NUL;
    assert output[..o] + [] == output[..o];
    r := Some((output[..o], s[end + 1..]));
  }

  function Prepend(front: Bytes, tail: Option<Bytes>): Option<Bytes> {
    match tail
    case None => None
    case Some(t) => Some(front + t)
  }

  lemma PrependNone(front: Bytes, tail: Option<Bytes>)
    requires front == []
    ensures Prepend(front, tail) == tail
  {
    if tail.Some? {
      assert front + tail.value == tail.value;
    }
  }

  lemma PrependMore(front: Bytes, middle: Bytes, tail: Option<Bytes>)
    ensures Prepend(front, Prepend(middle, tail)) == Prepend(front + middle, tail)
  {
    if tail.Some? {
      assert front + (middle + tail.value) == front + middle + tail.value;
    }
  }

  lemma RoomLeft(s: Bytes, p: nat, q: nat, end: nat)
    requires p <= end && InStep(s, p, q, end)
    ensures 0 <= Room(s, p, q, end)
  {
    var q' := Walk(s, q, end, end);
  }

  // ----- Well-formed literals -----

  /** A piece of a well-formed literal. */
  datatype Piece = Raw(b: byte) | Short(c: byte) | Unit(hex: Bytes) | Pair(high: Bytes, low: Bytes) {
    ghost predicate Valid() {
      match this
      case Raw(b) => b != QUOTE && b != BACKSLASH
      case Short(c) => ShortEscape(c).Some?
      case Unit(hex) => AllHex(hex) && !(0xD800 <= Hex4(hex, 0) <= 0xDFFF)
      case Pair(high, low) =>
        AllHex(high) && AllHex(low) && 0xD800 <= Hex4(high, 0) <= 0xDBFF && 0xDC00 <= Hex4(low, 0) <= 0xDFFF
    }

    function Text(): Bytes {
      match this
      case Raw(b) => [b]
      case Short(c) => [BACKSLASH, c]
      case Unit(hex) => [BACKSLASH, LETTER_u] + hex
      case Pair(high, low) => [BACKSLASH, LETTER_u] + high + [BACKSLASH, LETTER_u] + low
    }

    /** The bytes it stands for: of its code point in UTF-8. */
    ghost function Meaning(): Bytes
      requires Valid()
    {
      match this
      case Raw(b) => [b]
      case Short(c) => [ShortEscape(c).value]
      case Unit(hex) => Utf8(Hex4(hex, 0))
      case Pair(high, low) => Utf8(0x10000 + (Hex4(high, 0) - 0xD800) * 1024 + (Hex4(low, 0) - 0xDC00))
    }
  }

  predicate AllHex(hex: Bytes) {
    |hex| == 4 && forall i :: 0 <= i < 4 ==> IsHex(hex[i])
  }

  ghost predicate WellFormed(pieces: seq<Piece>) {
    forall i :: 0 <= i < |pieces| ==> pieces[i].Valid()
  }

  function LiteralText(pieces: seq<Piece>): Bytes {
    if pieces == [] then [] else pieces[0].Text() + LiteralText(pieces[1..])
  }

  ghost function LiteralMeaning(pieces: seq<Piece>): Bytes
    requires WellFormed(pieces)
  {
    if pieces == [] then [] else pieces[0].Meaning() + LiteralMeaning(pieces[1..])
  }

  /** Bytes other than quote and backslash are scanned one by one. */
  lemma {:induction false} FindEndOver(s: Bytes, i: nat, n: nat)
    requires i + n <= |s| && forall k :: i <= k < i + n ==> s[k] != QUOTE && s[k] != BACKSLASH
    ensures FindEnd(s, i) == FindEnd(s, i + n)
    decreases n
  {
    if n > 0 {
      FindEndOver(s, i + 1, n - 1);
    }
  }

  lemma HexCopy(s: Bytes, i: nat, hex: Bytes)
    requires AllHex(hex) && i + 4 <= |s| && s[i..i + 4] == hex
    ensures Hex4(s, i) == Hex4(hex, 0)
    ensures FindEnd(s, i) == FindEnd(s, i + 4)
  {
    assert s[i] == hex[0] && s[i + 1] == hex[1] && s[i + 2] == hex[2] && s[i + 3] == hex[3];
    FindEndOver(s, i, 4);
  }

  /** One well-formed piece at index i: the scan passes over it and the decoder yields its meaning. */
  lemma PieceDecoded(s: Bytes, i: nat, piece: Piece, end: nat)
    requires piece.Valid() && i + |piece.Text()| <= end < |s|
    requires s[i..i + |piece.Text()|] == piece.Text()
    ensures |piece.Text()| > 0 && FindEnd(s, i) == FindEnd(s, i + |piece.Text()|)
    ensures DecodeStep(s, i, end) == Step(|piece.Text()|, piece.Meaning())
  {
    hide Hex4, Utf8, Utf16Literal;
    var t := piece.Text();
    match piece
    case Raw(b) => assert s[i] == t[0];
    case Short(c) => assert s[i] == t[0] && s[i + 1] == t[1];
    case Unit(hex) => UnitDecoded(s, i, hex, end);
    case Pair(high, low) => PairDecoded(s, i, high, low, end);
  }

  lemma UnitDecoded(s: Bytes, i: nat, hex: Bytes, end: nat)
    requires Unit(hex).Valid() && i + 6 <= end < |s| && s[i..i + 6] == Unit(hex).Text()
    ensures s[i] == BACKSLASH && s[i + 1] == LETTER_u && FindEnd(s, i) == FindEnd(s, i + 6)
    ensures Utf16Literal(s, i, end) == Literal(6, Hex4(hex, 0))
  {
    hide Hex4;
    var t := s[i..i + 6];
    assert s[i] == t[0] && s[i + 1] == t[1];
    assert s[i + 2..i + 6] == t[2..] == hex;
    HexCopy(s, i + 2, hex);
  }

  lemma SliceOfSlice(s: Bytes, i: nat, n: nat, from: nat, to: nat)
    requires i + n <= |s| && from <= to <= n
    ensures s[i..i + n][from..to] == s[i + from..i + to]
  {
    var u, v := s[i..i + n][from..to], s[i + from..i + to];
    assert |u| == |v| && forall k :: 0 <= k < |u| ==> u[k] == v[k];
  }

  lemma PairText(high: Bytes, low: Bytes)
    requires |high| == |low| == 4
    ensures
      var t := Pair(high, low).Text();
      t[2..6] == high && t[8..12] == low
      && t[0] == t[6] == BACKSLASH && t[1] == t[7] == LETTER_u
  {}

  lemma PairDecoded(s: Bytes, i: nat, high: Bytes, low: Bytes, end: nat)
    requires Pair(high, low).Valid() && i + 12 <= end < |s| && s[i..i + 12] == Pair(high, low).Text()
    ensures s[i] == BACKSLASH && s[i + 1] == LETTER_u && FindEnd(s, i) == FindEnd(s, i + 12)
    ensures Utf16Literal(s, i, end) == Literal(12, 0x10000 + (Hex4(high, 0) - 0xD800) * 1024 + (Hex4(low, 0) - 0xDC00))
  {
    hide Hex4;
    var t := s[i..i + 12];
    PairText(high, low);
    assert s[i] == t[0] && s[i + 1] == t[1] && s[i + 6] == t[6] && s[i + 7] == t[7];
    SliceOfSlice(s, i, 12, 2, 6);
    SliceOfSlice(s, i, 12, 8, 12);
    HexCopy(s, i + 2, high);
    HexCopy(s, i + 8, low);
    assert Hex4(high, 0) % 1024 == Hex4(high, 0) - 0xD800;
    assert Hex4(low, 0) % 1024 == Hex4(low, 0) - 0xDC00;
  }

  lemma {:induction false} PiecesDecoded(s: Bytes, i: nat, pieces: seq<Piece>, rest: Bytes)
    requires WellFormed(pieces) && i <= |s| && s[i..] == LiteralText(pieces) + [QUOTE] + rest
    ensures var end := i + |LiteralText(pieces)|;
      FindEnd(s, i) == Some(end) && Decode(s, i, end) == Some(LiteralMeaning(pieces)) && s[end + 1..] == rest
    decreases |pieces|
  {
    hide DecodeStep, Decode, FindEnd, Piece.Text, Piece.Valid, Piece.Meaning;
    if pieces == [] {
      SplitAt(s, i, [], [QUOTE] + rest);
      SplitAt(s, i, [QUOTE], rest);
      LiteralEnds(s, i);
    } else {
      var t, tail := pieces[0].Text(), LiteralText(pieces[1..]);
      assert LiteralText(pieces) + [QUOTE] + rest == t + (tail + [QUOTE] + rest);
      SplitAt(s, i, t, tail + [QUOTE] + rest);
      PiecesDecoded(s, i + |t|, pieces[1..], rest);
      PieceDecoded(s, i, pieces[0], i + |t| + |tail|);
      DecodeOne(s, i, i + |t| + |tail|);
    }
  }

  lemma LiteralEnds(s: Bytes, i: nat)
    requires i < |s| && s[i] == QUOTE
    ensures FindEnd(s, i) == Some(i) && Decode(s, i, i) == Some([])
  {}

  lemma DecodeOne(s: Bytes, i: nat, end: nat)
    requires i < end < |s| && DecodeStep(s, i, end).Step?
    ensures var r := DecodeStep(s, i, end);
      Decode(s, i, end) == match Decode(s, i + r.length, end) case None => None case Some(tail) => Some(r.output + tail)
  {
    hide DecodeStep;
  }

  lemma SplitAt(s: Bytes, i: nat, a: Bytes, b: Bytes)
    requires i <= |s| && s[i..] == a + b
    ensures i + |a| <= |s| && s[i..i + |a|] == a && s[i + |a|..] == b
    ensures b != [] ==> i + |a| < |s| && s[i + |a|] == b[0]
  {
    assert s[i..i + |a|] == s[i..][..|a|];
    assert s[i + |a|..] == s[i..][|a|..];
  }

  /** Every well-formed literal is read as the UTF-8 bytes of its code points. */
  lemma LiteralDecoded(pieces: seq<Piece>, rest: Bytes)
    requires WellFormed(pieces)
    ensures ParseLiteral([QUOTE] + LiteralText(pieces) + [QUOTE] + rest) == Some((LiteralMeaning(pieces), rest))
  {
    var s := [QUOTE] + LiteralText(pieces) + [QUOTE] + rest;
    assert s[1..] == LiteralText(pieces) + [QUOTE] + rest;
    PiecesDecoded(s, 1, pieces, rest);
  }

  // ----- Escaping -----

  function HexDigit(v: nat): byte
    requires v < 16
  {
    if v < 10 then 48 + v else 87 + v
  }

  /** The letter of the short escape that the printer uses for b. */
  function EscapeLetter(b: byte): Option<byte> {
    if b == QUOTE then Some(QUOTE)
    else if b == BACKSLASH then Some(BACKSLASH)
    else if b == BACKSPACE then Some(LETTER_b)
    else if b == FORMFEED then Some(LETTER_f)
    else if b == NEWLINE then Some(LETTER_n)
    else if b == RETURN then Some(LETTER_r)
    else if b == TAB then Some(LETTER_t)
    else None
  }

  /** The piece that the printer writes for b. */
  function EscapePiece(b: byte): Piece {
    match EscapeLetter(b)
    case Some(letter) => Short(letter)
    case None => if b < 32 then Unit([ZERO, ZERO, HexDigit(b / 16), HexDigit(b % 16)]) else Raw(b)
  }

  function EscapePieces(text: Bytes): (pieces: seq<Piece>)
    ensures |pieces| == |text|
    ensures forall i :: 0 <= i < |text| ==> pieces[i] == EscapePiece(text[i])
  {
    if text == [] then [] else [EscapePiece(text[0])] + EscapePieces(text[1..])
  }

  /** The text in quotes. */
  function Quoted(text: Bytes): Bytes {
    [QUOTE] + LiteralText(EscapePieces(text)) + [QUOTE]
  }

  lemma EscapeMeans(b: byte)
    ensures EscapePiece(b).Valid() && EscapePiece(b).Meaning() == [b]
  {
    if EscapeLetter(b).None? && b < 32 {
      var hex := [ZERO, ZERO, HexDigit(b / 16), HexDigit(b % 16)];
      assert HexValue(hex[2]) == b / 16 && HexValue(hex[3]) == b % 16;
      assert Hex4(hex, 0) == b;
    }
  }

  lemma {:induction false} EscapesMean(text: Bytes)
    ensures WellFormed(EscapePieces(text)) && LiteralMeaning(EscapePieces(text)) == text
  {
    if text != [] {
      EscapeMeans(text[0]);
      EscapesMean(text[1..]);
      assert EscapePieces(text)[1..] == EscapePieces(text[1..]);
    }
  }

  /** Reading a printed string gives the string back. */
  lemma QuotedRoundTrip(text: Bytes, rest: Bytes)
    ensures ParseLiteral(Quoted(text) + rest) == Some((text, rest))
  {
    hide ParseLiteral, EscapePieces;
    EscapesMean(text);
    LiteralDecoded(EscapePieces(text), rest);
    assert Quoted(text) + rest == [QUOTE] + LiteralText(EscapePieces(text)) + [QUOTE] + rest;
  }

  /** A printed string contains no NUL. */
  lemma {:induction false} NoNulEscaped(text: Bytes)
    ensures NUL !in LiteralText(EscapePieces(text))
  {
    if text != [] {
      NoNulEscaped(text[1..]);
      assert EscapePieces(text)[1..] == EscapePieces(text[1..]);
      assert NUL !in EscapePiece(text[0]).Text();
    }
  }

  // ----- The alphabets of RFC 8259, section 7 -----

  const ESCAPES: string := "\"\\/bfnrt"
  const ESCAPED: Bytes := [34, 92, 47, 8, 12, 10, 13, 9]

  /** Eight letters make a short escape, each with its own meaning. */
  lemma EscapeTable(c: byte)
    ensures forall k :: 0 <= k < 8 && ESCAPES[k] as int == c ==> ShortEscape(c) == Some(ESCAPED[k])
    ensures ShortEscape(c).Some? ==> exists k :: 0 <= k < 8 && ESCAPES[k] as int == c
  {
    assert ESCAPES[0] as int == 34 && ESCAPES[1] as int == 92 && ESCAPES[2] as int == 47 && ESCAPES[3] as int == 98;
    assert ESCAPES[4] as int == 102 && ESCAPES[5] as int == 110 && ESCAPES[6] as int == 114 && ESCAPES[7] as int == 116;
  }

  const LOWER_DIGITS: string := "0123456789abcdef"
  const UPPER_DIGITS: string := "0123456789ABCDEF"

  /** The digits of both cases, each with its value; nothing else is a digit. */
  lemma HexTable(v: nat)
    requires v < 16
    ensures forall b: byte :: LOWER_DIGITS[v] as int == b || UPPER_DIGITS[v] as int == b ==> IsHex(b) && HexValue(b) == v
    ensures forall b: byte :: IsHex(b) && HexValue(b) == v ==> LOWER_DIGITS[v] as int == b || UPPER_DIGITS[v] as int == b
  {
    assert v == 0 || v == 1 || v == 2 || v == 3 || v == 4 || v == 5 || v == 6 || v == 7
        || v == 8 || v == 9 || v == 10 || v == 11 || v == 12 || v == 13 || v == 14 || v == 15;
  }

  /**
    The printer escapes exactly the quote, the backslash and the control characters: by the letter of the table if there
    is one, otherwise by \u00 and two lower-case digits. Other bytes stand for themselves, the slash included.
   */
  lemma EscapeSpelled(b: byte)
    ensures b >= 32 && b != 34 && b != 92 ==> EscapePiece(b).Text() == [b]
    ensures forall k :: 0 <= k < 8 && ESCAPED[k] == b && b != 47 ==> EscapePiece(b).Text() == [92, ESCAPES[k] as int as byte]
    ensures b < 32 && b !in ESCAPED ==>
      EscapePiece(b).Text() == [92, 117, 48, 48, LOWER_DIGITS[b / 16] as int as byte, LOWER_DIGITS[b % 16] as int as byte]
  {
    assert ESCAPES[0] as int == 34 && ESCAPES[1] as int == 92 && ESCAPES[2] as int == 47 && ESCAPES[3] as int == 98;
    assert ESCAPES[4] as int == 102 && ESCAPES[5] as int == 110 && ESCAPES[6] as int == 114 && ESCAPES[7] as int == 116;
    if b < 32 {
      LowerDigit(b / 16);
      LowerDigit(b % 16);
      ControlsEscaped(b);
    }
  }

  lemma ControlsEscaped(b: byte)
    ensures EscapeLetter(b).None? && b < 32 ==> b !in ESCAPED
    ensures b < 32 && b !in ESCAPED ==> EscapeLetter(b).None?
  {
    assert ESCAPED[3] == BACKSPACE && ESCAPED[4] == FORMFEED && ESCAPED[5] == NEWLINE && ESCAPED[6] == RETURN && ESCAPED[7] == TAB;
  }

  lemma LowerDigit(v: nat)
    requires v < 16
    ensures HexDigit(v) == LOWER_DIGITS[v] as int
  {
    assert v == 0 || v == 1 || v == 2 || v == 3 || v == 4 || v == 5 || v == 6 || v == 7
        || v == 8 || v == 9 || v == 10 || v == 11 || v == 12 || v == 13 || v == 14 || v == 15;
  }
}
