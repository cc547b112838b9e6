/** Bytes of JSON texts, their character classes, and UTF-8. */
module JsonText {
  type byte = x: int | 0 <= x < 256

  type Bytes = seq<byte>

  const NUL: byte := 0
  const BACKSPACE: byte := 8
  const TAB: byte := 9
  const NEWLINE: byte := 10
  const FORMFEED: byte := 12
  const RETURN: byte := 13
  const SPACE: byte := 32
  const QUOTE: byte := 34
  const PLUS: byte := 43
  const COMMA: byte := 44
  const MINUS: byte := 45
  const DOT: byte := 46
  const SLASH: byte := 47
  const ZERO: byte := 48
  const NINE: byte := 57
  const COLON: byte := 58
  const LBRACKET: byte := 91
  const BACKSLASH: byte := 92
  const RBRACKET: byte := 93
  const LETTER_b: byte := 98
  const LETTER_f: byte := 102
  const LETTER_n: byte := 110
  const LETTER_r: byte := 114
  const LETTER_t: byte := 116
  const LETTER_u: byte := 117
  const LBRACE: byte := 123
  const RBRACE: byte := 125

  const NULL_TEXT: Bytes := [110, 117, 108, 108]
  const FALSE_TEXT: Bytes := [102, 97, 108, 115, 101]
  const TRUE_TEXT: Bytes := [116, 114, 117, 101]
  const BOM: Bytes := [0xEF, 0xBB, 0xBF]

  predicate IsDigit(b: byte) {
    ZERO <= b <= NINE
  }

  predicate IsHex(b: byte) {
    IsDigit(b) || 65 <= b <= 70 || 97 <= b <= 102
  }

  function HexValue(b: byte): (v: nat)
    requires IsHex(b)
    ensures v < 16
  {
    if IsDigit(b) then b - 48 else if b <= 70 then b - 55 else b - 87
  }

  /** The text of a C string: what comes before the first NUL. */
  function CString(s: Bytes): (c: Bytes)
    ensures NUL !in c && |c| <= |s|
    ensures NUL !in s ==> c == s
  {
    if s == [] || s[0] == NUL then [] else [s[0]] + CString(s[1..])
  }

  // ----- UTF-8 (section 3 of RFC 3629) -----

  type CodePoint = x: int | 0 <= x <= 0x10FFFF

  function Utf8(c: CodePoint): (s: Bytes)
    ensures 1 <= |s| <= 4
  {
    if c < 0x80 then [c]
    else if c < 0x800 then [0xC0 + c / 64, 0x80 + c % 64]
    else if c < 0x10000 then [0xE0 + c / 4096, 0x80 + c / 64 % 64, 0x80 + c % 64]
    else [0xF0 + c / 262144, 0x80 + c / 4096 % 64, 0x80 + c / 64 % 64, 0x80 + c % 64]
  }

  /** The code point whose encoding comes first, and what follows it. */
  function DecodeUtf8(s: Bytes): (r: (int, Bytes))
    requires s != []
  {
    var b: int := s[0];
    if b < 0x80 then (b, s[1..])
    else if b < 0xE0 && |s| >= 2 then ((b - 0xC0) * 64 + Low(s[1]), s[2..])
    else if 0xE0 <= b < 0xF0 && |s| >= 3 then ((b - 0xE0) * 4096 + Low(s[1]) * 64 + Low(s[2]), s[3..])
    else if 0xF0 <= b && |s| >= 4 then
      ((b - 0xF0) * 262144 + Low(s[1]) * 4096 + Low(s[2]) * 64 + Low(s[3]), s[4..])
    else (-1, s)
  }

  function Low(b: byte): int {
    b as int - 0x80
  }

  lemma Utf8RoundTrip(c: CodePoint, rest: Bytes)
    ensures DecodeUtf8(Utf8(c) + rest) == (c, rest)
  {
    var s := Utf8(c);
    assert (s + rest)[|s|..] == rest;
    assert forall i :: 0 <= i < |s| ==> (s + rest)[i] == s[i];
    Digits64(c);
  }

  lemma Digits64(c: CodePoint)
    ensures c == c / 64 * 64 + c % 64
    ensures c == c / 4096 * 4096 + c / 64 % 64 * 64 + c % 64
    ensures c == c / 262144 * 262144 + c / 4096 % 64 * 4096 + c / 64 % 64 * 64 + c % 64
  {}
}
