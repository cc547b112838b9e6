/**
  What the parser accepts, as functions on the input that is left.

  An input is never empty at the end of a C string: its terminating NUL counts as a byte, and NUL is
  among the bytes that are skipped as white space.
 */
module JsonParser {
  import opened JsonText
  import opened JsonString
  import opened JsonTree
  import opened Wrappers

  // ----- White space -----

  function DropSpace(s: Bytes): (r: Bytes)
    ensures |r| <= |s|
    ensures r != [] ==> r[0] > SPACE
  {
    if s != [] && s[0] <= SPACE then DropSpace(s[1..]) else s
  }

  /** Skips white space, but stays on the last byte when there is nothing else. */
  function Skip(s: Bytes): (r: Bytes)
    ensures |r| <= |s|
  {
    var r := DropSpace(s);
    if r == [] && s != [] then s[|s| - 1..] else r
  }

  // ----- Numbers -----

  predicate IsNumberByte(b: byte) {
    IsDigit(b) || b == PLUS || b == MINUS || b == DOT || b == 69 || b == 101
  }

  /** The longest prefix that the parser copies for strtod. */
  function Token(s: Bytes): (t: Bytes)
    ensures t <= s
  {
    if s != [] && IsNumberByte(s[0]) then [s[0]] + Token(s[1..]) else []
  }

  function DigitCount(s: Bytes): (n: nat)
    ensures n <= |s|
    ensures forall i :: 0 <= i < n ==> IsDigit(s[i])
    ensures n < |s| ==> !IsDigit(s[n])
  {
    if s != [] && IsDigit(s[0]) then 1 + DigitCount(s[1..]) else 0
  }

  function DigitsValue(s: Bytes): nat {
    if s == [] then 0 else DigitsValue(s[..|s| - 1]) * 10 + DigitValue(s[|s| - 1])
  }

  function DigitValue(b: byte): nat {
    if IsDigit(b) then b as int - 48 else 0
  }

  /** The part after the digits makes the number a fraction or gives it an exponent. */
  predicate Continues(s: Bytes) {
    s != [] &&
    (s[0] == DOT
     || ((s[0] == 69 || s[0] == 101) &&
         (DigitCount(s[1..]) > 0 || (|s| > 1 && (s[1] == PLUS || s[1] == MINUS) && DigitCount(s[2..]) > 0))))
  }

  /** What strtod makes of a token: nothing, an integer of `length` bytes, or another number. */
  datatype Strtod = NoNumber | Integer(n: int, length: nat) | OtherNumber

  function ReadNumber(token: Bytes): (r: Strtod)
    ensures r.Integer? ==> 1 <= r.length <= |token|
  {
    var sign := if token != [] && (token[0] == MINUS || token[0] == PLUS) then 1 else 0;
    var digits := token[sign..];
    var k := DigitCount(digits);
    if k == 0 then
      if digits != [] && digits[0] == DOT && DigitCount(digits[1..]) > 0 then OtherNumber else NoNumber
    else if Continues(digits[k..]) then OtherNumber
    else
      var v: int := DigitsValue(digits[..k]);
      var n: int := if sign == 1 && token[0] == MINUS then -v else v;
      if IsInt(n) then Integer(n, sign + k) else OtherNumber
  }

  // ----- Values -----

  /** Rejected is the parser's failure; Unmodelled is a number that is not an int. */
  datatype Parsed<+T> = Ok(value: T, rest: Bytes) | Rejected | Unmodelled

  function ParseNumber(s: Bytes): (r: Parsed<Json>)
    ensures r.Ok? ==> |r.rest| < |s|
  {
    match ReadNumber(Token(s))
    case NoNumber => Rejected
    case OtherNumber => Unmodelled
    case Integer(n, length) => Ok(Number(n), s[length..])
  }

  /** A string value is what the C string functions see of the decoded bytes. */
  function ParseText(s: Bytes): (r: Parsed<Bytes>)
    ensures r.Ok? ==> |r.rest| < |s|
    ensures !r.Unmodelled?
  {
    match ParseLiteral(s)
    case None => Rejected
    case Some((output, rest)) => Ok(CString(output), rest)
  }

  function ParseValue(s: Bytes, depth: nat): (r: Parsed<Json>)
    ensures r.Ok? ==> |r.rest| < |s|
    decreases |s|, 1
  {
    if NULL_TEXT <= s then Ok(Null, s[4..])
    else if FALSE_TEXT <= s then Ok(False, s[5..])
    else if TRUE_TEXT <= s then Ok(True, s[4..])
    else if s == [] then Rejected
    else if s[0] == QUOTE then
      match ParseText(s)
      case Ok(text, rest) => Ok(String(text), rest)
      case Rejected => Rejected
      case Unmodelled => Unmodelled
    else if s[0] == MINUS || IsDigit(s[0]) then ParseNumber(s)
    else if s[0] == LBRACKET then
      if depth >= NESTING_LIMIT then Rejected
      else
        var s' := Skip(s[1..]);
        if s' != [] && s'[0] == RBRACKET then Ok(Array([]), s'[1..])
        else
          match ParseItems(s', depth + 1)
          case Ok(items, rest) => Ok(Array(items), rest)
          case Rejected => Rejected
          case Unmodelled => Unmodelled
    else if s[0] == LBRACE then
      if depth >= NESTING_LIMIT then Rejected
      else
        var s' := Skip(s[1..]);
        if s' != [] && s'[0] == RBRACE then Ok(Object([]), s'[1..])
        else
          match ParseMembers(s', depth + 1)
          case Ok(members, rest) => Ok(Object(members), rest)
          case Rejected => Rejected
          case Unmodelled => Unmodelled
    else Rejected
  }

  /** Elements separated by commas, up to and including the closing bracket. */
  function ParseItems(s: Bytes, depth: nat): (r: Parsed<seq<Json>>)
    ensures r.Ok? ==> |r.rest| < |s|
    decreases |s|, 2
  {
    match ParseValue(s, depth)
    case Rejected => Rejected
    case Unmodelled => Unmodelled
    case Ok(item, rest) =>
      var s' := Skip(rest);
      if s' != [] && s'[0] == COMMA then
        match ParseItems(Skip(s'[1..]), depth)
        case Rejected => Rejected
        case Unmodelled => Unmodelled
        case Ok(items, rest') => Ok([item] + items, rest')
      else if s' != [] && s'[0] == RBRACKET then Ok([item], s'[1..])
      else Rejected
  }

  function ParseMembers(s: Bytes, depth: nat): (r: Parsed<seq<Member>>)
    ensures r.Ok? ==> |r.rest| < |s|
    decreases |s|, 2
  {
    match ParseText(s)
    case Rejected => Rejected
    case Unmodelled => Unmodelled
    case Ok(key, rest) =>
      var s' := Skip(rest);
      if s' == [] || s'[0] != COLON then Rejected
      else
        match ParseValue(Skip(s'[1..]), depth)
        case Rejected => Rejected
        case Unmodelled => Unmodelled
        case Ok(value, rest') =>
          var s'' := Skip(rest');
          if s'' != [] && s''[0] == COMMA then
            match ParseMembers(Skip(s''[1..]), depth)
            case Rejected => Rejected
            case Unmodelled => Unmodelled
            case Ok(members, rest'') => Ok([Member(key, value)] + members, rest'')
          else if s'' != [] && s''[0] == RBRACE then Ok([Member(key, value)], s''[1..])
          else Rejected
  }

  // ----- Documents -----

  /** The byte order mark is skipped when at least two bytes follow it. */
  function SkipBom(s: Bytes): Bytes {
    if |s| > 4 && s[..3] == BOM then s[3..] else s
  }

  /** A document given with its terminating NUL; `rest` is where parsing ended. */
  function ParseDocument(s: Bytes, requireNullTerminated: bool): Parsed<Json> {
    if s == [] then Rejected
    else
      match ParseValue(Skip(SkipBom(s)), 0)
      case Ok(value, rest) =>
        if requireNullTerminated then
          var end := Skip(rest);
          if end == [] || end[0] != NUL then Rejected else Ok(value, end)
        else Ok(value, rest)
      case Rejected => Rejected
      case Unmodelled => Unmodelled
  }
}
