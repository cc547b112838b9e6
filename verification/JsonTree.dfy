/** JSON trees, their nesting, and the text that the printer produces for them. */
module JsonTree {
  import opened JsonText
  import opened JsonString

  const INT_MAX: int := 0x7FFF_FFFF
  const INT_MIN: int := -0x8000_0000
  const NESTING_LIMIT: nat := 1000

  datatype Json =
    | Null
    | False
    | True
    | Number(n: int)
    | String(text: Bytes)
    | Array(items: seq<Json>)
    | Object(members: seq<Member>)

  datatype Member = Member(key: Bytes, value: Json)

  predicate IsInt(n: int) {
    INT_MIN <= n <= INT_MAX
  }

  /** Numbers are in the range of int, and no string contains a NUL. */
  predicate Valid(t: Json) {
    match t
    case Number(n) => IsInt(n)
    case String(text) => NUL !in text
    case Array(items) => forall i :: 0 <= i < |items| ==> Valid(items[i])
    case Object(members) => forall i :: 0 <= i < |members| ==> NUL !in members[i].key && Valid(members[i].value)
    case _ => true
  }

  /** How deep arrays and objects are nested. */
  function Nesting(t: Json): nat {
    match t
    case Array(items) => 1 + ItemsNesting(items)
    case Object(members) => 1 + MembersNesting(members)
    case _ => 0
  }

  function ItemsNesting(items: seq<Json>): nat {
    if items == [] then 0 else Max(Nesting(items[0]), ItemsNesting(items[1..]))
  }

  function MembersNesting(members: seq<Member>): nat {
    if members == [] then 0 else Max(Nesting(members[0].value), MembersNesting(members[1..]))
  }

  function Max(a: nat, b: nat): nat {
    if a < b then b else a
  }

  // ----- Numbers -----

  /** n in decimal. */
  function Digits(n: nat): (s: Bytes)
    ensures s != [] && (forall i :: 0 <= i < |s| ==> IsDigit(s[i]))
  {
    if n < 10 then [ZERO + n] else Digits(n / 10) + [ZERO + n % 10]
  }

  /** The output of printf("%d"). */
  function NumberText(n: int): (s: Bytes) {
    if n < 0 then [MINUS] + Digits(-n) else Digits(n)
  }

  // ----- Text -----

  function Tabs(n: nat): Bytes {
    seq(n, _ => TAB)
  }

  /** What stands between two array elements. */
  function ArraySeparator(format: bool): Bytes {
    if format then [COMMA, SPACE] else [COMMA]
  }

  /** The text of a tree at a nesting depth, which matters for indentation only. */
  function Render(t: Json, format: bool, depth: nat): Bytes
    decreases t, 0
  {
    match t
    case Null => NULL_TEXT
    case False => FALSE_TEXT
    case True => TRUE_TEXT
    case Number(n) => NumberText(n)
    case String(text) => Quoted(text)
    case Array(items) => [LBRACKET] + RenderItems(items, format, depth + 1) + [RBRACKET]
    case Object(members) =>
      ObjectOpen(format) + RenderMembers(members, format, depth + 1) + ObjectClose(format, depth)
  }

  function ObjectOpen(format: bool): Bytes {
    if format then [LBRACE, NEWLINE] else [LBRACE]
  }

  function ObjectClose(format: bool, depth: nat): Bytes {
    if format then Tabs(depth) + [RBRACE] else [RBRACE]
  }

  function RenderItems(items: seq<Json>, format: bool, depth: nat): Bytes
    decreases items, 1
  {
    if items == [] then []
    else if |items| == 1 then Render(items[0], format, depth)
    else Render(items[0], format, depth) + ArraySeparator(format) + RenderItems(items[1..], format, depth)
  }

  function RenderMembers(members: seq<Member>, format: bool, depth: nat): Bytes
    decreases members, 1
  {
    if members == [] then []
    else
      KeyText(members[0].key, format, depth) + Render(members[0].value, format, depth)
      + MemberEnd(format, |members| > 1) + RenderMembers(members[1..], format, depth)
  }

  /** Indentation, key and colon. */
  function KeyText(key: Bytes, format: bool, depth: nat): Bytes {
    if format then Tabs(depth) + Quoted(key) + [COLON, TAB] else Quoted(key) + [COLON]
  }

  function MemberEnd(format: bool, more: bool): Bytes {
    (if more then [COMMA] else []) + (if format then [NEWLINE] else [])
  }
}
