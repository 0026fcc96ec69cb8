/** JSON values and the text the printers make of them. Children are chains, as the library
    links them. Texts are bytes without a terminator. */
module JsonText {
  import opened Bytes

  datatype Json =
    | Null
    | False
    | True
    | Number(value: real)
    | String(text: bytes)
    | Array(items: Items)
    | Object(members: Members)

  datatype Items = NoItem | Item(head: Json, tail: Items)

  datatype Members = NoMember | Member(name: bytes, value: Json, rest: Members)

  const QUOTE: byte := 34
  const BACKSLASH: byte := 92
  const COMMA: byte := 44
  const COLON: byte := 58
  const TAB: byte := 9
  const NEWLINE: byte := 10
  const SPACE: byte := 32

  const NULL_TEXT: bytes := [110, 117, 108, 108]
  const FALSE_TEXT: bytes := [102, 97, 108, 115, 101]
  const TRUE_TEXT: bytes := [116, 114, 117, 101]

  // ------------------------------------------------------------ values in scope

  const INT_MIN: int := -0x8000_0000
  const INT_MAX: int := 0x7fff_ffff

  /** Numbers of the C int range; strings are C strings, so they hold no zero byte. */
  predicate IntValue(x: real) { x == x.Floor as real && INT_MIN <= x.Floor <= INT_MAX }

  predicate NonZero(s: bytes) { forall i :: 0 <= i < |s| ==> s[i] != 0 }

  predicate Ok(v: Json) {
    match v
    case Number(x) => IntValue(x)
    case String(t) => NonZero(t)
    case Array(items) => ItemsOk(items)
    case Object(ms) => MembersOk(ms)
    case _ => true
  }

  predicate ItemsOk(items: Items) {
    match items
    case NoItem => true
    case Item(v, tail) => Ok(v) && ItemsOk(tail)
  }

  predicate MembersOk(ms: Members) {
    match ms
    case NoMember => true
    case Member(name, v, rest) => NonZero(name) && Ok(v) && MembersOk(rest)
  }

  // ------------------------------------------------------------ numbers and strings

  /** Decimal digits of a natural number. */
  function Decimal(n: nat): (t: bytes)
    ensures |t| > 0
  {
    if n < 10 then [48 + n] else Decimal(n / 10) + [48 + n % 10]
  }

  /** What "%d" prints. */
  function IntText(n: int): (t: bytes)
    ensures |t| > 0
  {
    if n < 0 then [45] + Decimal(-n) else Decimal(n)
  }

  function HexDigit(d: nat): byte
    requires d < 16
  {
    if d < 10 then 48 + d else 87 + d
  }

  /** A byte inside quotes: two-character escapes, \u00xx for other control bytes. */
  function Escape(c: byte): bytes {
    if c == QUOTE then [BACKSLASH, QUOTE]
    else if c == BACKSLASH then [BACKSLASH, BACKSLASH]
    else if c == 8 then [BACKSLASH, 98]
    else if c == 12 then [BACKSLASH, 102]
    else if c == 10 then [BACKSLASH, 110]
    else if c == 13 then [BACKSLASH, 114]
    else if c == 9 then [BACKSLASH, 116]
    else if c < 32 then [BACKSLASH, 117, 48, 48, HexDigit(c / 16), HexDigit(c % 16)]
    else [c]
  }

  function EscapeAll(s: bytes): bytes {
    if s == [] then [] else Escape(s[0]) + EscapeAll(s[1..])
  }

  function Quoted(s: bytes): (t: bytes)
    ensures |t| >= 2 && t[0] == QUOTE
  {
    [QUOTE] + EscapeAll(s) + [QUOTE]
  }

  // ------------------------------------------------------------ printing

  function Tabs(n: nat): (t: bytes)
    ensures |t| == n
  {
    seq(n, _ => TAB)
  }

  function When(fmt: bool, t: bytes): bytes { if fmt then t else [] }

  function Print(v: Json, depth: nat, fmt: bool): (t: bytes) {
    match v
    case Null => NULL_TEXT
    case False => FALSE_TEXT
    case True => TRUE_TEXT
    case Number(x) => IntText(x.Floor)
    case String(s) => Quoted(s)
    case Array(items) => [91] + PrintItems(items, depth + 1, fmt) + [93]
    case Object(NoMember) => [123] + When(fmt, [NEWLINE] + Tabs(if depth > 0 then depth - 1 else 0)) + [125]
    case Object(ms) => [123] + When(fmt, [NEWLINE]) + PrintMembers(ms, depth + 1, fmt) + When(fmt, Tabs(depth)) + [125]
  }

  /** The children of an array, with a comma (and a blank) between them. */
  function PrintItems(items: Items, depth: nat, fmt: bool): (t: bytes) {
    match items
    case NoItem => []
    case Item(v, tail) => Print(v, depth, fmt) + (if tail.NoItem? then [] else [COMMA] + When(fmt, [SPACE])) + PrintItems(tail, depth, fmt)
  }

  /** What stands in front of a member's value: indentation, name, colon. */
  function MemberHead(name: bytes, depth: nat, fmt: bool): bytes {
    When(fmt, Tabs(depth)) + Quoted(name) + [COLON] + When(fmt, [TAB])
  }

  /** What stands behind it: a comma if another member follows, and the end of the line. */
  function MemberTail(last: bool, fmt: bool): bytes { (if last then [] else [COMMA]) + When(fmt, [NEWLINE]) }

  function PrintMembers(ms: Members, depth: nat, fmt: bool): (t: bytes) {
    match ms
    case NoMember => []
    case Member(name, v, rest) =>
      MemberHead(name, depth, fmt) + Print(v, depth, fmt) + MemberTail(rest.NoMember?, fmt) + PrintMembers(rest, depth, fmt)
  }
}
